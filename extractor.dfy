/** Field extraction for one question block: the title search, the option
    `findall`, and the three-tier choice of answer and explanation. Every step
    reads the whole block, never what an earlier step left over. */
module Extractor {
  import opened Text
  import opened Matching

  /** What one block yields; every field is stripped. */
  datatype ParsedQuestion = ParsedQuestion(title: string, options: seq<string>, answer: string, analysis: string)

  // ---------------------------------------------------------------- title

  /** The lookahead `(?=\n[A-E])` holds at `j`. */
  predicate OptionLineAt(s: string, j: nat) {
    j + 1 < |s| && s[j] == '\n' && IsOptionLetter(s[j + 1])
  }

  /** `re.search(r'^(.*?)(?=\n[A-E])', item, re.DOTALL)`, stripped. Without the
      MULTILINE flag `^` anchors at position 0, so the lazy group ends at the
      first line break that is followed by an option letter; with no such line
      break there is no match and the title is empty. */
  function Title(s: string): (r: string)
    ensures IsStripped(r)
    ensures (forall j: nat :: j < |s| ==> !OptionLineAt(s, j)) ==> r == ""
    ensures forall j: nat :: OptionLineAt(s, j) && (forall k: nat :: k < j ==> !OptionLineAt(s, k))
              ==> r == Strip(s[..j])
  {
    var P := (j: nat) => OptionLineAt(s, j);
    assert forall j: nat :: P(j) == OptionLineAt(s, j);
    match First(0, |s|, P)
    case Some(j) => Strip(s[..j])
    case None => ""
  }

  // ---------------------------------------------------------------- options

  /** The lookahead `(?=\n[A-E]|\n答案|\n解析|$)` that ends an option body.
      Without MULTILINE, `$` holds at the end of the text and just before a
      line break that is the last character. */
  predicate OptionStop(s: string, i: nat) {
    || i == |s|
    || (i + 1 == |s| && s[i] == '\n')
    || OptionLineAt(s, i)
    || (i < |s| && s[i] == '\n' && AnswerWordAt(s, i + 1))
    || (i < |s| && s[i] == '\n' && AnalysisWordAt(s, i + 1))
  }

  /** The first position at or after `i` where an option body may end. */
  function NearestStop(s: string, i: nat): (r: nat)
    requires i <= |s|
    ensures i <= r <= |s| && OptionStop(s, r)
    ensures forall j: nat :: i <= j < r ==> !OptionStop(s, j)
    decreases |s| - i
  {
    if OptionStop(s, i) then i else NearestStop(s, i + 1)
  }

  /** Where the body of an option whose letter is at `p` begins. The greedy
      `[\.。]?` takes a full stop after the letter whenever at least one
      character follows it; otherwise it backtracks and the stop belongs to the
      body. */
  function BodyStart(s: string, p: nat): nat {
    if p + 2 < |s| && IsFullStop(s[p + 1]) then p + 2 else p + 1
  }

  /** The end of `[A-E][\.。]?(.+?)(?=…)` tried at `p`. `$` always holds at the
      end of the text, so the lazy body, which needs one character, succeeds
      whenever the letter is not the last character. */
  function OptionAt(s: string, p: nat): (r: Option<nat>)
    ensures r.Some? ==> p < r.value <= |s|
  {
    if p + 1 < |s| && IsOptionLetter(s[p]) then Some(NearestStop(s, BodyStart(s, p) + 1)) else None
  }

  /** The option pattern as a function of the start position. */
  function OptionPattern(s: string): nat -> Option<nat> {
    (p: nat) => OptionAt(s, p)
  }

  /** The spans of the matches `re.findall` reports, from the letter to the
      end of the body. */
  function OptionSpans(s: string): (r: seq<Span>)
    ensures forall i :: 0 <= i < |r| ==> r[i].start < r[i].end <= |s|
    ensures forall i :: 0 <= i < |r| ==> OptionAt(s, r[i].start) == Some(r[i].end)
    ensures Ordered(r)
  {
    Scan(|s|, 0, OptionPattern(s))
  }

  /** `[opt.strip() for opt in re.findall(…, item, re.DOTALL)]`. */
  function Options(s: string): (opts: seq<string>)
    ensures |opts| == |OptionSpans(s)|
    ensures forall i :: 0 <= i < |opts| ==> IsStripped(opts[i])
  {
    var r := OptionSpans(s);
    seq(|r|, i requires 0 <= i < |r| => Strip(s[BodyStart(s, r[i].start)..r[i].end]))
  }

  // ---------------------------------------------------------------- answer and explanation

  /** `答案[:：]` at `p`. */
  predicate AnswerMarkerAt(s: string, p: nat) {
    AnswerWordAt(s, p) && p + 2 < |s| && IsColon(s[p + 2])
  }

  /** `解析[:：]` at `p`. */
  predicate AnalysisMarkerAt(s: string, p: nat) {
    AnalysisWordAt(s, p) && p + 2 < |s| && IsColon(s[p + 2])
  }

  /** Tier (a), `答案[:：]([A-E]+)`, matches at `p`. */
  predicate LetterKeyAt(s: string, p: nat) {
    AnswerMarkerAt(s, p) && p + 3 < |s| && IsOptionLetter(s[p + 3])
  }

  /** `\n解析` at `i`. */
  predicate AnalysisBreakAt(s: string, i: nat) {
    i < |s| && s[i] == '\n' && AnalysisWordAt(s, i + 1)
  }

  /** Tier (b), `答案[:：]([\s\S]+?)\n解析`, tried at `p`: the lazy group holds at
      least one character and ends at the first `\n解析` after that. */
  function ExplainedEnd(s: string, p: nat): (r: Option<nat>)
    ensures r.Some? ==> AnswerMarkerAt(s, p) && p + 4 <= r.value && AnalysisBreakAt(s, r.value)
    ensures AnswerMarkerAt(s, p) ==>
              forall i: nat :: p + 4 <= i < |s| && (r.None? || i < r.value) ==> !AnalysisBreakAt(s, i)
  {
    var P := (i: nat) => AnalysisBreakAt(s, i);
    assert forall i: nat :: P(i) == AnalysisBreakAt(s, i);
    if AnswerMarkerAt(s, p) then First(p + 4, |s|, P) else None
  }

  /** Tier (c), `答案[:：]([\s\S]+)`, matches at `p`. */
  predicate AnswerToEndAt(s: string, p: nat) {
    AnswerMarkerAt(s, p) && p + 3 < |s|
  }

  /** `解析[:：]([\s\S]+)` matches at `p`. */
  predicate AnalysisAt(s: string, p: nat) {
    AnalysisMarkerAt(s, p) && p + 3 < |s|
  }

  /** Which tier decides the answer, and where its first match is. */
  datatype AnswerRule = LetterKey(at: nat) | Explained(at: nat, stop: nat) | ToEnd(at: nat) | NoAnswer

  /** The ordered decision of the three tiers: the first tier with any match
      wins, and within a tier the leftmost match is used (`daan[0]`). */
  function Classify(s: string): (rule: AnswerRule)
    ensures rule.LetterKey? ==> LetterKeyAt(s, rule.at) && forall q: nat :: q < rule.at ==> !LetterKeyAt(s, q)
    ensures !rule.LetterKey? ==> forall q: nat :: q < |s| ==> !LetterKeyAt(s, q)
    ensures rule.Explained? ==> ExplainedEnd(s, rule.at) == Some(rule.stop)
                                && forall q: nat :: q < rule.at ==> ExplainedEnd(s, q).None?
    ensures (rule.ToEnd? || rule.NoAnswer?) ==> forall q: nat :: q < |s| ==> ExplainedEnd(s, q).None?
    ensures rule.ToEnd? ==> AnswerToEndAt(s, rule.at) && forall q: nat :: q < rule.at ==> !AnswerToEndAt(s, q)
    ensures rule.NoAnswer? ==> forall q: nat :: q < |s| ==> !AnswerToEndAt(s, q)
  {
    var A := (p: nat) => LetterKeyAt(s, p);
    var B := (p: nat) => ExplainedEnd(s, p).Some?;
    var C := (p: nat) => AnswerToEndAt(s, p);
    assert forall p: nat :: A(p) == LetterKeyAt(s, p);
    assert forall p: nat :: B(p) == ExplainedEnd(s, p).Some?;
    assert forall p: nat :: C(p) == AnswerToEndAt(s, p);
    match First(0, |s|, A)
    case Some(p) => LetterKey(p)
    case None =>
      match First(0, |s|, B)
      case Some(p) => Explained(p, ExplainedEnd(s, p).value)
      case None =>
        match First(0, |s|, C)
        case Some(p) => ToEnd(p)
        case None => NoAnswer
  }

  /** `jiexi[0].strip() if jiexi else ''` for `jiexi = re.findall(r'解析[:：]([\s\S]+)', item)`:
      the stripped rest of the block after the first `解析` with a colon that
      has anything after it. */
  function AnalysisText(s: string): (r: string)
    ensures IsStripped(r)
    ensures (forall p: nat :: p < |s| ==> !AnalysisAt(s, p)) ==> r == ""
    ensures forall p: nat :: AnalysisAt(s, p) && (forall q: nat :: q < p ==> !AnalysisAt(s, q))
              ==> r == Strip(s[p + 3..])
  {
    var P := (p: nat) => AnalysisAt(s, p);
    assert forall p: nat :: P(p) == AnalysisAt(s, p);
    match First(0, |s|, P)
    case Some(p) => Strip(s[p + 3..])
    case None => ""
  }

  /** The answer and explanation of a block, chosen by its rule. */
  function AnswerAndAnalysis(s: string): (r: (string, string))
    ensures IsStripped(r.0) && IsStripped(r.1)
  {
    match Classify(s)
    case LetterKey(p) => (Strip(s[p + 3..RunEnd(s, p + 3, IsOptionLetter)]), AnalysisText(s))
    case Explained(p, i) => (Strip(s[p + 3..i]), AnalysisText(s))
    case ToEnd(p) => (Strip(s[p + 3..]), "")
    case NoAnswer => ("", "")
  }

  /** All fields of one block. Extraction is total: a block without any
      recognisable part yields empty fields rather than an error. */
  function ParseBlock(s: string): (q: ParsedQuestion)
    ensures IsStripped(q.title) && IsStripped(q.answer) && IsStripped(q.analysis)
    ensures forall i :: 0 <= i < |q.options| ==> IsStripped(q.options[i])
  {
    var (answer, analysis) := AnswerAndAnalysis(s);
    ParsedQuestion(Title(s), Options(s), answer, analysis)
  }

  // ---------------------------------------------------------------- properties of options

  /** Option `i` begins with its letter, then the full stop after the letter
      exactly when one is there with a character after it, then a body of
      at least one character that ends at the nearest stop: a line break before
      an option letter, `\n答案`, `\n解析`, or the end of the block. */
  lemma OptionBody(s: string, i: nat)
    requires i < |OptionSpans(s)|
    ensures var sp := OptionSpans(s)[i];
            var b := BodyStart(s, sp.start);
            && IsOptionLetter(s[sp.start])
            && sp.start < b < sp.end
            && (b == sp.start + 2 <==> sp.start + 2 < |s| && IsFullStop(s[sp.start + 1]))
            && OptionStop(s, sp.end)
            && (forall j: nat :: b < j < sp.end ==> !OptionStop(s, j))
            && Options(s)[i] == Strip(s[b..sp.end])
  {
    var sp := OptionSpans(s)[i];
    assert OptionAt(s, sp.start) == Some(sp.end);
  }

  /** Options come in the order of their letters in the block, whatever the
      letters are: no sorting and no check that they run A, B, C, ... */
  lemma OptionsInDocumentOrder(s: string, i: nat, j: nat)
    requires i < j < |OptionSpans(s)|
    ensures OptionSpans(s)[i].end <= OptionSpans(s)[j].start
  {
  }

  /** The letter is not anchored to the start of a line: every `A`-`E` with a
      character after it, in the title, a body or an answer alike, either
      starts an option or lies inside the match of an earlier one. */
  lemma EveryLetterIsAnOption(s: string, p: nat)
    requires p + 1 < |s| && IsOptionLetter(s[p])
    ensures exists i :: 0 <= i < |OptionSpans(s)| && OptionSpans(s)[i].start <= p < OptionSpans(s)[i].end
  {
    assert OptionPattern(s)(p).Some?;
    ScanCovers(|s|, 0, OptionPattern(s), p);
    assert Covered(OptionSpans(s), p);
  }

  /** Before the first option, and between two options, no option letter is
      followed by another character. */
  lemma NoLetterOutsideOptions(s: string, p: nat)
    requires var r := OptionSpans(s);
             (r == [] || p < r[0].start) ||
             (exists i :: 0 <= i < |r| && r[i].end <= p && (i + 1 == |r| || p < r[i + 1].start))
    ensures !(p + 1 < |s| && IsOptionLetter(s[p]))
  {
    var r := OptionSpans(s);
    if r == [] || p < r[0].start {
      NoMatchBefore(|s|, 0, OptionPattern(s), p);
    } else {
      var i :| 0 <= i < |r| && r[i].end <= p && (i + 1 == |r| || p < r[i + 1].start);
      NoMatchAfter(|s|, 0, OptionPattern(s), i, p);
    }
    assert OptionPattern(s)(p) == OptionAt(s, p);
  }

  // ---------------------------------------------------------------- properties of the answer tiers

  /** Tier (a): when some `答案` and colon are directly followed by an option
      letter, the answer is the whole run of option letters at the leftmost
      such place (never empty, letters only), and the explanation is the text
      after the first `解析` and colon. */
  lemma LetterKeyAnswer(s: string, p: nat)
    requires LetterKeyAt(s, p)
    requires forall q: nat :: q < p ==> !LetterKeyAt(s, q)
    ensures var r := AnswerAndAnalysis(s);
            && r.0 == s[p + 3..RunEnd(s, p + 3, IsOptionLetter)]
            && |r.0| >= 1
            && (forall k :: 0 <= k < |r.0| ==> IsOptionLetter(r.0[k]))
            && r.1 == AnalysisText(s)
  {
    assert Classify(s) == LetterKey(p);
    var key := s[p + 3..RunEnd(s, p + 3, IsOptionLetter)];
    assert key[0] == s[p + 3];
    assert IsStripped(key);
    StripStripped(key);
  }

  /** Tier (b): with no letter key, when some `答案` and colon are followed, at
      least one character later, by `\n解析`, the answer is the stripped text from
      the first answer marker of the block to the nearest such `\n解析`, and the
      explanation is found as in tier (a). */
  lemma ExplainedAnswer(s: string, p: nat, i: nat)
    requires forall q: nat :: q < |s| ==> !LetterKeyAt(s, q)
    requires ExplainedEnd(s, p) == Some(i)
    requires forall q: nat :: q < p ==> ExplainedEnd(s, q).None?
    ensures AnswerAndAnalysis(s) == (Strip(s[p + 3..i]), AnalysisText(s))
    ensures AnswerMarkerAt(s, p) && forall q: nat :: q < p ==> !AnswerMarkerAt(s, q)
    ensures p + 4 <= i && AnalysisBreakAt(s, i)
    ensures forall j: nat :: p + 4 <= j < i ==> !AnalysisBreakAt(s, j)
  {
    assert Classify(s) == Explained(p, i);
    forall q: nat | q < p ensures !AnswerMarkerAt(s, q) {
      assert ExplainedEnd(s, q).None?;
    }
  }

  /** Tier (c): with neither of the above, the answer is the stripped rest of
      the block after the first `答案` and colon that has anything after it, no
      `\n解析` follows that marker, and the explanation is empty. */
  lemma ToEndAnswer(s: string, p: nat)
    requires forall q: nat :: q < |s| ==> !LetterKeyAt(s, q)
    requires forall q: nat :: q < |s| ==> ExplainedEnd(s, q).None?
    requires AnswerToEndAt(s, p)
    requires forall q: nat :: q < p ==> !AnswerToEndAt(s, q)
    ensures AnswerAndAnalysis(s) == (Strip(s[p + 3..]), "")
    ensures forall j: nat :: p + 4 <= j < |s| ==> !AnalysisBreakAt(s, j)
  {
    assert Classify(s) == ToEnd(p);
    assert ExplainedEnd(s, p).None?;
  }

  /** Without an answer marker that has text after it, answer and explanation
      are both empty; extraction does not fail. */
  lemma NoAnswerText(s: string)
    requires forall p: nat :: p < |s| ==> !AnswerToEndAt(s, p)
    ensures AnswerAndAnalysis(s) == ("", "")
  {
    assert forall q: nat :: LetterKeyAt(s, q) ==> AnswerToEndAt(s, q);
    assert forall q: nat :: ExplainedEnd(s, q).Some? ==> AnswerToEndAt(s, q);
    assert Classify(s) == NoAnswer;
  }

  /** In particular a block without any `答案` and colon. */
  lemma NoAnswerMarker(s: string)
    requires forall p: nat :: p < |s| ==> !AnswerMarkerAt(s, p)
    ensures AnswerAndAnalysis(s) == ("", "")
  {
    NoAnswerText(s);
  }
}
