/** Worked examples: short question texts taken through the segmenter and the
    extractor, with the fields each step yields. */
module Scenarios {
  import opened Text
  import opened Matching
  import opened Segmenter
  import opened Extractor

  /** `M` matches nowhere in `[i, j)`, checked one position at a time. */
  predicate Unmatched(M: nat -> Option<nat>, i: nat, j: nat)
    decreases j - i
  {
    i >= j || (M(i).None? && Unmatched(M, i + 1, j))
  }

  lemma {:induction false} UnmatchedMeans(M: nat -> Option<nat>, i: nat, j: nat)
    requires Unmatched(M, i, j)
    ensures forall p: nat :: i <= p < j ==> M(p).None?
    decreases j - i
  {
    if i < j {
      UnmatchedMeans(M, i + 1, j);
    }
  }

  /** The character `c` does not occur in `s[i..j]`. */
  predicate Avoids(s: string, i: nat, j: nat, c: char)
    decreases j - i
  {
    i >= j || (i < |s| && s[i] != c && Avoids(s, i + 1, j, c))
  }

  lemma {:induction false} AvoidsMeans(s: string, i: nat, j: nat, c: char)
    requires j <= |s| && Avoids(s, i, j, c)
    ensures forall k: nat :: i <= k < j ==> s[k] != c
    decreases j - i
  {
    if i < j {
      AvoidsMeans(s, i + 1, j, c);
    }
  }

  /** A single character that is not whitespace is already stripped. */
  lemma StripOne(c: char)
    requires !IsSpace(c)
    ensures Strip([c]) == [c]
  {
    StripStripped([c]);
  }

  // ---------------------------------------------------------------- segmentation

  /** Two questions, the second numbered after a line break and an indent, with
      the ideographic full stop. */
  const Paper: string := "1.a\n 2。b"

  lemma PaperMatches()
    ensures |Paper| == 8
    ensures MarkerPattern(Paper)(0) == Some(2) && MarkerPattern(Paper)(3) == Some(7)
    ensures Unmatched(MarkerPattern(Paper), 2, 3) && Unmatched(MarkerPattern(Paper), 7, 8)
  {
  }

  lemma PaperMarkers()
    ensures Markers(Paper) == [Span(0, 2), Span(3, 7)]
  {
    var M := MarkerPattern(Paper);
    PaperMatches();
    UnmatchedMeans(M, 2, 3);
    UnmatchedMeans(M, 7, 8);
    assert Scan(8, 8, M) == [];
    ScanSkip(8, 7, 8, M);
    ScanTake(8, 3, M);
    ScanSkip(8, 2, 3, M);
    ScanTake(8, 0, M);
  }

  lemma PaperBlocks()
    ensures Segment(Paper) == ["a", "b"]
  {
    PaperMarkers();
    assert Paper[2..3] == "a" && Paper[7..] == "b";
  }

  /** A number that does not follow a line break does not start a question. */
  const OneLine: string := "1.a 2.b"

  lemma OneLineBlocks()
    ensures Segment(OneLine) == ["a 2.b"]
  {
    var M := MarkerPattern(OneLine);
    assert M(0) == Some(2);
    assert Unmatched(M, 2, 7);
    UnmatchedMeans(M, 2, 7);
    assert Scan(7, 7, M) == [];
    ScanSkip(7, 2, 7, M);
    ScanTake(7, 0, M);
    assert Markers(OneLine) == [Span(0, 2)];
    assert OneLine[2..] == "a 2.b";
  }

  // ---------------------------------------------------------------- one block, letter key

  /** A title, one option and a letter key that names two letters. */
  const Keyed: string := "Q\nA.x\n答案：AB"

  lemma KeyedMatches()
    ensures |Keyed| == 11
    ensures OptionPattern(Keyed)(2) == Some(5) && OptionPattern(Keyed)(9) == Some(11)
  {
  }

  lemma KeyedGaps()
    ensures Unmatched(OptionPattern(Keyed), 0, 2) && Unmatched(OptionPattern(Keyed), 5, 9)
  {
  }

  lemma KeyedSpans()
    ensures OptionSpans(Keyed) == [Span(2, 5), Span(9, 11)]
  {
    var M := OptionPattern(Keyed);
    KeyedMatches();
    KeyedGaps();
    UnmatchedMeans(M, 0, 2);
    UnmatchedMeans(M, 5, 9);
    ScanTake(11, 9, M);
    ScanSkip(11, 5, 9, M);
    ScanTake(11, 2, M);
    ScanSkip(11, 0, 2, M);
  }

  /** The options of a block with two option matches, from their bodies. */
  lemma TwoOptions(s: string, a: nat, a': nat, b: nat, c: nat, c': nat, d: nat)
    requires OptionSpans(s) == [Span(a, b), Span(c, d)]
    requires BodyStart(s, a) == a' <= b <= |s| && BodyStart(s, c) == c' <= d <= |s|
    ensures Options(s) == [Strip(s[a'..b]), Strip(s[c'..d])]
  {
  }

  lemma KeyedBodies()
    ensures BodyStart(Keyed, 2) == 4 && BodyStart(Keyed, 9) == 10 && |Keyed| == 11
    ensures Strip(Keyed[4..5]) == "x" && Strip(Keyed[10..11]) == "B"
  {
    assert Keyed[4..5] == ['x'] && Keyed[10..11] == ['B'];
    StripOne('x');
    StripOne('B');
  }

  /** The `B` of the key is read as a second option: option letters are not
      anchored to the start of a line. */
  lemma KeyedOptions()
    ensures Options(Keyed) == ["x", "B"]
  {
    KeyedSpans();
    KeyedBodies();
    TwoOptions(Keyed, 2, 4, 5, 9, 10, 11);
  }

  lemma KeyedTitle()
    ensures Title(Keyed) == "Q"
  {
    assert OptionLineAt(Keyed, 1);
    assert Keyed[..1] == "Q";
    StripStripped("Q");
  }

  lemma KeyedKeyFirst()
    ensures forall q: nat :: q < 6 ==> !LetterKeyAt(Keyed, q)
  {
    assert Avoids(Keyed, 0, 6, '答');
    AvoidsMeans(Keyed, 0, 6, '答');
  }

  lemma KeyedKey()
    ensures LetterKeyAt(Keyed, 6) && RunEnd(Keyed, 9, IsOptionLetter) == 11
    ensures Keyed[9..11] == "AB"
  {
  }

  lemma KeyedNoAnalysis()
    ensures forall p: nat :: p < |Keyed| ==> !AnalysisAt(Keyed, p)
  {
    assert Avoids(Keyed, 0, 11, '解');
    AvoidsMeans(Keyed, 0, 11, '解');
  }

  lemma KeyedAnswer()
    ensures AnswerAndAnalysis(Keyed) == ("AB", "")
  {
    KeyedKeyFirst();
    KeyedKey();
    KeyedNoAnalysis();
    LetterKeyAnswer(Keyed, 6);
  }

  lemma KeyedBlock()
    ensures ParseBlock(Keyed) == ParsedQuestion("Q", ["x", "B"], "AB", "")
  {
    KeyedTitle();
    KeyedOptions();
    KeyedAnswer();
  }

  // ---------------------------------------------------------------- one block, explained answer

  /** A free-text answer followed by an explanation. */
  const Explained: string := "答案：n\n解析：w"

  lemma ExplainedNoKey()
    ensures forall q: nat :: q < |Explained| ==> !LetterKeyAt(Explained, q)
  {
    assert Avoids(Explained, 1, 9, '答');
    AvoidsMeans(Explained, 1, 9, '答');
    assert !LetterKeyAt(Explained, 0);
  }

  lemma ExplainedStop()
    ensures ExplainedEnd(Explained, 0) == Some(4)
  {
    assert AnalysisBreakAt(Explained, 4);
  }

  lemma ExplainedKey()
    ensures Strip(Explained[3..4]) == "n"
  {
    assert Explained[3..4] == ['n'];
    StripOne('n');
  }

  lemma ExplainedAnalysisFirst()
    ensures forall q: nat :: q < 5 ==> !AnalysisAt(Explained, q)
    ensures AnalysisAt(Explained, 5)
  {
    assert Avoids(Explained, 0, 5, '解');
    AvoidsMeans(Explained, 0, 5, '解');
  }

  lemma ExplainedAnalysisText()
    ensures Strip(Explained[8..]) == "w"
  {
    assert Explained[8..] == ['w'];
    StripOne('w');
  }

  lemma ExplainedAnalysis()
    ensures AnalysisText(Explained) == "w"
  {
    ExplainedAnalysisFirst();
    ExplainedAnalysisText();
  }

  lemma ExplainedFields()
    ensures AnswerAndAnalysis(Explained) == ("n", "w")
  {
    ExplainedNoKey();
    ExplainedStop();
    ExplainedKey();
    ExplainedAnswer(Explained, 0, 4);
    ExplainedAnalysis();
  }
}
