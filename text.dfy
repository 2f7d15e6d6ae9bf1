/** Characters, whitespace, stripping and the "leftmost position" search that the
    question parser is built from. The predicates follow the character classes
    of Python's `re` module as the parser's patterns use them. */
module Text {

  datatype Option<T> = None | Some(value: T) {
    function GetOr(default: T): T {
      match this
      case Some(v) => v
      case None => default
    }
  }

  /** Python's `str.isspace()`, which is also the set that `\s` matches in a
      `str` pattern: the characters with bidirectional class WS, B or S, or in
      the Unicode category Zs. */
  predicate IsSpace(c: char) {
    || c == ' '
    || ('\t' <= c <= '\r')
    || ('\U{1C}' <= c <= '\U{1F}')
    || c == '\U{85}'
    || c == '\U{A0}'
    || c == '\U{1680}'
    || ('\U{2000}' <= c <= '\U{200A}')
    || c == '\U{2028}'
    || c == '\U{2029}'
    || c == '\U{202F}'
    || c == '\U{205F}'
    || c == '\U{3000}'
  }

  /** `\d`, restricted to the ASCII digits. */
  predicate IsDigit(c: char) {
    '0' <= c <= '9'
  }

  /** `[A-E]`: an upper-case option letter. */
  predicate IsOptionLetter(c: char) {
    'A' <= c <= 'E'
  }

  /** `[\.。]`: an ASCII full stop or the ideographic full stop. */
  predicate IsFullStop(c: char) {
    c == '.' || c == '。'
  }

  /** `[:：]`: an ASCII colon or the fullwidth colon. */
  predicate IsColon(c: char) {
    c == ':' || c == '：'
  }

  /** The answer marker `答案` starts at position `i`. */
  predicate AnswerWordAt(s: string, i: nat) {
    i + 1 < |s| && s[i] == '答' && s[i + 1] == '案'
  }

  /** The explanation marker `解析` starts at position `i`. */
  predicate AnalysisWordAt(s: string, i: nat) {
    i + 1 < |s| && s[i] == '解' && s[i + 1] == '析'
  }

  /** Every character of `s[i..j]` satisfies `P`. */
  predicate AllAre(s: string, i: nat, j: nat, P: char -> bool)
    requires i <= j <= |s|
  {
    forall k :: i <= k < j ==> P(s[k])
  }

  /** The end of the longest run of `P`-characters that starts at `i`: what a
      greedy `P*` consumes from there. */
  function RunEnd(s: string, i: nat, P: char -> bool): (e: nat)
    requires i <= |s|
    ensures i <= e <= |s|
    ensures forall k :: i <= k < e ==> P(s[k])
    ensures e == |s| || !P(s[e])
    decreases |s| - i
  {
    if i < |s| && P(s[i]) then RunEnd(s, i + 1, P) else i
  }

  /** A run of `P`-characters from `i` to `j` that is not followed by another
      `P`-character is the longest one. */
  lemma {:induction false} RunEndIs(s: string, i: nat, j: nat, P: char -> bool)
    requires i <= j <= |s|
    requires AllAre(s, i, j, P)
    requires j == |s| || !P(s[j])
    ensures RunEnd(s, i, P) == j
    decreases j - i
  {
    if i < j {
      RunEndIs(s, i + 1, j, P);
    }
  }

  /** The least position in `[lo, hi)` that satisfies `P`: where a regular
      expression search, trying positions from left to right, first succeeds. */
  function First(lo: nat, hi: nat, P: nat -> bool): (r: Option<nat>)
    ensures r.Some? ==> lo <= r.value < hi && P(r.value)
    ensures forall j :: lo <= j < hi && (r.None? || j < r.value) ==> !P(j)
    decreases hi - lo
  {
    if lo >= hi then None
    else if P(lo) then Some(lo)
    else First(lo + 1, hi, P)
  }

  /** The start of the run of `P`-characters that ends `s[lo..hi]`. */
  function RunStart(s: string, lo: nat, hi: nat, P: char -> bool): (j: nat)
    requires lo <= hi <= |s|
    ensures lo <= j <= hi
    ensures forall k :: j <= k < hi ==> P(s[k])
    ensures j == lo || !P(s[j - 1])
    decreases hi
  {
    if lo < hi && P(s[hi - 1]) then RunStart(s, lo, hi - 1, P) else hi
  }

  /** Neither end of `s` is whitespace. */
  predicate IsStripped(s: string) {
    s == [] || (!IsSpace(s[0]) && !IsSpace(s[|s| - 1]))
  }

  /** Python's `str.strip()`: the result is the slice `s[i..j]` that remains
      when all whitespace before `i` and after `j` is removed, and neither of
      its ends is whitespace. */
  function Strip(s: string): (r: string)
    ensures IsStripped(r)
    ensures exists i :: 0 <= i <= |s| - |r| && r == s[i..i + |r|]
                        && AllAre(s, 0, i, IsSpace) && AllAre(s, i + |r|, |s|, IsSpace)
  {
    var i := RunEnd(s, 0, IsSpace);
    var j := RunStart(s, i, |s|, IsSpace);
    assert AllAre(s, 0, i, IsSpace);
    assert AllAre(s, j, |s|, IsSpace);
    assert s[i..j] == s[i..i + (j - i)];
    s[i..j]
  }

  /** A string that is already stripped is returned unchanged. */
  lemma StripStripped(s: string)
    requires IsStripped(s)
    ensures Strip(s) == s
  {
    assert RunEnd(s, 0, IsSpace) == 0;
    assert RunStart(s, 0, |s|, IsSpace) == |s|;
  }

  /** Stripping is idempotent. */
  lemma StripIdempotent(s: string)
    ensures Strip(Strip(s)) == Strip(s)
  {
    StripStripped(Strip(s));
  }
}
