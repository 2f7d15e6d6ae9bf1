/** Splitting the normalised text into question blocks:
    `re.compile(r'(?:^|\n\s*)\d+?[\.。]').split(data)[1:]`. */
module Segmenter {
  import opened Text
  import opened Matching

  /** `\d+?[\.。]` tried at position `q`: digits, then a full stop. A full stop is
      not a digit, so the lazy digit run can only stop where the digits end. */
  function NumberAt(t: string, q: nat): (r: Option<nat>)
    requires q <= |t|
    ensures r.Some? ==> q < r.value <= |t|
  {
    var d := RunEnd(t, q, IsDigit);
    if q < d < |t| && IsFullStop(t[d]) then Some(d + 1) else None
  }

  /** The end of a question marker `(?:^|\n\s*)\d+?[\.。]` tried at position `p`.
      Without the MULTILINE flag `^` matches at position 0 only. Whitespace that
      `\s*` gives back on backtracking can never be followed by a digit, so only
      the longest whitespace run after the line break needs trying. */
  function MarkerAt(t: string, p: nat): (r: Option<nat>)
    ensures r.Some? ==> p < r.value <= |t|
  {
    if p == 0 && NumberAt(t, 0).Some? then NumberAt(t, 0)
    else if p < |t| && t[p] == '\n' then NumberAt(t, RunEnd(t, p + 1, IsSpace))
    else None
  }

  /** The pattern's own reading of "a marker occupies `t[p..e]`": the start of
      the text or a line break followed by whitespace up to `q`, digits from `q`
      to `d`, a full stop at `d`. */
  ghost predicate MarkerShape(t: string, p: nat, q: nat, d: nat, e: nat) {
    && p <= q < d && e == d + 1 && e <= |t|
    && ((p == 0 && q == 0) || (t[p] == '\n' && p < q && AllAre(t, p + 1, q, IsSpace)))
    && AllAre(t, q, d, IsDigit)
    && IsFullStop(t[d])
  }

  ghost predicate IsMarker(t: string, p: nat, e: nat) {
    exists q: nat, d: nat :: MarkerShape(t, p, q, d, e)
  }

  /** The scanning function finds exactly the matches the pattern defines, so a
      marker match at a given position is unique. */
  lemma MarkerAtIsPattern(t: string, p: nat, e: nat)
    ensures MarkerAt(t, p) == Some(e) <==> IsMarker(t, p, e)
  {
    if MarkerAt(t, p) == Some(e) {
      MarkerAtShape(t, p, e);
    }
    if IsMarker(t, p, e) {
      var q: nat, d: nat :| MarkerShape(t, p, q, d, e);
      ShapeMarkerAt(t, p, q, d, e);
    }
  }

  /** What the scanning function finds has the shape of the pattern. */
  lemma MarkerAtShape(t: string, p: nat, e: nat)
    requires MarkerAt(t, p) == Some(e)
    ensures IsMarker(t, p, e)
  {
    if p == 0 && NumberAt(t, 0).Some? {
      assert MarkerShape(t, p, 0, RunEnd(t, 0, IsDigit), e);
    } else {
      var q := RunEnd(t, p + 1, IsSpace);
      assert MarkerShape(t, p, q, RunEnd(t, q, IsDigit), e);
    }
  }

  /** Whatever has the shape of the pattern is found by the scanning function. */
  lemma ShapeMarkerAt(t: string, p: nat, q: nat, d: nat, e: nat)
    requires MarkerShape(t, p, q, d, e)
    ensures MarkerAt(t, p) == Some(e)
  {
    RunEndIs(t, q, d, IsDigit);
    if p == 0 && q == 0 {
      assert NumberAt(t, 0) == Some(e);
    } else {
      assert IsDigit(t[q]) && !IsSpace(t[q]);
      RunEndIs(t, p + 1, q, IsSpace);
      assert !IsDigit(t[p]);
      assert NumberAt(t, q) == Some(e);
    }
  }

  /** The marker pattern as a function of the start position. */
  function MarkerPattern(t: string): nat -> Option<nat> {
    (p: nat) => MarkerAt(t, p)
  }

  /** The marker matches `re.split` cuts at, in document order. */
  function Markers(t: string): (r: seq<Span>)
    ensures forall i :: 0 <= i < |r| ==> r[i].start < r[i].end <= |t|
    ensures Ordered(r)
  {
    Scan(|t|, 0, MarkerPattern(t))
  }

  /** Spans lying in order inside `t[from..]`. */
  ghost predicate Within(t: string, from: nat, r: seq<Span>) {
    && from <= |t|
    && (forall i :: 0 <= i < |r| ==> from <= r[i].start < r[i].end <= |t|)
    && Ordered(r)
  }

  /** The pieces `re.split` returns from position `from` on: the text before the
      first span, then the text after each span up to the next one. */
  function Pieces(t: string, from: nat, r: seq<Span>): (ps: seq<string>)
    requires Within(t, from, r)
    ensures |ps| == |r| + 1
    decreases |r|
  {
    if r == [] then [t[from..]]
    else [t[from..r[0].start]] + Pieces(t, r[0].end, r[1..])
  }

  /** The text of each span. */
  function Texts(t: string, r: seq<Span>): (ms: seq<string>)
    requires forall i :: 0 <= i < |r| ==> r[i].start <= r[i].end <= |t|
  {
    seq(|r|, i requires 0 <= i < |r| => t[r[i].start..r[i].end])
  }

  /** pieces[0] + marks[0] + pieces[1] + marks[1] + ... + pieces[n]. */
  function Weave(pieces: seq<string>, marks: seq<string>): string
    requires |pieces| == |marks| + 1
    decreases |marks|
  {
    if marks == [] then pieces[0] else pieces[0] + marks[0] + Weave(pieces[1..], marks[1..])
  }

  /** The full result of `pattern.split(t)`. */
  function Split(t: string): (ps: seq<string>)
    ensures |ps| == |Markers(t)| + 1
  {
    Pieces(t, 0, Markers(t))
  }

  /** The question blocks: `data_list[1:]`, the preamble dropped. */
  function Segment(t: string): (blocks: seq<string>)
    ensures |blocks| == |Markers(t)|
  {
    Split(t)[1..]
  }

  /** Putting the markers back between the pieces gives back the text. */
  lemma {:induction false} WeavePieces(t: string, from: nat, r: seq<Span>)
    requires Within(t, from, r)
    ensures Weave(Pieces(t, from, r), Texts(t, r)) == t[from..]
    decreases |r|
  {
    if r != [] {
      WeavePieces(t, r[0].end, r[1..]);
      assert Texts(t, r)[1..] == Texts(t, r[1..]);
      assert t[from..] == t[from..r[0].start] + t[r[0].start..r[0].end] + t[r[0].end..];
    }
  }

  /** Piece `k + 1` is the text from the end of span `k` to the start of the
      next span, or to the end of the text after the last span; piece 0 is
      the text before the first span. */
  lemma {:induction false} PieceAt(t: string, from: nat, r: seq<Span>, k: nat)
    requires Within(t, from, r)
    requires k < |r|
    ensures Pieces(t, from, r)[0] == t[from..r[0].start]
    ensures Pieces(t, from, r)[k + 1] == t[r[k].end..if k + 1 < |r| then r[k + 1].start else |t|]
    decreases |r|
  {
    if k > 0 {
      PieceAt(t, r[0].end, r[1..], k - 1);
    } else if |r| == 1 {
      assert Pieces(t, r[0].end, r[1..]) == [t[r[0].end..]];
    } else {
      assert Pieces(t, r[0].end, r[1..])[0] == t[r[0].end..r[1].start];
    }
  }

  /** Segmentation round trip: the discarded preamble, then each marker
      followed by its block, reconstruct the text. */
  lemma SegmentRoundTrip(t: string)
    ensures Weave([Split(t)[0]] + Segment(t), Texts(t, Markers(t))) == t
  {
    WeavePieces(t, 0, Markers(t));
    assert [Split(t)[0]] + Segment(t) == Split(t);
  }

  /** Block `k` is the text between marker `k` and marker `k + 1` (or the end
      of the text); the preamble is the text before the first marker, or the
      whole text when there is no marker. */
  lemma SegmentBlockAt(t: string, k: nat)
    requires k < |Markers(t)|
    ensures var r := Markers(t);
            Segment(t)[k] == t[r[k].end..if k + 1 < |r| then r[k + 1].start else |t|]
            && Split(t)[0] == t[..r[0].start]
  {
    PieceAt(t, 0, Markers(t), k);
  }

  /** Without a marker the whole text is the preamble and there are no blocks. */
  lemma SegmentNoMarker(t: string)
    requires Markers(t) == []
    ensures Split(t) == [t] && Segment(t) == []
  {
  }

  /** Each cut is made at a match of the marker pattern. */
  lemma MarkersMatch(t: string, i: nat)
    requires i < |Markers(t)|
    ensures IsMarker(t, Markers(t)[i].start, Markers(t)[i].end)
  {
    MarkerAtIsPattern(t, Markers(t)[i].start, Markers(t)[i].end);
  }

  /** No marker match starts inside the discarded preamble. */
  lemma NoMarkerInPreamble(t: string, p: nat)
    requires Markers(t) == [] || p < Markers(t)[0].start
    ensures MarkerAt(t, p).None?
  {
    NoMatchBefore(|t|, 0, MarkerPattern(t), p);
  }

  /** No marker match starts inside block `i`: the blocks are cut at the
      leftmost non-overlapping matches and nowhere else. */
  lemma NoMarkerInBlock(t: string, i: nat, p: nat)
    requires var r := Markers(t);
             i < |r| && r[i].end <= p && (i + 1 == |r| || p < r[i + 1].start)
    ensures MarkerAt(t, p).None?
  {
    NoMatchAfter(|t|, 0, MarkerPattern(t), i, p);
  }
}
