/** The scan shared by `re.findall`, `re.finditer` and `re.split`: try a
    pattern at each position from left to right; after a match, resume at its
    end. A pattern is given as the function from a start position to the end
    of the match there, if any. */
module Matching {
  import opened Text

  datatype Span = Span(start: nat, end: nat)

  /** Every match of `M` in a text of length `n` is non-empty and lies inside
      the text. */
  ghost predicate Advances(n: nat, M: nat -> Option<nat>) {
    forall p: nat :: M(p).Some? ==> p < M(p).value <= n
  }

  /** The spans are in document order and do not overlap. */
  ghost predicate Ordered(r: seq<Span>) {
    forall i, j :: 0 <= i < j < |r| ==> r[i].end <= r[j].start
  }

  /** Position `p` lies inside one of the spans. */
  ghost predicate Covered(r: seq<Span>, p: nat) {
    exists i :: 0 <= i < |r| && r[i].start <= p < r[i].end
  }

  /** The non-overlapping leftmost matches of `M` from position `from` on: each
      span is a match at its start and the spans are in order. That no match
      is skipped is `ScanCovers`. */
  function Scan(n: nat, from: nat, M: nat -> Option<nat>): (r: seq<Span>)
    requires Advances(n, M)
    ensures forall i :: 0 <= i < |r| ==> from <= r[i].start < r[i].end <= n
    ensures forall i :: 0 <= i < |r| ==> M(r[i].start) == Some(r[i].end)
    ensures Ordered(r)
    decreases n - from
  {
    if from >= n then
      []
    else
      match M(from)
      case Some(e) =>
        var rest := Scan(n, e, M);
        var r := [Span(from, e)] + rest;
        assert forall i :: 0 < i < |r| ==> r[i] == rest[i - 1];
        assert forall i :: 0 <= i < |r| ==> M(r[i].start) == Some(r[i].end) by {
          forall i | 0 <= i < |r| ensures M(r[i].start) == Some(r[i].end) {
            if i > 0 {
              assert r[i] == rest[i - 1];
            }
          }
        }
        r
      case None =>
        Scan(n, from + 1, M)
  }

  /** Every position from `from` on where `M` could match either starts a span
      or lies inside one: no match is skipped and none overlaps an earlier
      one. */
  lemma {:induction false} ScanCovers(n: nat, from: nat, M: nat -> Option<nat>, p: nat)
    requires Advances(n, M)
    requires from <= p
    ensures M(p).Some? ==> Covered(Scan(n, from, M), p)
    decreases n - from
  {
    if M(p).Some? {
      assert p < n;
      match M(from)
      case Some(e) =>
        var rest := Scan(n, e, M);
        var r := [Span(from, e)] + rest;
        assert Scan(n, from, M) == r;
        if p < e {
          assert r[0].start <= p < r[0].end;
        } else {
          ScanCovers(n, e, M, p);
          var i :| 0 <= i < |rest| && rest[i].start <= p < rest[i].end;
          assert r[i + 1] == rest[i];
        }
      case None =>
        assert Scan(n, from, M) == Scan(n, from + 1, M);
        ScanCovers(n, from + 1, M, p);
    }
  }

  /** No match starts before the first span. */
  lemma NoMatchBefore(n: nat, from: nat, M: nat -> Option<nat>, p: nat)
    requires Advances(n, M)
    requires var r := Scan(n, from, M); from <= p && (r == [] || p < r[0].start)
    ensures M(p).None?
  {
    var r := Scan(n, from, M);
    ScanCovers(n, from, M, p);
    assert !Covered(r, p) by {
      forall j | 0 <= j < |r| ensures p < r[j].start {
        assert j == 0 || r[0].end <= r[j].start;
      }
    }
  }

  /** No match starts between the end of span `i` and the start of the next
      span (or the end of the text, after the last span). */
  lemma NoMatchAfter(n: nat, from: nat, M: nat -> Option<nat>, i: nat, p: nat)
    requires Advances(n, M)
    requires var r := Scan(n, from, M);
             i < |r| && r[i].end <= p && (i + 1 == |r| || p < r[i + 1].start)
    ensures M(p).None?
  {
    var r := Scan(n, from, M);
    ScanCovers(n, from, M, p);
    NotCoveredInGap(r, i, p);
  }

  /** In ordered non-empty spans, a position between span `i` and span `i + 1`
      lies in no span. */
  lemma NotCoveredInGap(r: seq<Span>, i: nat, p: nat)
    requires Ordered(r)
    requires forall j :: 0 <= j < |r| ==> r[j].start < r[j].end
    requires i < |r| && r[i].end <= p && (i + 1 == |r| || p < r[i + 1].start)
    ensures !Covered(r, p)
  {
    forall j | 0 <= j < |r| ensures r[j].end <= p || p < r[j].start {
      if j < i {
        assert r[j].end <= r[i].start;
      } else if i + 1 < j {
        assert r[i + 1].end <= r[j].start;
      }
    }
  }

  /** Positions where `M` does not match are passed over. */
  lemma {:induction false} ScanSkip(n: nat, from: nat, stop: nat, M: nat -> Option<nat>)
    requires Advances(n, M)
    requires from <= stop <= n
    requires forall p: nat :: from <= p < stop ==> M(p).None?
    ensures Scan(n, from, M) == Scan(n, stop, M)
    decreases stop - from
  {
    if from < stop {
      assert M(from).None?;
      assert Scan(n, from, M) == Scan(n, from + 1, M);
      ScanSkip(n, from + 1, stop, M);
    }
  }

  /** A match where the scan stands is taken, and the scan resumes at its end. */
  lemma ScanTake(n: nat, from: nat, M: nat -> Option<nat>)
    requires Advances(n, M)
    requires from < n && M(from).Some?
    ensures Scan(n, from, M) == [Span(from, M(from).value)] + Scan(n, M(from).value, M)
  {
  }
}
