/** The first step of the text import: `data.replace('．', '.')`, so that
    question numbers written with the fullwidth full stop are recognised by the
    segmenter like those written with an ASCII full stop. */
module Normalizer {

  /** The fullwidth full stop U+FF0E. */
  const FullwidthStop: char := '．'

  /** Every fullwidth full stop of `s` replaced by `.`, left to right. */
  function Normalize(s: string): (r: string)
    ensures |r| == |s|
    ensures forall i :: 0 <= i < |s| && s[i] != FullwidthStop ==> r[i] == s[i]
    ensures forall i :: 0 <= i < |s| && s[i] == FullwidthStop ==> r[i] == '.'
  {
    if s == [] then []
    else [if s[0] == FullwidthStop then '.' else s[0]] + Normalize(s[1..])
  }

  /** No fullwidth full stop is left. */
  lemma NormalizeRemovesStops(s: string)
    ensures FullwidthStop !in Normalize(s)
  {
    var r := Normalize(s);
    forall i | 0 <= i < |r| ensures r[i] != FullwidthStop {
    }
  }

  /** Normalising already-normalised text changes nothing. */
  lemma NormalizeIdempotent(s: string)
    ensures Normalize(Normalize(s)) == Normalize(s)
  {
    var r := Normalize(s);
    NormalizeRemovesStops(s);
    NormalizeFixesStopFree(r);
  }

  /** Text without fullwidth full stops is its own normal form. */
  lemma {:induction false} NormalizeFixesStopFree(s: string)
    requires FullwidthStop !in s
    ensures Normalize(s) == s
  {
    if s != [] {
      NormalizeFixesStopFree(s[1..]);
    }
  }
}
