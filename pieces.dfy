/** Where each piece of a seven-piece concatenation sits, for the two prompt templates. */
module Pieces {

  /** Offsets of the pieces of `a + b + c + d + e + f + g`. */
  lemma SevenPieces<T>(a: seq<T>, b: seq<T>, c: seq<T>, d: seq<T>, e: seq<T>, f: seq<T>, g: seq<T>)
    ensures var p := a + b + c + d + e + f + g;
      var oc := |a| + |b|;
      var od := oc + |c|;
      var oe := od + |d|;
      && |p| == |a| + |b| + |c| + |d| + |e| + |f| + |g|
      && p[..|a|] == a
      && p[|a|..oc] == b
      && p[oc..od] == c
      && p[od..oe] == d
      && p[oe..oe + |e|] == e
      && p[oe + |e|..|p| - |g|] == f
      && p[|p| - |g|..] == g
  {
    var p := a + b + c + d + e + f + g;
    assert p[..|p|] == p;
    PeelLast(p, a + b + c + d + e + f, g);
    PeelLast(p, a + b + c + d + e, f);
    PeelLast(p, a + b + c + d, e);
    PeelLast(p, a + b + c, d);
    PeelLast(p, a + b, c);
    PeelLast(p, a, b);
    assert p[|p| - |g|..] == p[|p| - |g|..|p|];
  }

  /** A prefix `x + m` of `s` splits into a shorter prefix `x` followed by `m`. */
  lemma PeelLast<T>(s: seq<T>, x: seq<T>, m: seq<T>)
    requires |x| + |m| <= |s| && s[..|x| + |m|] == x + m
    ensures s[..|x|] == x && s[|x|..|x| + |m|] == m
  {
    var q := s[..|x| + |m|];
    assert s[..|x|] == q[..|x|];
    assert s[|x|..|x| + |m|] == q[|x|..];
  }
}
