/** Occurrences of one string in another. */
module Strings {

  function Min(a: int, b: int): int { if a < b then a else b }
  function Max(a: int, b: int): int { if a < b then b else a }

  // Array.prototype.slice(0, limit) keeps this many of n elements.
  function Kept(limit: int, n: nat): (k: nat)
    ensures k <= n
  {
    if limit < 0 then Max(n + limit, 0) else Min(limit, n)
  }

  function Lower(lower: char -> char, s: string): (r: string)
    ensures |r| == |s|
  {
    seq(|s|, i requires 0 <= i < |s| => lower(s[i]))
  }

  predicate At(h: string, q: string, p: int) {
    0 <= p && p + |q| <= |h| && forall k :: 0 <= k < |q| ==> h[p + k] == q[k]
  }

  lemma AtIsSlice(h: string, q: string, p: int)
    ensures At(h, q, p) <==> 0 <= p && p + |q| <= |h| && h[p..p + |q|] == q
  {
    if 0 <= p && p + |q| <= |h| {
      var t := h[p..p + |q|];
      assert forall k :: 0 <= k < |q| ==> t[k] == h[p + k];
    }
  }

  function Scan(h: string, q: string, p: nat): (r: int)
    ensures r == -1 || p <= r <= |h| - |q|
    decreases |h| - p
  {
    if p + |q| > |h| then -1
    else if At(h, q, p) then p
    else Scan(h, q, p + 1)
  }

  // String.prototype.indexOf with a start position, which is clamped to the length.
  function IndexOf(h: string, q: string, from: nat): (r: int)
    ensures r == -1 || Min(from, |h|) <= r <= |h| - |q|
  {
    Scan(h, q, Min(from, |h|))
  }

  lemma {:induction false} ScanIsLeast(h: string, q: string, p: nat)
    ensures Scan(h, q, p) >= 0 ==> At(h, q, Scan(h, q, p))
    ensures forall k :: p <= k && At(h, q, k) ==> 0 <= Scan(h, q, p) <= k
    decreases |h| - p
  {
    if p + |q| <= |h| && !At(h, q, p) { ScanIsLeast(h, q, p + 1); }
  }

  // indexOf finds the least position at or after the start, if there is one.
  lemma IndexOfIsLeast(h: string, q: string, from: nat)
    ensures IndexOf(h, q, from) >= 0 ==> At(h, q, IndexOf(h, q, from))
    ensures forall k :: Min(from, |h|) <= k && At(h, q, k) ==> 0 <= IndexOf(h, q, from) <= k
  {
    ScanIsLeast(h, q, Min(from, |h|));
  }
}
