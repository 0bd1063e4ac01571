/** The Word heading outline: a flat run of headings is turned into a forest by
    a loop over a stack whose nodes are shared with the tree being built. */
module Outline {

  datatype Heading = Heading(text: string, level: int, paragraphIndex: int)

  // A paragraph as the host reports it; `level` is 0 when its style is not a heading style.
  datatype Paragraph = Paragraph(text: string, level: nat)

  datatype Tree = Tree(heading: Heading, children: seq<Tree>)

  // ---------------------------------------------------------------- specification

  // How many headings at the front of s lie strictly below `level`.
  function Span(s: seq<Heading>, level: int): (k: nat)
    ensures k <= |s|
    ensures forall i :: 0 <= i < k ==> s[i].level > level
    ensures k < |s| ==> s[k].level <= level
  {
    if s == [] || s[0].level <= level then 0 else 1 + Span(s[1..], level)
  }

  // The forest a flat heading sequence stands for: each heading owns the
  // longest run of deeper headings that follows it.
  function Nest(s: seq<Heading>): seq<Tree>
    decreases |s|
  {
    if s == [] then []
    else
      var k := Span(s[1..], s[0].level);
      [Tree(s[0], Nest(s[1..][..k]))] + Nest(s[1..][k..])
  }

  function Flatten(f: seq<Tree>): seq<Heading>
    decreases f
  {
    if f == [] then [] else [f[0].heading] + Flatten(f[0].children) + Flatten(f[1..])
  }

  // Children are deeper than their parent, and a later sibling is never deeper
  // than an earlier one.
  ghost predicate WellNested(f: seq<Tree>, above: int)
    decreases f
  {
    && (forall i :: 0 <= i < |f| ==> f[i].heading.level > above && WellNested(f[i].children, f[i].heading.level))
    && (forall i :: 0 < i < |f| ==> f[i - 1].heading.level >= f[i].heading.level)
  }

  // The nearest index at or below j whose level is strictly smaller; -1 if there is none.
  function NearestSmaller(s: seq<Heading>, j: int, level: int): (p: int)
    requires -1 <= j < |s|
    ensures -1 <= p <= j
    ensures p >= 0 ==> s[p].level < level
    ensures forall i :: p < i <= j ==> s[i].level >= level
    decreases j + 1
  {
    if j < 0 then -1 else if s[j].level < level then j else NearestSmaller(s, j - 1, level)
  }

  function Parent(s: seq<Heading>, k: int): (p: int)
    requires 0 <= k < |s|
    ensures -1 <= p < k
    ensures p >= 0 ==> s[p].level < s[k].level
    ensures forall i :: p < i < k ==> s[i].level >= s[k].level
  {
    NearestSmaller(s, k - 1, s[k].level)
  }

  // The indices in [lo, hi) whose parent is p, in order (p = -1 asks for the roots).
  function Kids(s: seq<Heading>, p: int, lo: nat, hi: nat): seq<nat>
    requires lo <= hi <= |s|
    decreases hi
  {
    if hi == lo then []
    else Kids(s, p, lo, hi - 1) + (if Parent(s, hi - 1) == p then [hi - 1] else [])
  }

  // The first index at or after k whose level is at most `level`, or hi.
  function End(s: seq<Heading>, k: nat, hi: nat, level: int): (e: nat)
    requires k <= hi <= |s|
    ensures k <= e <= hi
    ensures forall i :: k <= i < e ==> s[i].level > level
    ensures e < hi ==> s[e].level <= level
    decreases hi - k
  {
    if k == hi || s[k].level <= level then k else End(s, k + 1, hi, level)
  }

  // The sibling starts of the slice [lo, hi).
  function Tops(s: seq<Heading>, lo: nat, hi: nat): seq<nat>
    requires lo <= hi <= |s|
    decreases hi - lo
  {
    if lo == hi then [] else [lo] + Tops(s, End(s, lo + 1, hi, s[lo].level), hi)
  }

  // The parent of every node of f, named by preorder position, when f's own
  // parent sits at position p and its preorder starts at position `at`.
  function Parents(f: seq<Tree>, p: int, at: int): seq<int>
    decreases f
  {
    if f == [] then []
    else [p] + Parents(f[0].children, at, at + 1) + Parents(f[1..], p, at + 1 + |Flatten(f[0].children)|)
  }

  // ---------------------------------------------------------------- flatten and nest are inverse

  lemma {:induction false} FlattenAppend(f: seq<Tree>, g: seq<Tree>)
    ensures Flatten(f + g) == Flatten(f) + Flatten(g)
  {
    if f == [] {
      assert f + g == g;
    } else {
      assert (f + g)[1..] == f[1..] + g;
      FlattenAppend(f[1..], g);
    }
  }

  lemma FlattenCons(t: Tree, f: seq<Tree>)
    ensures Flatten([t] + f) == [t.heading] + Flatten(t.children) + Flatten(f)
  {
    assert ([t] + f)[1..] == f;
  }

  lemma FirstAndRest(s: seq<Heading>, k: nat)
    requires s != [] && k < |s|
    ensures s == [s[0]] + s[1..][..k] + s[1..][k..]
  {}

  lemma FlattenPieces(s: seq<Heading>, a: seq<Heading>, b: seq<Heading>)
    requires s != [] && a == s[1..][..Span(s[1..], s[0].level)] && b == s[1..][Span(s[1..], s[0].level)..]
    requires Flatten(Nest(a)) == a && Flatten(Nest(b)) == b
    ensures Flatten(Nest(s)) == s
  {
    FlattenCons(Tree(s[0], Nest(a)), Nest(b));
    FirstAndRest(s, |a|);
  }

  lemma {:induction false} FlattenNest(s: seq<Heading>)
    ensures Flatten(Nest(s)) == s
    decreases |s|
  {
    if s != [] {
      var k := Span(s[1..], s[0].level);
      FlattenNest(s[1..][..k]);
      FlattenNest(s[1..][k..]);
      FlattenPieces(s, s[1..][..k], s[1..][k..]);
    }
  }

  lemma WellNestedCons(t: Tree, g: seq<Tree>, above: int)
    requires t.heading.level > above && WellNested(t.children, t.heading.level) && WellNested(g, above)
    requires g != [] ==> t.heading.level >= g[0].heading.level
    ensures WellNested([t] + g, above)
  {
    var f := [t] + g;
    forall i | 0 <= i < |f| ensures f[i].heading.level > above && WellNested(f[i].children, f[i].heading.level) {
      if i > 0 { assert f[i] == g[i - 1]; }
    }
    forall i | 0 < i < |f| ensures f[i - 1].heading.level >= f[i].heading.level {
      assert f[i] == g[i - 1];
      if i > 1 { assert f[i - 1] == g[i - 2]; }
    }
  }

  lemma {:induction false} NestIsWellNested(s: seq<Heading>, above: int)
    requires forall i :: 0 <= i < |s| ==> s[i].level > above
    ensures WellNested(Nest(s), above)
    ensures s != [] ==> Nest(s) != [] && Nest(s)[0].heading == s[0]
    decreases |s|
  {
    if s != [] {
      var k := Span(s[1..], s[0].level);
      NestIsWellNested(s[1..][..k], s[0].level);
      NestIsWellNested(s[1..][k..], above);
      WellNestedCons(Tree(s[0], Nest(s[1..][..k])), Nest(s[1..][k..]), above);
    }
  }

  lemma {:induction false} FlattenLevels(f: seq<Tree>, above: int)
    requires WellNested(f, above)
    ensures forall i :: 0 <= i < |Flatten(f)| ==> Flatten(f)[i].level > above
    decreases f
  {
    if f != [] {
      var t := f[0];
      FlattenLevels(t.children, t.heading.level);
      TailIsWellNested(f, above);
      FlattenLevels(f[1..], above);
    }
  }

  lemma TailIsWellNested(f: seq<Tree>, above: int)
    requires WellNested(f, above) && f != []
    ensures WellNested(f[1..], above)
  {
    var g := f[1..];
    assert forall i :: 0 <= i < |g| ==> g[i] == f[i + 1];
    forall i | 0 < i < |g| ensures g[i - 1].heading.level >= g[i].heading.level {
      assert f[(i + 1) - 1].heading.level >= f[i + 1].heading.level;
    }
  }

  lemma {:induction false} SpanOfBlock(a: seq<Heading>, b: seq<Heading>, level: int)
    requires forall i :: 0 <= i < |a| ==> a[i].level > level
    requires b != [] ==> b[0].level <= level
    ensures Span(a + b, level) == |a|
  {
    if a == [] {
      assert a + b == b;
    } else {
      assert (a + b)[1..] == a[1..] + b;
      SpanOfBlock(a[1..], b, level);
    }
  }

  lemma {:induction false} NestBlock(h: Heading, a: seq<Heading>, b: seq<Heading>)
    requires forall i :: 0 <= i < |a| ==> a[i].level > h.level
    requires b != [] ==> b[0].level <= h.level
    ensures Nest([h] + a + b) == [Tree(h, Nest(a))] + Nest(b)
  {
    SpanOfBlock(a, b, h.level);
    var s := [h] + a + b;
    assert s[1..] == a + b && (a + b)[..|a|] == a && (a + b)[|a|..] == b;
  }

  lemma FlattenStart(f: seq<Tree>)
    requires f != []
    ensures Flatten(f) != [] && Flatten(f)[0] == f[0].heading
  {}

  lemma FlattenFirst(f: seq<Tree>)
    requires f != []
    ensures Flatten(f) == [f[0].heading] + Flatten(f[0].children) + Flatten(f[1..])
    ensures f == [Tree(f[0].heading, f[0].children)] + f[1..]
  {
    assert f == [f[0]] + f[1..];
    FlattenCons(f[0], f[1..]);
  }

  lemma {:induction false} NestOfPieces(f: seq<Tree>, a: seq<Heading>, b: seq<Heading>)
    requires f != [] && a == Flatten(f[0].children) && b == Flatten(f[1..])
    requires (forall i :: 0 <= i < |a| ==> a[i].level > f[0].heading.level)
             && (b != [] ==> b[0].level <= f[0].heading.level)
    requires Nest(a) == f[0].children && Nest(b) == f[1..]
    ensures Nest(Flatten(f)) == f
  {
    FlattenFirst(f);
    NestBlock(f[0].heading, a, b);
  }

  lemma {:induction false} NestFlatten(f: seq<Tree>, above: int)
    requires WellNested(f, above)
    ensures Nest(Flatten(f)) == f
    decreases f
  {
    if f != [] {
      FlattenLevels(f[0].children, f[0].heading.level);
      TailIsWellNested(f, above);
      if |f| > 1 {
        FlattenStart(f[1..]);
        assert f[1 - 1].heading.level >= f[1].heading.level;
      }
      NestFlatten(f[0].children, f[0].heading.level);
      NestFlatten(f[1..], above);
      NestOfPieces(f, Flatten(f[0].children), Flatten(f[1..]));
    }
  }

  // The outline is the only well nested forest whose preorder is s.
  lemma {:induction false} OutlineIsUnique(s: seq<Heading>, f: seq<Tree>, above: int)
    requires forall i :: 0 <= i < |s| ==> s[i].level > above
    ensures WellNested(f, above) && Flatten(f) == s <==> f == Nest(s)
  {
    FlattenNest(s);
    NestIsWellNested(s, above);
    if WellNested(f, above) && Flatten(f) == s { NestFlatten(f, above); }
  }

  // ---------------------------------------------------------------- parents

  // Skipping a node of level >= L together with everything between it and its
  // own parent never skips a candidate of level < L: the pop loop's licence.
  lemma {:induction false} SkipToParent(s: seq<Heading>, t: nat, j: int, level: int)
    requires t < |s| && s[t].level >= level && Parent(s, t) <= j <= t
    ensures NearestSmaller(s, j, level) == NearestSmaller(s, Parent(s, t), level)
    decreases j - Parent(s, t)
  {
    if j > Parent(s, t) { SkipToParent(s, t, j - 1, level); }
  }

  lemma {:induction false} NearestSmallerUnique(s: seq<Heading>, j: int, level: int, p: int)
    requires -1 <= p <= j < |s|
    requires p >= 0 ==> s[p].level < level
    requires forall i :: p < i <= j ==> s[i].level >= level
    ensures NearestSmaller(s, j, level) == p
    decreases j - p
  {
    if j > p { NearestSmallerUnique(s, j - 1, level, p); }
  }

  // [lo, hi) is a run of whole subtrees hanging side by side under p.
  ghost predicate Block(s: seq<Heading>, p: int, lo: nat, hi: nat)
  {
    && -1 <= p < lo <= hi <= |s|
    && (p >= 0 ==> forall i :: p < i < hi ==> s[i].level > s[p].level)
    && (lo < hi ==> forall i :: p < i < lo ==> s[i].level >= s[lo].level)
  }

  lemma BlockStep(s: seq<Heading>, p: int, lo: nat, hi: nat)
    requires Block(s, p, lo, hi) && lo < hi
    ensures Parent(s, lo) == p
    ensures var e := End(s, lo + 1, hi, s[lo].level);
            && Block(s, lo, lo + 1, e) && Block(s, p, e, hi)
            && forall c :: lo < c < e ==> Parent(s, c) != p
  {
    NearestSmallerUnique(s, lo - 1, s[lo].level, p);
    var e := End(s, lo + 1, hi, s[lo].level);
    if e < hi {
      forall i | p < i < e ensures s[i].level >= s[e].level {}
    }
  }

  lemma KidsOfOne(s: seq<Heading>, p: int, lo: nat)
    requires lo < |s| && Parent(s, lo) == p
    ensures Kids(s, p, lo, lo + 1) == [lo]
  {}

  lemma KidsOfBlock(s: seq<Heading>, p: int, lo: nat, e: nat, hi: nat)
    requires lo < e <= hi <= |s| && Parent(s, lo) == p && Kids(s, p, lo + 1, e) == []
    ensures Kids(s, p, lo, hi) == [lo] + Kids(s, p, e, hi)
  {
    KidsOfOne(s, p, lo);
    KidsSplit(s, p, lo, lo + 1, e);
    assert [lo] + [] == [lo];
    KidsSplit(s, p, lo, e, hi);
  }

  // Within one sibling block, the children of p are exactly the sibling starts.
  lemma {:induction false} KidsAreTops(s: seq<Heading>, p: int, lo: nat, hi: nat)
    requires Block(s, p, lo, hi)
    ensures Kids(s, p, lo, hi) == Tops(s, lo, hi)
    decreases hi - lo
  {
    if lo < hi {
      BlockStep(s, p, lo, hi);
      var e := End(s, lo + 1, hi, s[lo].level);
      NoKids(s, p, lo + 1, e);
      KidsAreTops(s, p, e, hi);
      KidsOfBlock(s, p, lo, e, hi);
    }
  }

  lemma {:induction false} NoKids(s: seq<Heading>, p: int, lo: nat, hi: nat)
    requires lo <= hi <= |s|
    requires forall c :: lo <= c < hi ==> Parent(s, c) != p
    ensures Kids(s, p, lo, hi) == []
    decreases hi
  {
    if lo < hi { NoKids(s, p, lo, hi - 1); }
  }

  lemma {:induction false} KidsSplit(s: seq<Heading>, p: int, lo: nat, mid: nat, hi: nat)
    requires lo <= mid <= hi <= |s|
    ensures Kids(s, p, lo, hi) == Kids(s, p, lo, mid) + Kids(s, p, mid, hi)
    decreases hi
  {
    if mid < hi { KidsSplit(s, p, lo, mid, hi - 1); }
  }

  // All children of k in the whole sequence are the sibling starts of its own block.
  lemma {:induction false} KidsOf(s: seq<Heading>, k: nat)
    requires k < |s|
    ensures Kids(s, k, 0, |s|) == Tops(s, k + 1, End(s, k + 1, |s|, s[k].level))
  {
    var e := End(s, k + 1, |s|, s[k].level);
    forall c | 0 <= c < k + 1 ensures Parent(s, c) != k {}
    NoKids(s, k, 0, k + 1);
    forall c | e <= c < |s| ensures Parent(s, c) != k {
      // s[e] closes the block of k, so it shields k from everything after it
      assert c == e || Parent(s, c) >= e || s[e].level >= s[c].level;
    }
    NoKids(s, k, e, |s|);
    KidsAreTops(s, k, k + 1, e);
    KidsSplit(s, k, 0, k + 1, |s|);
    KidsSplit(s, k, k + 1, e, |s|);
  }

  lemma SliceSplit(s: seq<Heading>, lo: nat, e: nat, hi: nat)
    requires lo < e <= hi <= |s|
    ensures s[lo..hi] == [s[lo]] + s[lo + 1..e] + s[e..hi]
  {}

  // The recursive forest, unfolded over a slice.
  lemma NestSlice(s: seq<Heading>, lo: nat, hi: nat)
    requires lo < hi <= |s|
    ensures var e := End(s, lo + 1, hi, s[lo].level);
            Nest(s[lo..hi]) == [Tree(s[lo], Nest(s[lo + 1..e]))] + Nest(s[e..hi])
  {
    var e := End(s, lo + 1, hi, s[lo].level);
    SliceSplit(s, lo, e, hi);
    NestBlock(s[lo], s[lo + 1..e], s[e..hi]);
  }

  lemma ParentsCons(t: Tree, f: seq<Tree>, p: int, at: int)
    ensures Parents([t] + f, p, at) 
         == [p] + Parents(t.children, at, at + 1) + Parents(f, p, at + 1 + |Flatten(t.children)|)
  {
    assert ([t] + f)[1..] == f;
  }

  function ParentRange(s: seq<Heading>, lo: nat, hi: nat): (r: seq<int>)
    requires lo <= hi <= |s|
    ensures |r| == hi - lo && forall i :: 0 <= i < |r| ==> r[i] == Parent(s, lo + i)
  {
    seq(hi - lo, i requires 0 <= i < hi - lo => Parent(s, lo + i))
  }

  lemma ParentRangeSplit(s: seq<Heading>, lo: nat, e: nat, hi: nat)
    requires lo < e <= hi <= |s|
    ensures ParentRange(s, lo, hi) == [Parent(s, lo)] + ParentRange(s, lo + 1, e) + ParentRange(s, e, hi)
  {
    var whole := ParentRange(s, lo, hi);
    assert |ParentRange(s, lo + 1, e)| == e - lo - 1 && |ParentRange(s, e, hi)| == hi - e;
    assert whole[0] == Parent(s, lo) && whole[1..e - lo] == ParentRange(s, lo + 1, e)
           && whole[e - lo..] == ParentRange(s, e, hi);
  }

  lemma {:induction false} ParentsGlue(s: seq<Heading>, p: int, lo: nat, e: nat, hi: nat, under: seq<Tree>,
                                       after: seq<Tree>)
    requires lo < e <= hi <= |s| && Parent(s, lo) == p && |Flatten(under)| == e - lo - 1
    requires Parents(under, lo, lo + 1) == ParentRange(s, lo + 1, e)
    requires Parents(after, p, e) == ParentRange(s, e, hi)
    ensures Parents([Tree(s[lo], under)] + after, p, lo) == ParentRange(s, lo, hi)
  {
    ParentRangeSplit(s, lo, e, hi);
    ParentsCons(Tree(s[lo], under), after, p, lo);
  }

  // In the recursive forest every node hangs under the nearest earlier heading
  // of strictly smaller level, or is a root when there is none.
  lemma {:induction false} ParentsAreNearest(s: seq<Heading>, p: int, lo: nat, hi: nat)
    requires Block(s, p, lo, hi)
    ensures Parents(Nest(s[lo..hi]), p, lo) == ParentRange(s, lo, hi)
    decreases hi - lo
  {
    if lo < hi {
      var e := End(s, lo + 1, hi, s[lo].level);
      BlockStep(s, p, lo, hi);
      ParentsAreNearest(s, lo, lo + 1, e);
      ParentsAreNearest(s, p, e, hi);
      NestSlice(s, lo, hi);
      var under, after := Nest(s[lo + 1..e]), Nest(s[e..hi]);
      FlattenNest(s[lo + 1..e]);
      ParentsGlue(s, p, lo, e, hi, under, after);
    }
  }

  lemma NestParents(s: seq<Heading>)
    ensures |Parents(Nest(s), -1, 0)| == |s|
    ensures forall k :: 0 <= k < |s| ==> Parents(Nest(s), -1, 0)[k] == Parent(s, k)
  {
    ParentsAreNearest(s, -1, 0, |s|);
    assert s[0..|s|] == s;
  }

  // ---------------------------------------------------------------- the heap

  class Node {
    const heading: Heading
    var children: seq<Node>

    constructor (heading: Heading)
      ensures this.heading == heading && children == []
    {
      this.heading := heading;
      children := [];
    }
  }

  // r lists the nodes numbered ks.
  ghost predicate Picks(r: seq<Node>, nodes: seq<Node>, ks: seq<nat>) {
    |r| == |ks| && forall i :: 0 <= i < |ks| ==> ks[i] < |nodes| && r[i] == nodes[ks[i]]
  }

  // The objects ns, and everything reachable from them, spell out exactly f.
  ghost predicate Represents(ns: seq<Node>, f: seq<Tree>, footprint: set<Node>)
    reads footprint
    decreases f
  {
    && |ns| == |f|
    && forall i :: 0 <= i < |f| ==>
         ns[i] in footprint && ns[i].heading == f[i].heading && Represents(ns[i].children, f[i].children, footprint)
  }

  // nodes[k] is the copy made of s[k].
  ghost predicate Copies(s: seq<Heading>, nodes: seq<Node>, n: nat) {
    && n <= |s| && |nodes| == n
    && (forall k :: 0 <= k < n ==> nodes[k].heading == s[k])
    && (forall j, k :: 0 <= j < k < n ==> nodes[j] != nodes[k])
  }

  ghost predicate HasKids(s: seq<Heading>, nodes: seq<Node>, n: nat, k: int, children: seq<Node>) {
    n <= |s| && Picks(children, nodes, Kids(s, k, 0, n))
  }

  // The first n copies are linked by parenthood.
  ghost predicate Linked(s: seq<Heading>, nodes: seq<Node>, roots: seq<Node>, n: nat)
    reads nodes
  {
    && Copies(s, nodes, n) && HasKids(s, nodes, n, -1, roots)
    && forall k :: 0 <= k < n ==> HasKids(s, nodes, n, k, nodes[k].children)
  }

  // The stack holds, from the bottom, the chain of ancestors of the last heading.
  ghost predicate IsChain(s: seq<Heading>, chain: seq<nat>, n: nat)
    requires n <= |s|
  {
    && (forall i :: 0 <= i < |chain| ==> chain[i] < n)
    && (forall i :: 0 < i < |chain| ==> Parent(s, chain[i]) == chain[i - 1])
    && (|chain| > 0 ==> Parent(s, chain[0]) == -1)
  }

  // The subtree of k ends within the first hi headings.
  ghost predicate EndsBy(s: seq<Heading>, k: nat, hi: nat) {
    k < hi <= |s| && End(s, k + 1, hi, s[k].level) == End(s, k + 1, |s|, s[k].level)
  }

  // [lo, hi) contains every subtree that starts in it.
  ghost predicate Closed(s: seq<Heading>, lo: nat, hi: nat)
  {
    lo <= hi <= |s| && forall k :: lo <= k < hi ==> EndsBy(s, k, hi)
  }

  lemma ClosedStep(s: seq<Heading>, lo: nat, hi: nat)
    requires Closed(s, lo, hi) && lo < hi
    ensures var e := End(s, lo + 1, hi, s[lo].level); Closed(s, lo + 1, e) && Closed(s, e, hi)
  {
    var e := End(s, lo + 1, hi, s[lo].level);
    forall k | lo + 1 <= k < e ensures EndsBy(s, k, e) { EndsSooner(s, k, e, hi); }
  }

  lemma EndsSooner(s: seq<Heading>, k: nat, e: nat, hi: nat)
    requires EndsBy(s, k, hi) && k < e <= hi && (e < hi ==> s[e].level <= s[k].level)
    ensures EndsBy(s, k, e)
  {
    EndInside(s, k + 1, e, hi, s[k].level);
  }

  ghost predicate InTree(n: Node, t: Tree, footprint: set<Node>)
    reads footprint
  {
    n in footprint && n.heading == t.heading && Represents(n.children, t.children, footprint)
  }

  lemma RepresentsCons(n: Node, ns: seq<Node>, t: Tree, f: seq<Tree>, footprint: set<Node>, ms: seq<Node>, g: seq<Tree>)
    requires InTree(n, t, footprint) && Represents(ns, f, footprint)
    requires ms == [n] + ns && g == [t] + f
    ensures Represents(ms, g, footprint)
  {
    forall i | 0 <= i < |g|
      ensures ms[i] in footprint && ms[i].heading == g[i].heading
              && Represents(ms[i].children, g[i].children, footprint)
    {
      if i > 0 { assert ms[i] == ns[i - 1] && g[i] == f[i - 1]; }
    }
  }

  // In a closed slice the copies of the children of lo, and of what follows its block.
  lemma PicksBelow(s: seq<Heading>, nodes: seq<Node>, children: seq<Node>, lo: nat, hi: nat)
    requires EndsBy(s, lo, hi) && HasKids(s, nodes, |s|, lo, children)
    ensures Picks(children, nodes, Tops(s, lo + 1, End(s, lo + 1, hi, s[lo].level)))
  {
    KidsOf(s, lo);
  }

  lemma PicksBeside(s: seq<Heading>, nodes: seq<Node>, ns: seq<Node>, lo: nat, hi: nat)
    requires lo < hi <= |s| && Picks(ns, nodes, Tops(s, lo, hi))
    ensures lo < |nodes| && ns != [] && ns == [nodes[lo]] + ns[1..]
    ensures Picks(ns[1..], nodes, Tops(s, End(s, lo + 1, hi, s[lo].level), hi))
  {
    PicksTail(ns, nodes, lo, Tops(s, End(s, lo + 1, hi, s[lo].level), hi));
  }

  // The children of the copy of lo are the copies of the block below it ...
  lemma {:induction false} ChildrenRepresent(s: seq<Heading>, nodes: seq<Node>, roots: seq<Node>, children: seq<Node>,
                                             lo: nat, e: nat, hi: nat, footprint: set<Node>)
    requires Linked(s, nodes, roots, |s|) && Closed(s, lo, hi) && lo < hi && e == End(s, lo + 1, hi, s[lo].level)
    requires forall k :: 0 <= k < |nodes| ==> nodes[k] in footprint
    requires HasKids(s, nodes, |s|, lo, children)
    ensures Represents(children, Nest(s[lo + 1..e]), footprint)
    decreases hi - lo, 0
  {
    ClosedStep(s, lo, hi);
    PicksBelow(s, nodes, children, lo, hi);
    LinkedRepresents(s, nodes, roots, children, lo + 1, e, footprint);
  }

  // ... and so the copies of the sibling starts of a slice stand for its forest.
  lemma {:induction false} LinkedRepresents(s: seq<Heading>, nodes: seq<Node>, roots: seq<Node>, ns: seq<Node>,
                                            lo: nat, hi: nat, footprint: set<Node>)
    requires Linked(s, nodes, roots, |s|) && Closed(s, lo, hi) && Picks(ns, nodes, Tops(s, lo, hi))
    requires forall k :: 0 <= k < |nodes| ==> nodes[k] in footprint
    ensures Represents(ns, Nest(s[lo..hi]), footprint)
    decreases hi - lo, 1
  {
    if lo == hi {
      assert Nest(s[lo..hi]) == [];
    } else {
      ClosedStep(s, lo, hi);
      ChildrenRepresent(s, nodes, roots, nodes[lo].children, lo, End(s, lo + 1, hi, s[lo].level), hi, footprint);
      PicksBeside(s, nodes, ns, lo, hi);
      LinkedRepresents(s, nodes, roots, ns[1..], End(s, lo + 1, hi, s[lo].level), hi, footprint);
      RepresentsSlice(s, nodes[lo], ns, lo, hi, footprint);
    }
  }

  lemma RepresentsSlice(s: seq<Heading>, n: Node, ns: seq<Node>, lo: nat, hi: nat, footprint: set<Node>)
    requires lo < hi <= |s| && n in footprint && n.heading == s[lo] && ns != [] && ns == [n] + ns[1..]
    requires var e := End(s, lo + 1, hi, s[lo].level);
             Represents(n.children, Nest(s[lo + 1..e]), footprint) && Represents(ns[1..], Nest(s[e..hi]), footprint)
    ensures Represents(ns, Nest(s[lo..hi]), footprint)
  {
    var e := End(s, lo + 1, hi, s[lo].level);
    NestSlice(s, lo, hi);
    RepresentsCons(n, ns[1..], Tree(s[lo], Nest(s[lo + 1..e])), Nest(s[e..hi]), footprint, ns, Nest(s[lo..hi]));
  }

  lemma PicksTail(r: seq<Node>, nodes: seq<Node>, k: nat, ks: seq<nat>)
    requires Picks(r, nodes, [k] + ks)
    ensures k < |nodes| && |r| == |ks| + 1 && r == [nodes[k]] + r[1..] && Picks(r[1..], nodes, ks)
  {
    forall i | 0 <= i < |ks| ensures ks[i] < |nodes| && r[1..][i] == nodes[ks[i]] { assert ([k] + ks)[i + 1] == ks[i]; }
    assert ([k] + ks)[0] == k;
  }

  // A block that closes inside a wider one closes at the same place.
  lemma {:induction false} EndInside(s: seq<Heading>, k: nat, mid: nat, hi: nat, level: int)
    requires k <= mid <= hi <= |s|
    requires mid < hi ==> s[mid].level <= level
    ensures End(s, k, mid, level) == End(s, k, hi, level)
    decreases mid - k
  {
    if k < mid && s[k].level > level { EndInside(s, k + 1, mid, hi, level); }
  }

  // ---------------------------------------------------------------- the loop

  function Top(chain: seq<nat>): int {
    if chain == [] then -1 else chain[|chain| - 1]
  }

  // Appending the copy of heading n under its parent is what linking n + 1 headings asks for.
  lemma KidsStep(s: seq<Heading>, nodes: seq<Node>, copy: Node, k: int, n: nat, r: seq<Node>)
    requires n < |s| && |nodes| == n && HasKids(s, nodes, n, k, r)
    ensures HasKids(s, nodes + [copy], n + 1, k, r + (if Parent(s, n) == k then [copy] else []))
  {
    assert Kids(s, k, 0, n + 1) == Kids(s, k, 0, n) + (if Parent(s, n) == k then [n] else []);
    PicksMore(r, nodes, copy, Kids(s, k, 0, n), Parent(s, n) == k);
  }

  lemma PicksMore(r: seq<Node>, nodes: seq<Node>, copy: Node, ks: seq<nat>, taken: bool)
    requires Picks(r, nodes, ks)
    ensures Picks(r + (if taken then [copy] else []), nodes + [copy], ks + (if taken then [|nodes|] else []))
  {}

  lemma LastHasNoKids(s: seq<Heading>, nodes: seq<Node>, n: nat)
    requires n < |s|
    ensures HasKids(s, nodes, n + 1, n, [])
  {
    NoKids(s, n, 0, n + 1);
  }

  lemma CopiesStep(s: seq<Heading>, nodes: seq<Node>, n: nat, copy: Node)
    requires n < |s| && Copies(s, nodes, n) && copy !in nodes && copy.heading == s[n]
    ensures Copies(s, nodes + [copy], n + 1)
  {}

  ghost function ChildrenOf(nodes: seq<Node>): (r: seq<seq<Node>>)
    reads nodes
    ensures |r| == |nodes| && forall k :: 0 <= k < |nodes| ==> r[k] == nodes[k].children
  {
    if nodes == [] then [] else ChildrenOf(nodes[..|nodes| - 1]) + [nodes[|nodes| - 1].children]
  }

  // One turn of the loop: the copy of heading i goes to the end of its parent's
  // children, or of the roots, and nothing else changes.
  lemma {:induction false} LinkedStep(s: seq<Heading>, i: nat, nodes: seq<Node>, copy: Node, kids: seq<seq<Node>>,
                                      before: seq<Node>, after: seq<Node>)
    requires i < |s| && Copies(s, nodes, i) && |kids| == i
    requires HasKids(s, nodes, i, -1, before) && forall k :: 0 <= k < i ==> HasKids(s, nodes, i, k, kids[k])
    requires copy !in nodes && copy.heading == s[i] && copy.children == []
    requires forall k :: 0 <= k < i ==> nodes[k].children == kids[k] + (if Parent(s, i) == k then [copy] else [])
    requires after == before + (if Parent(s, i) == -1 then [copy] else [])
    ensures Linked(s, nodes + [copy], after, i + 1)
  {
    var all, n := nodes + [copy], i + 1;
    CopiesStep(s, nodes, i, copy);
    KidsStep(s, nodes, copy, -1, i, before);
    forall k | 0 <= k < n ensures HasKids(s, all, n, k, all[k].children) {
      if k < i {
        KidsStep(s, nodes, copy, k, i, kids[k]);
      } else {
        LastHasNoKids(s, all, i);
      }
    }
  }

  lemma {:induction false} LinkedIsOutline(s: seq<Heading>, nodes: seq<Node>, roots: seq<Node>, footprint: set<Node>)
    requires Linked(s, nodes, roots, |s|) && forall k :: 0 <= k < |nodes| ==> nodes[k] in footprint
    ensures Represents(roots, Nest(s), footprint)
  {
    assert s[0..|s|] == s;
    KidsAreTops(s, -1, 0, |s|);
    LinkedRepresents(s, nodes, roots, roots, 0, |s|, footprint);
  }

  // Popping a node that is not above heading i keeps its parent within reach.
  lemma Popped(s: seq<Heading>, i: nat, chain: seq<nat>)
    requires i < |s| && IsChain(s, chain, i) && chain != [] && s[Top(chain)].level >= s[i].level
    requires NearestSmaller(s, Top(chain), s[i].level) == Parent(s, i)
    ensures var front := chain[..|chain| - 1];
            IsChain(s, front, i) && NearestSmaller(s, Top(front), s[i].level) == Parent(s, i)
  {
    SkipToParent(s, Top(chain), Top(chain), s[i].level);
  }

  lemma PicksFront(r: seq<Node>, nodes: seq<Node>, ks: seq<nat>)
    requires Picks(r, nodes, ks) && ks != []
    ensures Picks(r[..|r| - 1], nodes, ks[..|ks| - 1])
  {}

  // Pops until the top of the stack is the parent of heading i (or the stack is empty).
  method PopDeeper(ghost flat: seq<Heading>, ghost i: nat, ghost nodes: seq<Node>, copy: Node, open: seq<Node>,
                   ghost openChain: seq<nat>)
    returns (stack: seq<Node>, ghost chain: seq<nat>)
    requires i < |flat| && |nodes| == i && (forall k :: 0 <= k < i ==> nodes[k].heading == flat[k])
             && copy.heading == flat[i]
    requires IsChain(flat, openChain, i) && Picks(open, nodes, openChain) && Top(openChain) == i - 1
    ensures IsChain(flat, chain, i) && Picks(stack, nodes, chain) && Top(chain) == Parent(flat, i)
  {
    stack, chain := open, openChain;
    while |stack| > 0 && stack[|stack| - 1].heading.level >= copy.heading.level
      invariant IsChain(flat, chain, i) && Picks(stack, nodes, chain)
      invariant NearestSmaller(flat, Top(chain), flat[i].level) == Parent(flat, i)
    {
      Popped(flat, i, chain);
      PicksFront(stack, nodes, chain);
      stack := stack[..|stack| - 1];
      chain := chain[..|chain| - 1];
    }
  }

  lemma ChainStep(s: seq<Heading>, i: nat, chain: seq<nat>)
    requires i < |s| && IsChain(s, chain, i) && Top(chain) == Parent(s, i)
    ensures IsChain(s, chain + [i], i + 1)
  {}

  // What the proof of the loop remembers beside the two lists the program keeps.
  datatype Ghosts = Ghosts(nodes: seq<Node>, chain: seq<nat>, footprint: set<Node>)

  ghost predicate Inv(s: seq<Heading>, i: nat, stack: seq<Node>, roots: seq<Node>, g: Ghosts)
    reads g.nodes
  {
    && i <= |s|
    && Linked(s, g.nodes, roots, i)
    && (forall k :: 0 <= k < i ==> g.nodes[k] in g.footprint)
    && IsChain(s, g.chain, i)
    && Picks(stack, g.nodes, g.chain)
  }

  lemma InvStart(s: seq<Heading>)
    ensures Inv(s, 0, [], [], Ghosts([], [], {}))
  {}

  lemma Rechained(s: seq<Heading>, i: nat, stack: seq<Node>, roots: seq<Node>, g: Ghosts, popped: seq<Node>,
                  chain: seq<nat>)
    requires Inv(s, i, stack, roots, g) && IsChain(s, chain, i) && Picks(popped, g.nodes, chain)
    ensures Inv(s, i, popped, roots, Ghosts(g.nodes, chain, g.footprint))
  {}

  // Hangs the copy of heading i under the top of the stack, or makes it a root,
  // and pushes it.
  method Attach(ghost flat: seq<Heading>, ghost i: nat, copy: Node, open: seq<Node>, before: seq<Node>, ghost g: Ghosts)
    returns (stack: seq<Node>, roots: seq<Node>, ghost g': Ghosts)
    requires i < |flat| && Inv(flat, i, open, before, g) && Top(g.chain) == Parent(flat, i)
    requires copy !in g.footprint && copy.heading == flat[i] && copy.children == []
    modifies g.footprint
    ensures Inv(flat, i + 1, stack, roots, g') && Top(g'.chain) == i && g'.footprint == g.footprint + {copy}
  {
    ghost var kids := ChildrenOf(g.nodes);
    roots := before;
    if |open| > 0 {
      var top := open[|open| - 1];
      top.children := top.children + [copy];
    } else {
      roots := roots + [copy];
    }
    stack := open + [copy];
    LinkedStep(flat, i, g.nodes, copy, kids, before, roots);
    ChainStep(flat, i, g.chain);
    PicksMore(open, g.nodes, copy, g.chain, true);
    g' := Ghosts(g.nodes + [copy], g.chain + [i], g.footprint + {copy});
  }

  // One turn of the loop.
  method Take(ghost flat: seq<Heading>, ghost i: nat, heading: Heading, stack: seq<Node>, roots: seq<Node>,
              ghost g: Ghosts)
    returns (stack': seq<Node>, roots': seq<Node>, ghost g': Ghosts)
    requires i < |flat| && heading == flat[i] && Inv(flat, i, stack, roots, g) && Top(g.chain) == i - 1
    modifies g.footprint
    ensures Inv(flat, i + 1, stack', roots', g') && Top(g'.chain) == i
    ensures fresh(g'.footprint - g.footprint)
  {
    var copy := new Node(heading);
    var popped; ghost var chain;
    popped, chain := PopDeeper(flat, i, g.nodes, copy, stack, g.chain);
    Rechained(flat, i, stack, roots, g, popped, chain);
    stack', roots', g' := Attach(flat, i, copy, popped, roots, Ghosts(g.nodes, chain, g.footprint));
  }

  method NestOutline(flat: seq<Heading>) returns (roots: seq<Node>, ghost g: Ghosts)
    ensures fresh(g.footprint) && forall k :: 0 <= k < |g.nodes| ==> g.nodes[k] in g.footprint
    ensures Linked(flat, g.nodes, roots, |flat|)
    ensures Represents(roots, Nest(flat), g.footprint)
  {
    roots, g := [], Ghosts([], [], {});
    var stack: seq<Node> := [];
    InvStart(flat);
    for i := 0 to |flat|
      invariant Inv(flat, i, stack, roots, g) && Top(g.chain) == i - 1 && fresh(g.footprint)
    {
      stack, roots, g := Take(flat, i, flat[i], stack, roots, g);
    }
    LinkedIsOutline(flat, g.nodes, roots, g.footprint);
  }

  // ---------------------------------------------------------------- word.get_outline

  // The heading paragraphs down to maxLevel, each with the index of its paragraph.
  function Headings(ps: seq<Paragraph>, maxLevel: int): (r: seq<Heading>)
    ensures forall i :: 0 <= i < |r| ==>
              0 <= r[i].paragraphIndex < |ps| && 0 < r[i].level <= maxLevel
              && Paragraph(r[i].text, r[i].level) == ps[r[i].paragraphIndex]
    ensures forall i, j :: 0 <= i < j < |r| ==> r[i].paragraphIndex < r[j].paragraphIndex
  {
    if ps == [] then []
    else
      var n := |ps| - 1;
      Headings(ps[..n], maxLevel)
      + (if 0 < ps[n].level <= maxLevel then [Heading(ps[n].text, ps[n].level, n)] else [])
  }

  // The headings are the paragraphs of levels 1 to maxLevel, none left out.
  lemma {:induction false} HeadingsExactly(ps: seq<Paragraph>, maxLevel: int)
    ensures forall h :: h in Headings(ps, maxLevel) <==>
              0 <= h.paragraphIndex < |ps| && 0 < h.level <= maxLevel
              && ps[h.paragraphIndex] == Paragraph(h.text, h.level)
  {
    if ps != [] {
      var n := |ps| - 1;
      HeadingsExactly(ps[..n], maxLevel);
    }
  }

  method GetOutline(ps: seq<Paragraph>, maxLevel: int)
    returns (outline: seq<Node>, headings: seq<Heading>, ghost g: Ghosts)
    ensures headings == Headings(ps, maxLevel)
    ensures forall h :: h in headings <==>
              0 <= h.paragraphIndex < |ps| && 0 < h.level <= maxLevel
              && ps[h.paragraphIndex] == Paragraph(h.text, h.level)
    ensures forall j, k :: 0 <= j < k < |headings| ==> headings[j].paragraphIndex < headings[k].paragraphIndex
    ensures fresh(g.footprint) && Represents(outline, Nest(headings), g.footprint)
  {
    headings := [];
    for i := 0 to |ps|
      invariant headings == Headings(ps[..i], maxLevel)
    {
      assert ps[..i + 1][..i] == ps[..i];
      if ps[i].level > 0 && ps[i].level <= maxLevel {
        headings := headings + [Heading(ps[i].text, ps[i].level, i)];
      }
    }
    assert ps[..|ps|] == ps;
    HeadingsExactly(ps, maxLevel);
    outline, g := NestOutline(headings);
  }

  // ---------------------------------------------------------------- limiting the depth

  function Shallow(s: seq<Heading>, maxLevel: int): seq<Heading> {
    if s == [] then [] else (if s[0].level <= maxLevel then [s[0]] else []) + Shallow(s[1..], maxLevel)
  }

  function Prune(f: seq<Tree>, maxLevel: int): seq<Tree>
    decreases f
  {
    if f == [] then []
    else (if f[0].heading.level <= maxLevel then [Tree(f[0].heading, Prune(f[0].children, maxLevel))] else [])
         + Prune(f[1..], maxLevel)
  }

  lemma ShallowCons(h: Heading, s: seq<Heading>, maxLevel: int)
    ensures Shallow([h] + s, maxLevel) == (if h.level <= maxLevel then [h] else []) + Shallow(s, maxLevel)
  {
    assert ([h] + s)[1..] == s;
  }

  lemma {:induction false} ShallowAppend(s: seq<Heading>, t: seq<Heading>, maxLevel: int)
    ensures Shallow(s + t, maxLevel) == Shallow(s, maxLevel) + Shallow(t, maxLevel)
  {
    if s == [] {
      assert s + t == t;
    } else {
      var h, rest := s[0], s[1..];
      assert s == [h] + rest && s + t == [h] + (rest + t);
      ShallowCons(h, rest, maxLevel);
      ShallowCons(h, rest + t, maxLevel);
      ShallowAppend(rest, t, maxLevel);
    }
  }

  lemma ShallowBlock(h: Heading, a: seq<Heading>, b: seq<Heading>, maxLevel: int)
    ensures Shallow([h] + a + b, maxLevel)
         == (if h.level <= maxLevel then [h] else []) + Shallow(a, maxLevel) + Shallow(b, maxLevel)
  {
    ShallowAppend([h] + a, b, maxLevel);
    assert ([h] + a)[1..] == a;
  }

  lemma {:induction false} ShallowNothing(s: seq<Heading>, maxLevel: int)
    requires forall i :: 0 <= i < |s| ==> s[i].level > maxLevel
    ensures Shallow(s, maxLevel) == []
  {
    if s != [] { ShallowNothing(s[1..], maxLevel); }
  }

  lemma {:induction false} FlattenPrune(f: seq<Tree>, maxLevel: int, above: int)
    requires WellNested(f, above)
    ensures Flatten(Prune(f, maxLevel)) == Shallow(Flatten(f), maxLevel)
    decreases f
  {
    if f != [] {
      var t := f[0];
      var a, b := Flatten(t.children), Flatten(f[1..]);
      TailIsWellNested(f, above);
      FlattenPrune(t.children, maxLevel, t.heading.level);
      FlattenPrune(f[1..], maxLevel, above);
      ShallowBlock(t.heading, a, b, maxLevel);
      if t.heading.level <= maxLevel {
        FlattenCons(Tree(t.heading, Prune(t.children, maxLevel)), Prune(f[1..], maxLevel));
      } else {
        FlattenLevels(t.children, t.heading.level);
        ShallowNothing(a, maxLevel);
        assert Prune(f, maxLevel) == Prune(f[1..], maxLevel);
      }
    }
  }

  lemma PruneFirst(f: seq<Tree>, maxLevel: int)
    requires f != []
    ensures Prune(f, maxLevel) ==
            (if f[0].heading.level <= maxLevel then
               [Tree(f[0].heading, Prune(f[0].children, maxLevel))] + Prune(f[1..], maxLevel)
             else Prune(f[1..], maxLevel))
  {}

  lemma {:induction false} PruneIsWellNested(f: seq<Tree>, maxLevel: int, above: int)
    requires WellNested(f, above)
    ensures WellNested(Prune(f, maxLevel), above)
    ensures Prune(f, maxLevel) != [] ==> f != [] && Prune(f, maxLevel)[0].heading.level <= f[0].heading.level
    decreases f
  {
    if f != [] {
      TailIsWellNested(f, above);
      if |f| > 1 { assert f[1 - 1].heading.level >= f[1].heading.level; }
      PruneIsWellNested(f[0].children, maxLevel, f[0].heading.level);
      PruneIsWellNested(f[1..], maxLevel, above);
      PruneFirst(f, maxLevel);
      if f[0].heading.level <= maxLevel {
        WellNestedCons(Tree(f[0].heading, Prune(f[0].children, maxLevel)), Prune(f[1..], maxLevel), above);
      }
    }
  }

  // Dropping the deep headings before nesting gives the full outline with its
  // deep subtrees cut off: max_level never reparents a heading.
  lemma DepthLimitPrunes(s: seq<Heading>, maxLevel: int, above: int)
    requires forall i :: 0 <= i < |s| ==> s[i].level > above
    ensures Nest(Shallow(s, maxLevel)) == Prune(Nest(s), maxLevel)
  {
    NestIsWellNested(s, above);
    FlattenNest(s);
    FlattenPrune(Nest(s), maxLevel, above);
    PruneIsWellNested(Nest(s), maxLevel, above);
    NestFlatten(Prune(Nest(s), maxLevel), above);
  }

  lemma {:induction false} ShallowHeadings(ps: seq<Paragraph>, maxLevel: int, deep: int)
    requires maxLevel <= deep
    ensures Headings(ps, maxLevel) == Shallow(Headings(ps, deep), maxLevel)
  {
    if ps != [] {
      var n := |ps| - 1;
      ShallowHeadings(ps[..n], maxLevel, deep);
      var last := if 0 < ps[n].level <= deep then [Heading(ps[n].text, ps[n].level, n)] else [];
      ShallowAppend(Headings(ps[..n], deep), last, maxLevel);
    }
  }

  // word.get_outline with a smaller max_level answers with the deeper outline, pruned.
  lemma {:induction false} OutlineDepth(ps: seq<Paragraph>, maxLevel: int, deep: int)
    requires maxLevel <= deep
    ensures Nest(Headings(ps, maxLevel)) == Prune(Nest(Headings(ps, deep)), maxLevel)
  {
    ShallowHeadings(ps, maxLevel, deep);
    DepthLimitPrunes(Headings(ps, deep), maxLevel, 0);
  }
}
