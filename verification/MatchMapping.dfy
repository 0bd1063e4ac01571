/** Word search hits arrive as a bare sequence of texts; a two-level greedy scan
    decides which paragraph, and which occurrence in it, each of them is. */
module MatchMapping {
  import opened Strings

  // What the scan compares, case already folded: the paragraphs, the text each hit
  // is looked up by, and the search text itself.
  datatype Texts = Texts(hays: seq<string>, queries: seq<string>, fallback: string) {

    function Query(k: nat): string {
      if k < |queries| then queries[k] else fallback
    }
  }

  datatype Place = Place(para: nat, pos: nat)

  // ---------------------------------------------------------------- what the scan settles on

  ghost predicate Occurs(t: Texts, k: nat, a: Place) {
    a.para < |t.hays| && At(t.hays[a.para], t.Query(k), a.pos)
  }

  ghost predicate AtOrBefore(a: Place, b: Place) {
    a.para < b.para || (a.para == b.para && a.pos <= b.pos)
  }

  // b lies at or after the position c, which counts as the end of its paragraph
  // when it lies beyond it.
  ghost predicate Reaches(t: Texts, c: Place, b: Place) {
    b.para < |t.hays| && (c.para < b.para || (c.para == b.para && Min(c.pos, |t.hays[b.para]|) <= b.pos))
  }

  // Where the search for hit k starts once the first k are placed at ps.
  function Cursor(t: Texts, ps: seq<Place>, k: nat): Place
    requires k <= |ps|
  {
    if k == 0 then Place(0, 0) else Place(ps[k - 1].para, ps[k - 1].pos + Max(1, |t.Query(k - 1)|))
  }

  ghost predicate NoneFrom(t: Texts, k: nat, c: Place) {
    forall b :: Occurs(t, k, b) ==> !Reaches(t, c, b)
  }

  ghost predicate First(t: Texts, k: nat, c: Place, a: Place) {
    Occurs(t, k, a) && Reaches(t, c, a) && forall b :: Occurs(t, k, b) && Reaches(t, c, b) ==> AtOrBefore(a, b)
  }

  ghost predicate FirstAt(t: Texts, ps: seq<Place>, k: nat)
    requires k < |ps|
  {
    First(t, k, Cursor(t, ps, k), ps[k])
  }

  ghost predicate Firsts(t: Texts, ps: seq<Place>) {
    forall k :: 0 <= k < |ps| ==> FirstAt(t, ps, k)
  }

  // Every hit takes the first place after the one before it, until the limit or
  // the hits run out or the next hit occurs nowhere in the rest.
  ghost predicate Greedy(t: Texts, limit: int, ps: seq<Place>) {
    && Firsts(t, ps)
    && |ps| <= Max(limit, 0) && |ps| <= Max(|t.queries|, 1)
    && (|ps| >= limit || (|ps| > 0 && |ps| >= |t.queries|) || NoneFrom(t, |ps|, Cursor(t, ps, |ps|)))
  }

  // ---------------------------------------------------------------- placements

  ghost predicate Follows(t: Texts, k: nat, a: Place, b: Place) {
    a.para < b.para || (a.para == b.para && a.pos + |t.Query(k)| <= b.pos)
  }

  ghost predicate FollowsAt(t: Texts, ps: seq<Place>, k: nat)
    requires 0 < k < |ps|
  {
    Follows(t, k - 1, ps[k - 1], ps[k])
  }

  // The first |ps| hits stand in the document at ps: in order, disjoint, and each
  // where its text really occurs.
  ghost predicate Placement(t: Texts, ps: seq<Place>) {
    && |ps| <= |t.queries|
    && (forall k :: 0 <= k < |ps| ==> Occurs(t, k, ps[k]))
    && (forall k :: 0 < k < |ps| ==> FollowsAt(t, ps, k))
  }

  ghost predicate NonEmptyTexts(t: Texts) {
    forall k :: 0 <= k < |t.queries| ==> t.queries[k] != ""
  }

  // The exchange argument: a scan that has kept at or before the true places so
  // far stands at or before the next one too.
  lemma {:induction false} KeepsUp(t: Texts, g: seq<Place>, ps: seq<Place>, k: nat)
    requires NonEmptyTexts(t) && Firsts(t, g) && Placement(t, ps) && k <= |ps| && k <= |g|
    ensures k < |ps| ==> Occurs(t, k, ps[k]) && Reaches(t, Cursor(t, g, k), ps[k])
    ensures k < |ps| && k < |g| ==> AtOrBefore(g[k], ps[k])
  {
    if k > 0 { KeepsUp(t, g, ps, k - 1); }
    if k < |ps| {
      assert Occurs(t, k, ps[k]) && (k > 0 ==> FollowsAt(t, ps, k));
      if k < |g| { assert FirstAt(t, g, k); }
    }
  }

  // Whatever the true places of the first hits are, the scan maps at least those
  // hits, each at or before its true place.
  lemma GreedyIsLeftmost(t: Texts, limit: int, g: seq<Place>, ps: seq<Place>)
    requires NonEmptyTexts(t) && Greedy(t, limit, g) && Placement(t, ps) && |ps| <= limit
    ensures |g| >= |ps|
    ensures forall k :: 0 <= k < |ps| ==> AtOrBefore(g[k], ps[k])
  {
    if |g| < |ps| { KeepsUp(t, g, ps, |g|); }
    forall k | 0 <= k < |ps| ensures AtOrBefore(g[k], ps[k]) { KeepsUp(t, g, ps, k); }
  }

  lemma GreedyIsPlacement(t: Texts, limit: int, g: seq<Place>)
    requires NonEmptyTexts(t) && t.queries != [] && Greedy(t, limit, g)
    ensures Placement(t, g) && |g| <= Min(Max(limit, 0), |t.queries|)
  {
    forall k | 0 <= k < |g| ensures Occurs(t, k, g[k]) && (k > 0 ==> FollowsAt(t, g, k)) {
      assert FirstAt(t, g, k);
    }
  }

  lemma PlacementPrefix(t: Texts, ps: seq<Place>, m: nat)
    requires Placement(t, ps) && m <= |ps|
    ensures Placement(t, ps[..m])
  {
    var qs := ps[..m];
    forall k | 0 <= k < m ensures Occurs(t, k, qs[k]) && (k > 0 ==> FollowsAt(t, qs, k)) {
      assert Occurs(t, k, ps[k]) && (k > 0 ==> FollowsAt(t, ps, k));
    }
  }

  // The first m hits are mapped exactly when they have places in the document at all.
  lemma MapsWhatCanBePlaced(t: Texts, limit: int, g: seq<Place>, m: nat)
    requires NonEmptyTexts(t) && t.queries != [] && Greedy(t, limit, g) && m <= limit
    ensures |g| >= m <==> exists ps :: Placement(t, ps) && |ps| == m
  {
    GreedyIsPlacement(t, limit, g);
    if |g| >= m {
      PlacementPrefix(t, g, m);
      assert Placement(t, g[..m]) && |g[..m]| == m;
    }
    if ps :| Placement(t, ps) && |ps| == m { GreedyIsLeftmost(t, limit, g, ps); }
  }

  // ---------------------------------------------------------------- how exact the positions are

  lemma {:induction false} FirstsAgree(t: Texts, g: seq<Place>, h: seq<Place>, k: nat)
    requires Firsts(t, g) && Firsts(t, h) && k < |g| && k < |h|
    ensures g[k] == h[k]
  {
    if k > 0 { FirstsAgree(t, g, h, k - 1); }
    assert FirstAt(t, g, k) && FirstAt(t, h, k);
  }

  lemma NoneIsLonger(t: Texts, limit: int, g: seq<Place>, h: seq<Place>)
    requires Greedy(t, limit, g) && Greedy(t, limit, h)
    requires forall k :: 0 <= k < |g| && k < |h| ==> g[k] == h[k]
    ensures |h| <= |g|
  {
    if h != [] {
      var k := Min(|g|, |h| - 1);
      assert FirstAt(t, h, k) && Cursor(t, h, k) == Cursor(t, g, k);
    }
  }

  lemma GreedyIsUnique(t: Texts, limit: int, g: seq<Place>, h: seq<Place>)
    requires Greedy(t, limit, g) && Greedy(t, limit, h)
    ensures g == h
  {
    forall k | 0 <= k < |g| && k < |h| ensures g[k] == h[k] { FirstsAgree(t, g, h, k); }
    NoneIsLonger(t, limit, g, h);
    NoneIsLonger(t, limit, h, g);
  }

  // Another way of placing as many hits.
  ghost predicate IsRival(t: Texts, ps: seq<Place>, qs: seq<Place>) {
    Placement(t, qs) && |qs| == |ps|
  }

  ghost predicate NoneLater(ps: seq<Place>, qs: seq<Place>)
    requires |ps| == |qs|
  {
    forall k :: 0 <= k < |ps| ==> AtOrBefore(ps[k], qs[k])
  }

  ghost predicate Leftmost(t: Texts, ps: seq<Place>) {
    forall qs :: IsRival(t, ps, qs) ==> NoneLater(ps, qs)
  }

  // The scan answers with the true places exactly when no other way of placing
  // the hits puts one of them earlier.
  lemma ExactIffLeftmost(t: Texts, limit: int, g: seq<Place>, ps: seq<Place>)
    requires NonEmptyTexts(t) && t.queries != [] && Greedy(t, limit, g)
    requires Placement(t, ps) && |ps| == |t.queries| <= limit
    ensures g == ps <==> Leftmost(t, ps)
  {
    GreedyIsPlacement(t, limit, g);
    GreedyIsLeftmost(t, limit, g, ps);
    if g == ps {
      forall qs | IsRival(t, ps, qs) ensures NoneLater(ps, qs) { GreedyIsLeftmost(t, limit, g, qs); }
    }
    if Leftmost(t, ps) {
      assert IsRival(t, ps, g);
      forall k | 0 <= k < |ps| ensures g[k] == ps[k] {
        assert AtOrBefore(g[k], ps[k]) && AtOrBefore(ps[k], g[k]);
      }
    }
  }

  // What the host searches: the whole body, or a selection from one place up to another.
  datatype Region = Body | Selection(from: Place, to: Place)

  ghost predicate Within(region: Region, b: Place, length: nat) {
    match region
    case Body => true
    case Selection(from, to) => AtOrBefore(from, b) && AtOrBefore(Place(b.para, b.pos + length), to)
  }

  ghost predicate IsHit(t: Texts, region: Region, b: Place) {
    b.para < |t.hays| && At(t.hays[b.para], t.fallback, b.pos) && Within(region, b, |t.fallback|)
  }

  // b starts inside the hit at a.
  ghost predicate Covers(t: Texts, a: Place, b: Place) {
    a.para == b.para && a.pos <= b.pos < a.pos + |t.fallback|
  }

  ghost predicate IsCovered(t: Texts, ps: seq<Place>, b: Place) {
    exists k :: 0 <= k < |ps| && Covers(t, ps[k], b)
  }

  ghost predicate Behind(t: Texts, a: Place, b: Place) {
    a.para < b.para || (a.para == b.para && a.pos + |t.fallback| <= b.pos)
  }

  ghost predicate HitAt(t: Texts, region: Region, ps: seq<Place>, k: nat)
    requires k < |ps|
  {
    IsHit(t, region, ps[k]) && (k > 0 ==> Behind(t, ps[k - 1], ps[k]))
  }

  // What a plain search of the region (no whole-word or wildcard option) returns: the
  // leftmost occurrences of the search text that do not overlap, paragraph by paragraph.
  ghost predicate PlainHits(t: Texts, region: Region, ps: seq<Place>) {
    && (forall k :: 0 <= k < |ps| ==> HitAt(t, region, ps, k))
    && (forall b :: IsHit(t, region, b) ==> IsCovered(t, ps, b))
  }

  // Every hit is looked up by the search text.
  ghost predicate IsPlain(t: Texts) {
    t.fallback != "" && forall k :: 0 <= k < |t.queries| ==> t.queries[k] == t.fallback
  }

  lemma {:induction false} HitsAscend(t: Texts, region: Region, ps: seq<Place>, j: nat, k: nat)
    requires PlainHits(t, region, ps) && j < k < |ps|
    ensures Behind(t, ps[j], ps[k])
  {
    assert HitAt(t, region, ps, k);
    if j < k - 1 { HitsAscend(t, region, ps, j, k - 1); }
  }

  // The first hit is the first occurrence in the whole body.
  ghost predicate Leading(t: Texts, ps: seq<Place>) {
    forall b :: ps != [] && Occurs(t, 0, b) ==> AtOrBefore(ps[0], b)
  }

  // Occurrences between two hits of a region lie in it.
  lemma RegionIsConvex(region: Region, a: Place, b: Place, c: Place, length: nat)
    requires Within(region, a, length) && Within(region, c, length) && AtOrBefore(a, b) && !AtOrBefore(c, b)
    ensures Within(region, b, length)
  {}

  lemma NextHitIsFirst(t: Texts, region: Region, ps: seq<Place>, k: nat)
    requires IsPlain(t) && PlainHits(t, region, ps) && 0 < k < |ps|
    ensures FirstAt(t, ps, k)
  {
    var c := Cursor(t, ps, k);
    assert HitAt(t, region, ps, k - 1) && HitAt(t, region, ps, k);
    forall b | Occurs(t, k, b) && Reaches(t, c, b) ensures AtOrBefore(ps[k], b) {
      if !AtOrBefore(ps[k], b) {
        RegionIsConvex(region, ps[k - 1], b, ps[k], |t.fallback|);
        assert IsHit(t, region, b);
        NotCovered(t, region, ps, k, b);
      }
    }
  }

  // Nothing between two neighbouring hits is covered by any.
  lemma NotCovered(t: Texts, region: Region, ps: seq<Place>, k: nat, b: Place)
    requires t.fallback != "" && PlainHits(t, region, ps) && 0 < k < |ps|
    requires Behind(t, ps[k - 1], b) && !AtOrBefore(ps[k], b)
    ensures !IsCovered(t, ps, b)
  {
    forall m | 0 <= m < |ps| ensures !Covers(t, ps[m], b) {
      if m < k - 1 { HitsAscend(t, region, ps, m, k - 1); }
      if k < m { HitsAscend(t, region, ps, k, m); }
    }
  }

  lemma LeadingHitsAreFirsts(t: Texts, region: Region, ps: seq<Place>)
    requires IsPlain(t) && PlainHits(t, region, ps)
    ensures Leading(t, ps) <==> Firsts(t, ps)
  {
    forall k | 0 < k < |ps| ensures FirstAt(t, ps, k) { NextHitIsFirst(t, region, ps, k); }
    if ps != [] {
      assert HitAt(t, region, ps, 0);
      assert Cursor(t, ps, 0) == Place(0, 0);
      assert Leading(t, ps) <==> FirstAt(t, ps, 0) by { FirstIsLeading(t, ps); }
    }
  }

  lemma FirstIsLeading(t: Texts, ps: seq<Place>)
    requires ps != [] && Occurs(t, 0, ps[0])
    ensures Leading(t, ps) <==> FirstAt(t, ps, 0)
  {
    forall b | Occurs(t, 0, b) ensures Reaches(t, Place(0, 0), b) {}
  }

  // For a plain search the scan finds the true places of the hits it is given exactly
  // when the first hit is the first occurrence in the body.
  lemma PlainSearchIsExactly(t: Texts, limit: nat, g: seq<Place>, region: Region, ps: seq<Place>)
    requires IsPlain(t) && PlainHits(t, region, ps) && 0 < |t.queries| <= |ps| && limit > 0
    requires Greedy(t, limit, g)
    ensures g == ps[..Min(limit, |t.queries|)] <==> Leading(t, ps)
  {
    LeadingHitsAreFirsts(t, region, ps);
    if Leading(t, ps) { FirstsAreFound(t, limit, g, ps); }
    if g == ps[..Min(limit, |t.queries|)] {
      assert FirstAt(t, g, 0) && g[0] == ps[0];
      FirstIsLeading(t, ps);
    }
  }

  lemma FirstsAreFound(t: Texts, limit: nat, g: seq<Place>, ps: seq<Place>)
    requires Firsts(t, ps) && 0 < |t.queries| <= |ps| && limit > 0 && Greedy(t, limit, g)
    ensures g == ps[..Min(limit, |t.queries|)]
  {
    forall k | 0 <= k < |g| ensures k < |ps| && g[k] == ps[k] { FirstsAgree(t, g, ps, k); }
    var k := Min(|g|, |ps| - 1);
    assert FirstAt(t, ps, k) && Cursor(t, ps, k) == Cursor(t, g, k);
  }

  // A search of the whole body always does.
  lemma BodySearchIsExact(t: Texts, limit: nat, g: seq<Place>, ps: seq<Place>)
    requires IsPlain(t) && PlainHits(t, Body, ps) && 0 < |t.queries| <= |ps| && limit > 0
    requires Greedy(t, limit, g)
    ensures Leading(t, ps) && g == ps[..Min(limit, |t.queries|)]
  {
    BodyHitsLead(t, ps);
    PlainSearchIsExactly(t, limit, g, Body, ps);
  }

  // Whatever region a plain search looked in, the scan answers with the first hits of
  // the same search on the whole body, and there are enough of those.
  lemma ScanIsBody(t: Texts, limit: nat, g: seq<Place>, region: Region, ps: seq<Place>, bs: seq<Place>)
    requires IsPlain(t) && PlainHits(t, region, ps) && PlainHits(t, Body, bs)
    requires 0 < |t.queries| <= |ps| && |t.queries| <= limit && Greedy(t, limit, g)
    ensures |t.queries| <= |bs| && g == bs[..|t.queries|]
  {
    var n := |t.queries|;
    PlainHitsArePlacement(t, region, ps, n);
    PlainIsNonEmpty(t);
    GreedyIsLeftmost(t, limit, g, ps[..n]);
    BodyHitsLead(t, bs);
    LeadingHitsAreFirsts(t, Body, bs);
    EnoughHits(t, g, bs);
    FirstsAreFound(t, limit, g, bs);
  }

  lemma PlainIsNonEmpty(t: Texts)
    requires IsPlain(t)
    ensures NonEmptyTexts(t)
  {}

  lemma PlainHitsArePlacement(t: Texts, region: Region, ps: seq<Place>, n: nat)
    requires IsPlain(t) && PlainHits(t, region, ps) && n <= |t.queries| && n <= |ps|
    ensures Placement(t, ps[..n])
  {
    var qs := ps[..n];
    forall k | 0 <= k < n ensures Occurs(t, k, qs[k]) && (k > 0 ==> FollowsAt(t, qs, k)) {
      assert HitAt(t, region, ps, k);
    }
  }

  // The scan finds no hit the whole-body search does not list.
  lemma EnoughHits(t: Texts, g: seq<Place>, bs: seq<Place>)
    requires IsPlain(t) && PlainHits(t, Body, bs) && Firsts(t, g) && Firsts(t, bs)
    ensures |g| <= |bs|
  {
    if |bs| < |g| {
      var n := |bs|;
      forall k | 0 <= k < n ensures g[k] == bs[k] { FirstsAgree(t, g, bs, k); }
      assert FirstAt(t, g, n);
      assert IsHit(t, Body, g[n]);
      var m :| 0 <= m < n && Covers(t, bs[m], g[n]);
      if m < n - 1 { HitsAscend(t, Body, bs, m, n - 1); }
    }
  }

  lemma BodyHitsLead(t: Texts, ps: seq<Place>)
    requires IsPlain(t) && PlainHits(t, Body, ps)
    ensures Leading(t, ps)
  {
    forall b | ps != [] && Occurs(t, 0, b) ensures AtOrBefore(ps[0], b) {
      assert IsHit(t, Body, b);
      var k :| 0 <= k < |ps| && Covers(t, ps[k], b);
      if k > 0 { HitsAscend(t, Body, ps, 0, k); }
    }
  }

  // A whole-word search can return fewer hits than the text has occurrences: the
  // only whole word "a" is in the second paragraph, and the scan says the first.
  lemma WholeWordIsMisplaced(g: seq<Place>)
    ensures var t := Texts(["ba", "a"], ["a"], "a");
            Placement(t, [Place(1, 0)]) && (Greedy(t, 1, g) ==> g == [Place(0, 1)])
  {
    var t := Texts(["ba", "a"], ["a"], "a");
    assert Occurs(t, 0, Place(1, 0)) && Occurs(t, 0, Place(0, 1));
    if Greedy(t, 1, g) {
      assert |g| == 1 by { assert Reaches(t, Place(0, 0), Place(0, 1)); }
      assert FirstAt(t, g, 0);
      assert Reaches(t, Place(0, 0), Place(0, 1)) && t.hays[0][g[0].pos + 0] == t.Query(0)[0];
    }
  }

  // With no hits at all the scan still reports the first place of the search text:
  // the length check comes only after the first match is made.
  lemma NoHitsStillMatch(t: Texts, limit: int, g: seq<Place>)
    requires t.queries == [] && Greedy(t, limit, g)
    ensures |g| <= 1
    ensures |g| == 1 <==> limit > 0 && exists a: Place :: a.para < |t.hays| && At(t.hays[a.para], t.fallback, a.pos)
  {
    if |g| == 1 { assert FirstAt(t, g, 0); }
    if a: Place :| a.para < |t.hays| && At(t.hays[a.para], t.fallback, a.pos) {
      assert Occurs(t, 0, a) && Reaches(t, Place(0, 0), a);
    }
  }

  // ---------------------------------------------------------------- one call

  // The paragraph texts, the text searched for, and the texts of the hits the
  // host returned. Case folding maps code units one to one.
  datatype Job = Job(paragraphs: seq<string>, find: string, ranges: seq<string>, matchCase: bool, lower: char -> char) {

    function Fold(s: string): (r: string)
      ensures |r| == |s|
    {
      if matchCase then s else Lower(lower, s)
    }

    // The text match k is looked up by; an empty hit falls back to the search text.
    function Wanted(k: nat): string {
      if k < |ranges| && ranges[k] != "" then ranges[k] else find
    }

    function Folded(): (t: Texts)
      ensures |t.hays| == |paragraphs| && forall i :: 0 <= i < |paragraphs| ==> t.hays[i] == Fold(paragraphs[i])
      ensures |t.queries| == |ranges| && forall k :: 0 <= k < |ranges| ==> t.queries[k] == Fold(Wanted(k))
      ensures t.fallback == Fold(find)
    {
      Texts(seq(|paragraphs|, i requires 0 <= i < |paragraphs| => Fold(paragraphs[i])),
            seq(|ranges|, k requires 0 <= k < |ranges| => Fold(Wanted(k))),
            Fold(find))
    }
  }

  lemma TextsAreNonEmpty(j: Job)
    requires j.find != ""
    ensures NonEmptyTexts(j.Folded())
  {}

  // A hit without text is looked up by the search text, as if the host had returned that.
  lemma EmptyHitIsSearchText(j: Job)
    ensures j.Folded() == j.(ranges := seq(|j.ranges|, k requires 0 <= k < |j.ranges| => j.Wanted(k))).Folded()
  {
    var filled := j.(ranges := seq(|j.ranges|, k requires 0 <= k < |j.ranges| => j.Wanted(k)));
    forall k | 0 <= k < |j.ranges| ensures filled.Wanted(k) == j.Wanted(k) {}
    assert j.Folded().hays == filled.Folded().hays && j.Folded().queries == filled.Folded().queries;
  }

  // Where the search text does not stand as such in any paragraph, a hit without text
  // ends the scan: it and all hits after it stay unmapped.
  lemma EmptyHitEndsScan(j: Job, limit: int, g: seq<Place>, k: nat)
    requires k < |j.ranges| && j.ranges[k] == "" && Greedy(j.Folded(), limit, g)
    requires forall a: Place :: a.para < |j.paragraphs| ==> !At(j.Fold(j.paragraphs[a.para]), j.Fold(j.find), a.pos)
    ensures |g| <= k
  {
    if k < |g| {
      assert FirstAt(j.Folded(), g, k);
      FoldedQuery(j, k);
    }
  }

  // A search for any character finds a picture, which has no text, and the "a" behind
  // it; looked up by the search text "^?", neither is mapped.
  lemma EmptyHitHidesTheNext(lower: char -> char, limit: int, g: seq<Place>)
    ensures var j := Job(["a"], "^?", ["", "a"], true, lower);
            Occurs(j.Folded(), 1, Place(0, 0)) && (Greedy(j.Folded(), limit, g) ==> g == [])
  {
    var j := Job(["a"], "^?", ["", "a"], true, lower);
    assert j.Folded().hays[0] == "a" && j.Folded().queries[1] == "a";
    if Greedy(j.Folded(), limit, g) { EmptyHitEndsScan(j, limit, g, 0); }
  }

  datatype Match = Match(paragraphIndex: nat, occurrence: nat, text: string, snippet: string)

  function Shown(text: string, paragraphIndex: nat, occurrence: nat, pos: nat, length: nat): Match
    requires pos + length <= |text|
  {
    Match(paragraphIndex, occurrence, text[pos..pos + length], text[Max(0, pos - 40)..Min(|text|, pos + length + 40)])
  }

  // How many of the places up to and including n share its paragraph, counted
  // back to the last change of paragraph.
  function Occurrence(ps: seq<Place>, n: nat): (r: nat)
    requires n < |ps|
  {
    if n > 0 && ps[n - 1].para == ps[n].para then Occurrence(ps, n - 1) + 1 else 1
  }

  lemma {:induction false} OccurrencePrefix(ps: seq<Place>, q: Place, n: nat)
    requires n < |ps|
    ensures Occurrence(ps + [q], n) == Occurrence(ps, n)
  {
    if n > 0 { OccurrencePrefix(ps, q, n - 1); }
  }

  lemma OccurrenceStep(ps: seq<Place>, q: Place)
    ensures Occurrence(ps + [q], |ps|)
         == if ps != [] && ps[|ps| - 1].para == q.para then Occurrence(ps, |ps| - 1) + 1 else 1
  {
    if ps != [] { OccurrencePrefix(ps, q, |ps| - 1); }
  }

  // Match n names place n: its paragraph, its ordinal there, and the text around it.
  ghost predicate Describes(j: Job, ps: seq<Place>, n: nat, m: Match)
    requires n < |ps|
  {
    var length := |j.Wanted(n)|;
    && ps[n].para < |j.paragraphs|
    && var text := j.paragraphs[ps[n].para];
       var pos := ps[n].pos;
    && pos + length <= |text|
    && m.paragraphIndex == ps[n].para
    && m.occurrence == Occurrence(ps, n)
    && m.text == text[pos..pos + length]
    && m.snippet == text[Max(0, pos - 40)..Min(|text|, pos + length + 40)]
  }

  ghost predicate AllDescribed(j: Job, ps: seq<Place>, ms: seq<Match>) {
    |ms| == |ps| && forall n :: 0 <= n < |ps| ==> Describes(j, ps, n, ms[n])
  }

  // `occurrence` of the matches so far lie in paragraph i, and none beyond it.
  ghost predicate Counted(ps: seq<Place>, i: nat, occurrence: int) {
    if occurrence == 0 then ps != [] ==> ps[|ps| - 1].para < i
    else ps != [] && ps[|ps| - 1].para == i && Occurrence(ps, |ps| - 1) == occurrence
  }

  lemma DescribedStep(j: Job, ps: seq<Place>, ms: seq<Match>, q: Place, m: Match)
    requires AllDescribed(j, ps, ms)
    requires q.para < |j.paragraphs| && q.pos + |j.Wanted(|ps|)| <= |j.paragraphs[q.para]|
    requires m == Shown(j.paragraphs[q.para], q.para, m.occurrence, q.pos, |j.Wanted(|ps|)|)
    requires m.occurrence > 0 && Counted(ps, q.para, m.occurrence - 1)
    ensures AllDescribed(j, ps + [q], ms + [m]) && Counted(ps + [q], q.para, m.occurrence)
  {
    OccurrenceStep(ps, q);
    forall n | 0 <= n < |ps| + 1 ensures Describes(j, ps + [q], n, (ms + [m])[n]) {
      if n < |ps| { OccurrencePrefix(ps, q, n); assert Describes(j, ps, n, ms[n]); }
    }
  }

  function InParagraph(ps: seq<Place>, i: nat): nat {
    if ps == [] then 0 else InParagraph(ps[..|ps| - 1], i) + (if ps[|ps| - 1].para == i then 1 else 0)
  }

  lemma {:induction false} ParagraphsAscend(t: Texts, ps: seq<Place>, a: nat, b: nat)
    requires Placement(t, ps) && a <= b < |ps|
    ensures ps[a].para <= ps[b].para
    decreases b - a
  {
    if a < b {
      ParagraphsAscend(t, ps, a, b - 1);
      assert FollowsAt(t, ps, b);
    }
  }

  lemma {:induction false} OneMoreInParagraph(ps: seq<Place>, n: nat)
    requires n < |ps|
    ensures InParagraph(ps[..n + 1], ps[n].para) == InParagraph(ps[..n], ps[n].para) + 1
  {
    assert ps[..n + 1][..n] == ps[..n];
  }

  lemma {:induction false} FirstOfParagraph(t: Texts, ps: seq<Place>, n: nat)
    requires Placement(t, ps) && n < |ps| && (n > 0 ==> ps[n - 1].para != ps[n].para)
    ensures InParagraph(ps[..n], ps[n].para) == 0
  {
    forall m | 0 <= m < n ensures ps[m].para != ps[n].para {
      ParagraphsAscend(t, ps, m, n - 1);
      ParagraphsAscend(t, ps, n - 1, n);
    }
    NoneInParagraph(ps[..n], ps[n].para);
  }

  // occurrence_in_paragraph is the ordinal of the match among all matches of its paragraph.
  lemma {:induction false} OccurrenceIsOrdinal(t: Texts, ps: seq<Place>, n: nat)
    requires Placement(t, ps) && n < |ps|
    ensures Occurrence(ps, n) == InParagraph(ps[..n + 1], ps[n].para)
  {
    var i := ps[n].para;
    OneMoreInParagraph(ps, n);
    if n > 0 && ps[n - 1].para == i {
      OccurrenceIsOrdinal(t, ps, n - 1);
    } else {
      FirstOfParagraph(t, ps, n);
    }
  }

  lemma {:induction false} NoneInParagraph(ps: seq<Place>, i: nat)
    requires forall m :: 0 <= m < |ps| ==> ps[m].para != i
    ensures InParagraph(ps, i) == 0
  {
    if ps != [] { NoneInParagraph(ps[..|ps| - 1], i); }
  }

  // ---------------------------------------------------------------- the loop

  // Nothing of hit |ps| lies between the last match and position (i, from).
  ghost predicate Swept(t: Texts, ps: seq<Place>, i: nat, from: nat) {
    forall b :: Occurs(t, |ps|, b) && Reaches(t, Cursor(t, ps, |ps|), b) ==> Reaches(t, Place(i, from), b)
  }

  lemma Miss(t: Texts, ps: seq<Place>, i: nat, from: nat)
    requires Swept(t, ps, i, from) && i < |t.hays| && IndexOf(t.hays[i], t.Query(|ps|), from) < 0
    ensures Swept(t, ps, i + 1, 0)
  {
    IndexOfIsLeast(t.hays[i], t.Query(|ps|), from);
    forall b | Occurs(t, |ps|, b) && Reaches(t, Cursor(t, ps, |ps|), b) ensures Reaches(t, Place(i + 1, 0), b) {
      assert Reaches(t, Place(i, from), b);
    }
  }

  lemma HitIsFirst(t: Texts, ps: seq<Place>, i: nat, from: nat, p: nat)
    requires Swept(t, ps, i, from) && i < |t.hays| && IndexOf(t.hays[i], t.Query(|ps|), from) == p
    requires Reaches(t, Cursor(t, ps, |ps|), Place(i, Min(from, |t.hays[i]|)))
    ensures First(t, |ps|, Cursor(t, ps, |ps|), Place(i, p))
  {
    IndexOfIsLeast(t.hays[i], t.Query(|ps|), from);
    var c := Cursor(t, ps, |ps|);
    forall b | Occurs(t, |ps|, b) && Reaches(t, c, b) ensures AtOrBefore(Place(i, p), b) {
      assert Reaches(t, Place(i, from), b);
    }
  }

  lemma FirstsGrow(t: Texts, ps: seq<Place>, a: Place)
    requires Firsts(t, ps) && First(t, |ps|, Cursor(t, ps, |ps|), a)
    ensures Firsts(t, ps + [a])
  {
    forall k | 0 <= k < |ps| + 1 ensures FirstAt(t, ps + [a], k) {
      assert Cursor(t, ps + [a], k) == Cursor(t, ps, k);
      if k < |ps| { assert FirstAt(t, ps, k); }
    }
  }

  lemma SweptAgain(t: Texts, ps: seq<Place>, i: nat, p: nat)
    ensures Swept(t, ps + [Place(i, p)], i, p + Max(1, |t.Query(|ps|)|))
  {
    assert Cursor(t, ps + [Place(i, p)], |ps| + 1) == Place(i, p + Max(1, |t.Query(|ps|)|));
  }

  lemma Hit(t: Texts, ps: seq<Place>, i: nat, from: nat, p: nat)
    requires Firsts(t, ps) && Swept(t, ps, i, from) && i < |t.hays| && IndexOf(t.hays[i], t.Query(|ps|), from) == p
    requires Reaches(t, Cursor(t, ps, |ps|), Place(i, Min(from, |t.hays[i]|)))
    ensures var qs := ps + [Place(i, p)]; Firsts(t, qs) && Swept(t, qs, i, p + Max(1, |t.Query(|ps|)|))
  {
    HitIsFirst(t, ps, i, from, p);
    FirstsGrow(t, ps, Place(i, p));
    SweptAgain(t, ps, i, p);
  }

  // The scan may stop: it has run out of room, of hits or of paragraphs.
  lemma Concluded(t: Texts, limit: int, ps: seq<Place>, i: nat)
    requires Firsts(t, ps) && |ps| <= Max(limit, 0) && |ps| <= Max(|t.queries|, 1)
    requires |ps| >= limit || (ps != [] && |ps| >= |t.queries|) || (i >= |t.hays| && Swept(t, ps, i, 0))
    ensures Greedy(t, limit, ps)
  {}

  lemma FoldedQuery(j: Job, k: nat)
    ensures j.Folded().Query(k) == j.Fold(j.Wanted(k))
  {}

  // The state of the scan at position (i, from) with `occurrence` matches in paragraph i.
  ghost predicate Scanning(j: Job, limit: int, matches: seq<Match>, ps: seq<Place>, i: nat, from: nat,
                           occurrence: nat)
  {
    var t := j.Folded();
    && AllDescribed(j, ps, matches) && Counted(ps, i, occurrence)
    && Firsts(t, ps) && (|ps| >= limit || Swept(t, ps, i, from))
    && (i < |t.hays| ==> Reaches(t, Cursor(t, ps, |ps|), Place(i, Min(from, |t.hays[i]|))))
    && |ps| <= Max(limit, 0) && (ps != [] ==> |ps| < |j.ranges|)
  }

  lemma ScanMiss(j: Job, limit: int, matches: seq<Match>, ps: seq<Place>, i: nat, from: nat, occurrence: nat)
    requires Scanning(j, limit, matches, ps, i, from, occurrence) && i < |j.paragraphs|
    requires |ps| >= limit || IndexOf(j.Fold(j.paragraphs[i]), j.Fold(j.Wanted(|ps|)), from) < 0
    ensures Scanning(j, limit, matches, ps, i + 1, 0, 0)
  {
    FoldedQuery(j, |ps|);
    if |ps| < limit { Miss(j.Folded(), ps, i, from); }
  }

  lemma ScanDone(j: Job, limit: int, matches: seq<Match>, ps: seq<Place>, i: nat)
    requires Scanning(j, limit, matches, ps, i, 0, 0) && (i >= |j.paragraphs| || |ps| >= limit)
    ensures Greedy(j.Folded(), limit, ps) && AllDescribed(j, ps, matches)
  {
    Concluded(j.Folded(), limit, ps, i);
  }

  lemma ScanStart(j: Job, limit: int)
    ensures Scanning(j, limit, [], [], 0, 0, 0)
  {}

  lemma ScanHit(j: Job, limit: int, matches: seq<Match>, ps: seq<Place>, i: nat, from: nat, occurrence: nat, p: nat,
                m: Match)
    requires Scanning(j, limit, matches, ps, i, from, occurrence) && i < |j.paragraphs| && |ps| < limit
    requires IndexOf(j.Fold(j.paragraphs[i]), j.Fold(j.Wanted(|ps|)), from) == p
    requires m == Shown(j.paragraphs[i], i, occurrence + 1, p, |j.Wanted(|ps|)|)
    ensures var qs := ps + [Place(i, p)];
            if |qs| >= |j.ranges| then Greedy(j.Folded(), limit, qs) && AllDescribed(j, qs, matches + [m])
            else Scanning(j, limit, matches + [m], qs, i, p + Max(1, |j.Wanted(|ps|)|), occurrence + 1)
  {
    FoldedQuery(j, |ps|);
    Hit(j.Folded(), ps, i, from, p);
    DescribedStep(j, ps, matches, Place(i, p), m);
    var qs := ps + [Place(i, p)];
    if |qs| >= |j.ranges| { Concluded(j.Folded(), limit, qs, i); }
  }

  // The inner loop: all matches of one paragraph. `full` tells that the hits ran out.
  method ScanParagraph(j: Job, limit: int, before: seq<Match>, i: nat, ghost placed: seq<Place>)
    returns (matches: seq<Match>, full: bool, ghost ps: seq<Place>)
    requires i < |j.paragraphs| && Scanning(j, limit, before, placed, i, 0, 0)
    ensures full ==> Greedy(j.Folded(), limit, ps) && AllDescribed(j, ps, matches)
    ensures !full ==> Scanning(j, limit, matches, ps, i + 1, 0, 0)
  {
    matches, ps := before, placed;
    var text := j.paragraphs[i];
    var haystack := j.Fold(text);
    var from: nat, occurrence: nat := 0, 0;
    while |matches| < limit
      invariant Scanning(j, limit, matches, ps, i, from, occurrence)
      decreases limit - |matches|
    {
      var currentText := j.Wanted(|matches|);
      var currentQuery := j.Fold(currentText);
      var index := IndexOf(haystack, currentQuery, from);
      if index < 0 { break; }
      var m := Shown(text, i, occurrence + 1, index, |currentText|);
      ScanHit(j, limit, matches, ps, i, from, occurrence, index, m);
      occurrence := occurrence + 1;
      matches := matches + [m];
      ps := ps + [Place(i, index)];
      from := index + Max(1, |currentQuery|);
      if |matches| >= |j.ranges| { return matches, true, ps; }
    }
    ScanMiss(j, limit, matches, ps, i, from, occurrence);
    full := false;
  }

  method MapMatchesToParagraphs(j: Job, limit: int) returns (matches: seq<Match>, ghost ps: seq<Place>)
    ensures Greedy(j.Folded(), limit, ps)
    ensures AllDescribed(j, ps, matches)
  {
    matches, ps := [], [];
    var i := 0;
    ScanStart(j, limit);
    while i < |j.paragraphs| && |matches| < limit
      invariant 0 <= i <= |j.paragraphs| && Scanning(j, limit, matches, ps, i, 0, 0)
    {
      var full;
      matches, full, ps := ScanParagraph(j, limit, matches, i, ps);
      if full { return; }
      i := i + 1;
    }
    ScanDone(j, limit, matches, ps, i);
  }

  // When the hits of the host have true places, every one within the limit is
  // mapped, match k shows hit k's own text (up to folded case), and no match lies
  // in a later paragraph than its hit.
  lemma HitsAreMapped(j: Job, limit: nat, g: seq<Place>, ps: seq<Place>, matches: seq<Match>)
    requires j.find != "" && j.ranges != []
    requires Placement(j.Folded(), ps) && |ps| == |j.ranges|
    requires Greedy(j.Folded(), limit, g) && AllDescribed(j, g, matches)
    ensures |matches| == Min(limit, |j.ranges|)
    ensures forall k :: 0 <= k < |matches| ==>
              j.Fold(matches[k].text) == j.Fold(j.Wanted(k)) && matches[k].paragraphIndex <= ps[k].para
  {
    var t, m := j.Folded(), Min(limit, |j.ranges|);
    TextsAreNonEmpty(j);
    PlacementPrefix(t, ps, m);
    GreedyIsLeftmost(t, limit, g, ps[..m]);
    GreedyIsPlacement(t, limit, g);
    forall k | 0 <= k < |matches|
      ensures j.Fold(matches[k].text) == j.Fold(j.Wanted(k)) && matches[k].paragraphIndex <= ps[k].para
    {
      assert AtOrBefore(g[k], ps[..m][k]);
      MatchShowsHit(j, g, k, matches[k]);
    }
  }

  lemma MatchShowsHit(j: Job, g: seq<Place>, k: nat, m: Match)
    requires k < |g| && Describes(j, g, k, m) && Occurs(j.Folded(), k, g[k])
    ensures j.Fold(m.text) == j.Fold(j.Wanted(k))
  {
    FoldedQuery(j, k);
    FoldSlice(j, j.paragraphs[g[k].para], g[k].pos, |j.Wanted(k)|);
  }

  lemma FoldSlice(j: Job, s: string, p: nat, n: nat)
    requires p + n <= |s|
    ensures j.Fold(s[p..p + n]) == j.Fold(s)[p..p + n]
  {}

  // ---------------------------------------------------------------- the host's plain search

  ghost predicate StandsAt(paragraphs: seq<string>, text: string, length: nat, a: Place) {
    a.para < |paragraphs| && a.pos + length <= |paragraphs[a.para]| && text == paragraphs[a.para][a.pos..a.pos + length]
  }

  // The host's plain search finds the hits of j at ps.
  ghost predicate HostFinds(j: Job, region: Region, ps: seq<Place>) {
    && j.find != "" && |ps| == |j.ranges| && PlainHits(j.Folded(), region, ps)
    && forall k :: 0 <= k < |j.ranges| ==> StandsAt(j.paragraphs, j.ranges[k], |j.find|, ps[k])
  }

  // A match and up to forty characters on both sides.
  function Around(text: string, pos: nat, length: nat): string
    requires pos + length <= |text|
  {
    text[(if pos < 40 then 0 else pos - 40)..(if |text| - pos - length < 40 then |text| else pos + length + 40)]
  }

  // The match tells where hit k stands, which one of its paragraph it is, and the text
  // around it.
  ghost predicate ShowsHit(paragraphs: seq<string>, length: nat, m: Match, ps: seq<Place>, k: nat)
    requires k < |ps|
  {
    && ps[k].para < |paragraphs| && ps[k].pos + length <= |paragraphs[ps[k].para]|
    && m.paragraphIndex == ps[k].para
    && m.occurrence == InParagraph(ps[..k + 1], ps[k].para)
    && m.snippet == Around(paragraphs[ps[k].para], ps[k].pos, length)
  }

  lemma {:induction false} DescribedShows(j: Job, g: seq<Place>, ps: seq<Place>, k: nat, m: Match)
    requires k < |g| && k < |ps| && Describes(j, g, k, m) && |j.Wanted(k)| == |j.find|
    requires g[k] == ps[k] && Occurrence(g, k) == InParagraph(ps[..k + 1], ps[k].para)
    ensures ShowsHit(j.paragraphs, |j.find|, m, ps, k)
  {}

  // The matches of a plain body search tell the truth.
  lemma {:induction false} BodyMatchIsTrue(j: Job, limit: nat, g: seq<Place>, ps: seq<Place>, ms: seq<Match>, k: nat)
    requires IsPlain(j.Folded()) && PlainHits(j.Folded(), Body, ps) && 0 < |j.ranges| <= |ps| && limit > 0
    requires Greedy(j.Folded(), limit, g) && AllDescribed(j, g, ms) && k < |ms|
    requires |j.Wanted(k)| == |j.find|
    ensures k < |ps| && ShowsHit(j.paragraphs, |j.find|, ms[k], ps, k)
  {
    assert g == ps[..Min(limit, |j.ranges|)] by { BodySearchIsExact(j.Folded(), limit, g, ps); }
    assert Placement(j.Folded(), g) by {
      TextsAreNonEmpty(j);
      GreedyIsPlacement(j.Folded(), limit, g);
    }
    OccurrenceIsOrdinal(j.Folded(), g, k);
    assert g[..k + 1] == ps[..k + 1];
    DescribedShows(j, g, ps, k, ms[k]);
  }

  // What the scan makes of the first n of them.
  lemma FoundTextsArePlain(j: Job, region: Region, ps: seq<Place>, n: nat)
    requires HostFinds(j, region, ps) && n <= |j.ranges|
    ensures var u := j.(ranges := j.ranges[..n]).Folded(); IsPlain(u) && PlainHits(u, region, ps)
  {
    var t, u := j.Folded(), j.(ranges := j.ranges[..n]).Folded();
    forall k | 0 <= k < n ensures u.queries[k] == u.fallback {
      assert HitAt(t, region, ps, k) && StandsAt(j.paragraphs, j.ranges[k], |j.find|, ps[k]);
      AtIsSlice(t.hays[ps[k].para], t.fallback, ps[k].pos);
      FoldSlice(j, j.paragraphs[ps[k].para], ps[k].pos, |j.find|);
    }
    SameHits(t, u, region, ps);
  }

  lemma SameHits(t: Texts, u: Texts, region: Region, ps: seq<Place>)
    requires t.hays == u.hays && t.fallback == u.fallback && PlainHits(t, region, ps)
    ensures PlainHits(u, region, ps)
  {
    forall k | 0 <= k < |ps| ensures HitAt(u, region, ps, k) { assert HitAt(t, region, ps, k); }
    forall b | IsHit(u, region, b) ensures IsCovered(u, ps, b) {
      assert IsHit(t, region, b);
      var k :| 0 <= k < |ps| && Covers(t, ps[k], b);
      assert Covers(u, ps[k], b);
    }
  }
}
