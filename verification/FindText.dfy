/** word.find_text: the host's hits, each with the paragraph the scan assigns to it. */
module FindText {
  import opened MatchMapping
  import opened Strings
  import WordReplace

  datatype Found = Found(paragraphIndex: nat, occurrence: nat, text: string, snippet: string)

  function FoundAt(limited: seq<string>, ms: seq<Match>, k: nat): Found
    requires k < |ms|
  {
    Found(ms[k].paragraphIndex, ms[k].occurrence, if k < |limited| then limited[k] else ms[k].text, ms[k].snippet)
  }

  method FindText(paragraphs: seq<string>, hits: seq<string>, query: string, matchCase: bool, lower: char -> char,
                  limit: int)
    returns (matches: seq<Found>, truncated: bool, ghost ms: seq<Match>)
    ensures WordReplace.SearchedIn(Job(paragraphs, query, hits[..Kept(limit, |hits|)], matchCase, lower), limit, ms)
    ensures |matches| == |ms| && forall k :: 0 <= k < |ms| ==> matches[k] == FoundAt(hits[..Kept(limit, |hits|)], ms, k)
    ensures truncated <==> |hits| > limit
  {
    var limited := hits[..Kept(limit, |hits|)];
    var metadata, ps := MapMatchesToParagraphs(Job(paragraphs, query, limited, matchCase, lower), limit);
    ms := metadata;
    matches := [];
    for k := 0 to |metadata|
      invariant |matches| == k && forall i :: 0 <= i < k ==> matches[i] == FoundAt(limited, metadata, i)
    {
      matches := matches + [FoundAt(limited, metadata, k)];
    }
    truncated := |hits| > limit;
  }

  ghost predicate Contains(j: Job) {
    exists a: Place :: a.para < |j.paragraphs| && At(j.Folded().hays[a.para], j.Folded().fallback, a.pos)
  }

  // It answers with more matches than the host found exactly when the host found none
  // and the query occurs all the same, as inside a longer word; then it answers with one.
  lemma {:induction false} ReportsMoreExactly(paragraphs: seq<string>, hits: seq<string>, query: string,
                                              matchCase: bool, lower: char -> char, limit: int, ms: seq<Match>)
    requires WordReplace.SearchedIn(Job(paragraphs, query, hits[..Kept(limit, |hits|)], matchCase, lower), limit, ms)
    ensures |ms| > |hits| <==> hits == [] && limit > 0 && Contains(Job(paragraphs, query, [], matchCase, lower))
    ensures |ms| > |hits| ==> |ms| == 1
  {
    var j := Job(paragraphs, query, hits[..Kept(limit, |hits|)], matchCase, lower);
    var ps :| Greedy(j.Folded(), limit, ps) && AllDescribed(j, ps, ms);
    if hits == [] {
      assert hits[..0] == [];
      NoHitsStillMatch(j.Folded(), limit, ps);
    }
  }

  // The hits shown are the first ones up to the limit, whatever the search: as many, each
  // with its own text, when they have places at all.
  lemma {:induction false} ShowsFirstHits(paragraphs: seq<string>, hits: seq<string>, query: string,
                                          matchCase: bool, lower: char -> char, limit: nat, ms: seq<Match>,
                                          ps: seq<Place>)
    requires query != "" && hits != []
    requires Placement(Job(paragraphs, query, hits, matchCase, lower).Folded(), ps) && |ps| == |hits|
    requires WordReplace.SearchedIn(Job(paragraphs, query, hits[..Kept(limit, |hits|)], matchCase, lower), limit, ms)
    ensures |ms| == if limit < |hits| then limit else |hits|
    ensures forall k :: 0 <= k < |ms| ==>
              FoundAt(hits[..Kept(limit, |hits|)], ms, k).text == hits[k] && ms[k].paragraphIndex <= ps[k].para
  {
    var n := Kept(limit, |hits|);
    var whole, j := Job(paragraphs, query, hits, matchCase, lower), Job(paragraphs, query, hits[..n], matchCase, lower);
    var g :| Greedy(j.Folded(), limit, g) && AllDescribed(j, g, ms);
    if limit > 0 {
      CutPlacement(whole, j, ps, n);
      HitsAreMapped(j, limit, g, ps[..n], ms);
    }
  }

  lemma {:induction false} CutPlacement(whole: Job, j: Job, ps: seq<Place>, n: nat)
    requires n <= |whole.ranges| && j == whole.(ranges := whole.ranges[..n])
    requires Placement(whole.Folded(), ps) && |ps| == |whole.ranges|
    ensures Placement(j.Folded(), ps[..n])
  {
    var t, u, qs := whole.Folded(), j.Folded(), ps[..n];
    forall k | 0 <= k < n ensures Occurs(u, k, qs[k]) && (k > 0 ==> FollowsAt(u, qs, k)) {
      assert u.queries[k] == t.queries[k] && (k > 0 ==> u.queries[k - 1] == t.queries[k - 1]);
      assert Occurs(t, k, ps[k]) && (k > 0 ==> FollowsAt(t, ps, k));
    }
  }

  // For a plain search the answer tells of each hit up to the limit, and of no other, the
  // paragraph it stands in, its ordinal there, its text and the text around it.
  lemma {:induction false} MatchesStandAtHits(paragraphs: seq<string>, hits: seq<string>, query: string,
                                              matchCase: bool, lower: char -> char, limit: int, ms: seq<Match>,
                                              ps: seq<Place>, k: nat)
    requires HostFinds(Job(paragraphs, query, hits, matchCase, lower), Body, ps) && hits != []
    requires WordReplace.SearchedIn(Job(paragraphs, query, hits[..Kept(limit, |hits|)], matchCase, lower), limit, ms)
    ensures |ms| == if limit < 0 then 0 else if limit < |hits| then limit else |hits|
    ensures k < |ms| ==>
              var found := FoundAt(hits[..Kept(limit, |hits|)], ms, k);
              && ps[k].para < |paragraphs|
              && var a, text := ps[k], paragraphs[ps[k].para];
                 && found.text == hits[k]
                 && found.paragraphIndex == a.para
                 && found.occurrence == InParagraph(ps[..k + 1], a.para)
                 && a.pos + |query| <= |text| && found.snippet == Around(text, a.pos, |query|)
  {
    var n := Kept(limit, |hits|);
    var whole, j := Job(paragraphs, query, hits, matchCase, lower), Job(paragraphs, query, hits[..n], matchCase, lower);
    var g :| Greedy(j.Folded(), limit, g) && AllDescribed(j, g, ms);
    if limit > 0 {
      FoundTextsArePlain(whole, Body, ps, n);
      BodySearchIsExact(j.Folded(), limit, g, ps);
      if k < |ms| {
        assert StandsAt(paragraphs, hits[k], |query|, ps[k]);
        BodyMatchIsTrue(j, limit, g, ps, ms, k);
      }
    }
  }
}
