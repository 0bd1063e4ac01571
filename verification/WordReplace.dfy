/** word.replace_text: which of the host's hits are replaced, which are skipped,
    and what the dry run reports about it. */
module WordReplace {
  import opened Wrappers
  import opened MatchMapping
  import opened Strings

  // A range proxy of the host; only its text matters here.
  class HostRange {
    var text: string
  }

  datatype Args = Args(find: string, replace: string, matchCase: bool, limit: int, paragraphRange: Option<(int, int)>,
                       selectionOnly: bool, dryRun: bool, validateOnly: bool, partialOk: bool, lower: char -> char)

  datatype Report = Report(paragraphIndex: Option<nat>, occurrence: Option<nat>, text: string, snippet: string)

  datatype Outcome =
    | InvalidArgument
    | Listed(matches: seq<Report>, skipped: nat, validated: bool)
    | Replaced(count: nat, matches: seq<Report>, skipped: nat)

  // ---------------------------------------------------------------- filtering by scope

  function MatchOf(ms: seq<Match>, i: nat): Option<Match> {
    if i < |ms| then Some(ms[i]) else None
  }

  // A hit without a match has a null paragraph index, which compares like 0.
  function ComparedIndex(m: Option<Match>): nat {
    match m case Some(found) => found.paragraphIndex case None => 0
  }

  predicate Admits(scope: Option<(int, int)>, paragraphIndex: int) {
    scope.None? || scope.value.0 <= paragraphIndex <= scope.value.1
  }

  predicate InScope(scope: Option<(int, int)>, m: Option<Match>) {
    Admits(scope, ComparedIndex(m))
  }

  // The hits among the first n that fall in scope, in order.
  function Selected(ms: seq<Match>, scope: Option<(int, int)>, n: nat): (r: seq<nat>)
    ensures |r| <= n
    ensures forall k :: 0 <= k < |r| ==> r[k] < n
  {
    if n == 0 then [] else Selected(ms, scope, n - 1) + (if InScope(scope, MatchOf(ms, n - 1)) then [n - 1] else [])
  }

  // How many of the first n hits fall out of scope.
  function OutOfScope(ms: seq<Match>, scope: Option<(int, int)>, n: nat): nat {
    if n == 0 then 0 else OutOfScope(ms, scope, n - 1) + if InScope(scope, MatchOf(ms, n - 1)) then 0 else 1
  }

  lemma {:induction false} SelectedOrSkipped(ms: seq<Match>, scope: Option<(int, int)>, n: nat)
    ensures |Selected(ms, scope, n)| + OutOfScope(ms, scope, n) == n
  {
    if n > 0 { SelectedOrSkipped(ms, scope, n - 1); }
  }

  method FilterReplaceRanges(ranges: seq<HostRange>, ms: seq<Match>, scope: Option<(int, int)>)
    returns (selected: seq<nat>, skipped: nat)
    ensures selected == Selected(ms, scope, |ranges|)
    ensures skipped == OutOfScope(ms, scope, |ranges|)
  {
    selected, skipped := [], 0;
    for i := 0 to |ranges|
      invariant selected == Selected(ms, scope, i) && skipped == OutOfScope(ms, scope, i)
    {
      if InScope(scope, MatchOf(ms, i)) {
        selected := selected + [i];
      } else {
        skipped := skipped + 1;
      }
    }
  }

  lemma {:induction false} SelectedIsInScope(ms: seq<Match>, scope: Option<(int, int)>, n: nat)
    ensures forall i :: i in Selected(ms, scope, n) <==> 0 <= i < n && InScope(scope, MatchOf(ms, i))
    ensures forall j, k :: 0 <= j < k < |Selected(ms, scope, n)| ==>
              Selected(ms, scope, n)[j] < Selected(ms, scope, n)[k]
  {
    if n > 0 { SelectedIsInScope(ms, scope, n - 1); }
  }

  lemma {:induction false} AllSelected(ms: seq<Match>, scope: Option<(int, int)>, n: nat)
    requires |Selected(ms, scope, n)| == n
    ensures forall i :: 0 <= i < n ==> Selected(ms, scope, n)[i] == i
  {
    if n > 0 { AllSelected(ms, scope, n - 1); }
  }

  // A selected hit is known to lie in the requested paragraphs, for every choice,
  // exactly when no hit is unmapped or the request does not cover paragraph 0.
  lemma ScopeIsKept(ms: seq<Match>, first: int, last: int, n: nat)
    ensures (forall i :: i in Selected(ms, Some((first, last)), n) ==>
               i < |ms| && first <= ms[i].paragraphIndex <= last)
       <==> (n <= |ms| || !(first <= 0 <= last))
  {
    var scope := Some((first, last));
    SelectedIsInScope(ms, scope, n);
    if |ms| < n && first <= 0 <= last { assert |ms| in Selected(ms, scope, n); }
  }

  // ---------------------------------------------------------------- the answer

  function ReportOf(texts: seq<string>, ms: seq<Match>, i: nat): Report
    requires i < |texts|
  {
    match MatchOf(ms, i)
    case Some(m) => Report(Some(m.paragraphIndex), Some(m.occurrence), texts[i], m.snippet)
    case None => Report(None, None, texts[i], texts[i])
  }

  function Reports(texts: seq<string>, ms: seq<Match>, selected: seq<nat>): seq<Report>
    requires forall k :: 0 <= k < |selected| ==> selected[k] < |texts|
  {
    seq(|selected|, k requires 0 <= k < |selected| => ReportOf(texts, ms, selected[k]))
  }

  predicate Refused(args: Args, skipped: nat) {
    !args.partialOk && args.paragraphRange.Some? && skipped > 0
  }

  function SearchJob(paragraphs: seq<string>, texts: seq<string>, args: Args): Job {
    Job(paragraphs, args.find, texts, args.matchCase, args.lower)
  }

  // ms are the matches the scan makes of the hits kept by the limit.
  ghost predicate Searched(paragraphs: seq<string>, texts: seq<string>, args: Args, ms: seq<Match>) {
    SearchedIn(SearchJob(paragraphs, texts[..Kept(args.limit, |texts|)], args), args.limit, ms)
  }

  ghost predicate SearchedIn(j: Job, limit: int, ms: seq<Match>) {
    exists ps :: Greedy(j.Folded(), limit, ps) && AllDescribed(j, ps, ms)
  }

  lemma SearchedOnce(paragraphs: seq<string>, texts: seq<string>, args: Args, ms: seq<Match>, ms': seq<Match>)
    requires Searched(paragraphs, texts, args, ms) && Searched(paragraphs, texts, args, ms')
    ensures ms == ms'
  {
    var j := SearchJob(paragraphs, texts[..Kept(args.limit, |texts|)], args);
    var ps :| Greedy(j.Folded(), args.limit, ps) && AllDescribed(j, ps, ms);
    var qs :| Greedy(j.Folded(), args.limit, qs) && AllDescribed(j, qs, ms');
    GreedyIsUnique(j.Folded(), args.limit, ps, qs);
    forall n | 0 <= n < |ps| ensures ms[n] == ms'[n] {
      assert Describes(j, ps, n, ms[n]) && Describes(j, ps, n, ms'[n]);
    }
  }

  // The hits out of scope and those beyond the limit.
  function Skipped(n: nat, args: Args, ms: seq<Match>): nat {
    OutOfScope(ms, args.paragraphRange, Kept(args.limit, n)) + Max(0, n - Kept(args.limit, n))
  }

  // A hit below the end of slice(0, limit) whose paragraph, 0 for an unmapped one, is in
  // scope.
  predicate IsChosen(args: Args, ms: seq<Match>, n: nat, i: nat) {
    && i < (if args.limit < 0 then n + args.limit else Min(args.limit, n))
    && match args.paragraphRange
       case None => true
       case Some(scope) => scope.0 <= (if i < |ms| then ms[i].paragraphIndex else 0) <= scope.1
  }

  lemma SelectedAreChosen(args: Args, ms: seq<Match>, n: nat)
    ensures forall i: nat :: i in Selected(ms, args.paragraphRange, Kept(args.limit, n)) <==> IsChosen(args, ms, n, i)
  {
    SelectedIsInScope(ms, args.paragraphRange, Kept(args.limit, n));
  }

  // What a call reports: `mutate` tells the real run from the two no-mutation paths.
  function Answer(texts: seq<string>, args: Args, ms: seq<Match>, mutate: bool, validated: bool): Outcome {
    var kept := Kept(args.limit, |texts|);
    var selected := Selected(ms, args.paragraphRange, kept);
    var skipped := Skipped(|texts|, args, ms);
    if Refused(args, skipped) then InvalidArgument
    else if mutate then Replaced(|selected|, Reports(texts[..kept], ms, selected), skipped)
    else Listed(Reports(texts[..kept], ms, selected), skipped, validated)
  }

  // Every hit is replaced, or listed, or counted as skipped, whatever the limit and the
  // scope; a scoped success without partial_ok has skipped none.
  lemma {:induction false} HitsAreConserved(texts: seq<string>, args: Args, ms: seq<Match>, mutate: bool,
                                            validated: bool)
    ensures var r := Answer(texts, args, ms, mutate, validated);
            && (r.Replaced? ==> mutate && r.count + r.skipped == |texts| && |r.matches| == r.count)
            && (r.Listed? ==> !mutate && |r.matches| + r.skipped == |texts|)
            && (!r.InvalidArgument? && args.paragraphRange.Some? && !args.partialOk ==> r.skipped == 0)
  {
    SelectedOrSkipped(ms, args.paragraphRange, Kept(args.limit, |texts|));
  }

  ghost function TextsOf(hits: seq<HostRange>): (r: seq<string>)
    reads hits
    ensures |r| == |hits| && forall i :: 0 <= i < |hits| ==> r[i] == hits[i].text
  {
    seq(|hits|, i requires 0 <= i < |hits| reads hits => hits[i].text)
  }

  method ReadTexts(hits: seq<HostRange>) returns (texts: seq<string>)
    ensures texts == TextsOf(hits)
  {
    texts := [];
    for i := 0 to |hits|
      invariant |texts| == i && forall k :: 0 <= k < i ==> texts[k] == hits[k].text
    {
      texts := texts + [hits[i].text];
    }
  }

  method Search(paragraphs: seq<string>, limited: seq<string>, args: Args) returns (ms: seq<Match>)
    ensures SearchedIn(SearchJob(paragraphs, limited, args), args.limit, ms)
  {
    var found, ps := MapMatchesToParagraphs(SearchJob(paragraphs, limited, args), args.limit);
    ms := found;
  }

  method BuildReports(texts: seq<string>, ms: seq<Match>, selected: seq<nat>) returns (matches: seq<Report>)
    requires forall k :: 0 <= k < |selected| ==> selected[k] < |texts|
    ensures matches == Reports(texts, ms, selected)
  {
    matches := [];
    for k := 0 to |selected|
      invariant |matches| == k && forall i :: 0 <= i < k ==> matches[i] == ReportOf(texts, ms, selected[i])
    {
      matches := matches + [ReportOf(texts, ms, selected[k])];
    }
  }

  method InsertTexts(hits: seq<HostRange>, selected: seq<nat>, replacement: string)
    requires forall i, j :: 0 <= i < j < |hits| ==> hits[i] != hits[j]
    requires forall k :: 0 <= k < |selected| ==> selected[k] < |hits|
    modifies hits
    ensures forall i :: 0 <= i < |hits| ==> hits[i].text == if i in selected then replacement else old(hits[i].text)
  {
    for k := 0 to |selected|
      invariant forall i :: 0 <= i < |hits| ==>
                  hits[i].text == if i in selected[..k] then replacement else old(hits[i].text)
    {
      hits[selected[k]].text := replacement;
      assert selected[..k + 1] == selected[..k] + [selected[k]];
    }
    assert selected[..|selected|] == selected;
  }

  // The part both entry points share: search, filter, count and refuse.
  method Plan(paragraphs: seq<string>, hits: seq<HostRange>, args: Args)
    returns (selected: seq<nat>, skipped: nat, matches: seq<Report>, ghost ms: seq<Match>)
    ensures Searched(paragraphs, TextsOf(hits), args, ms)
    ensures selected == Selected(ms, args.paragraphRange, Kept(args.limit, |hits|))
    ensures skipped == Skipped(|hits|, args, ms)
    ensures matches == Reports(TextsOf(hits)[..Kept(args.limit, |hits|)], ms, selected)
  {
    var limited := hits[..Kept(args.limit, |hits|)];
    var texts := ReadTexts(limited);
    assert texts == TextsOf(hits)[..Kept(args.limit, |hits|)];
    var found := Search(paragraphs, texts, args);
    ms := found;
    selected, skipped := FilterReplaceRanges(limited, found, args.paragraphRange);
    skipped := skipped + Max(0, |hits| - |limited|);
    matches := BuildReports(texts, found, selected);
  }

  method ValidateReplaceTextOnly(paragraphs: seq<string>, hits: seq<HostRange>, args: Args)
    returns (r: Outcome, ghost ms: seq<Match>)
    ensures Searched(paragraphs, TextsOf(hits), args, ms)
    ensures r == Answer(TextsOf(hits), args, ms, false, true)
  {
    var selected, skipped, matches;
    selected, skipped, matches, ms := Plan(paragraphs, hits, args);
    if Refused(args, skipped) { return InvalidArgument, ms; }
    r := Listed(matches, skipped, true);
  }

  method ReplaceText(paragraphs: seq<string>, hits: seq<HostRange>, args: Args)
    returns (r: Outcome, ghost ms: seq<Match>)
    requires forall i, j :: 0 <= i < j < |hits| ==> hits[i] != hits[j]
    modifies hits
    ensures Searched(paragraphs, old(TextsOf(hits)), args, ms)
    ensures r == Answer(old(TextsOf(hits)), args, ms, !args.dryRun && !args.validateOnly, args.validateOnly)
    ensures r.Replaced? ==> r.count + r.skipped == |hits|
    ensures forall i :: 0 <= i < |hits| ==>
              hits[i].text == if r.Replaced? && IsChosen(args, ms, |hits|, i) then args.replace else old(hits[i].text)
  {
    var selected, skipped, matches;
    selected, skipped, matches, ms := Plan(paragraphs, hits, args);
    SelectedAreChosen(args, ms, |hits|);
    if Refused(args, skipped) { return InvalidArgument, ms; }
    if args.dryRun || args.validateOnly { return Listed(matches, skipped, args.validateOnly), ms; }
    r := Replaced(|selected|, matches, skipped);
    SelectedOrSkipped(ms, args.paragraphRange, Kept(args.limit, |hits|));
    InsertTexts(hits, selected, args.replace);
  }

  // ---------------------------------------------------------------- what callers rely on

  lemma AllOrSkipped(args: Args, ms: seq<Match>, n: nat)
    ensures Skipped(n, args, ms) == 0 <==> forall i: nat :: i < n ==> IsChosen(args, ms, n, i)
  {
    var kept := Kept(args.limit, n);
    SelectedAreChosen(args, ms, n);
    SelectedOrSkipped(ms, args.paragraphRange, kept);
    if Skipped(n, args, ms) == 0 {
      assert kept == n;
      AllSelected(ms, args.paragraphRange, n);
      forall i: nat | i < n ensures IsChosen(args, ms, n, i) {
        assert Selected(ms, args.paragraphRange, n)[i] == i;
      }
    } else if forall i: nat :: i < n ==> IsChosen(args, ms, n, i) {
      assert n > 0 && IsChosen(args, ms, n, n - 1);
      forall i | 0 <= i < n ensures InScope(args.paragraphRange, MatchOf(ms, i)) { assert IsChosen(args, ms, n, i); }
      AllInScope(ms, args.paragraphRange, n);
    }
  }

  // When a call is refused, and how many hits it replaces or lists otherwise.
  lemma {:induction false} AnswerIsDecided(texts: seq<string>, args: Args, ms: seq<Match>, mutate: bool,
                                           validated: bool)
    ensures var n, r := |texts|, Answer(texts, args, ms, mutate, validated);
            && (r.InvalidArgument? <==> !args.partialOk && args.paragraphRange.Some?
                                        && exists i: nat :: i < n && !IsChosen(args, ms, n, i))
            && (!r.InvalidArgument? ==> if mutate then r.Replaced? else r.Listed? && r.validated == validated)
            && (!r.InvalidArgument? && args.paragraphRange.None? ==>
                  |r.matches| == if 0 <= args.limit <= n then args.limit
                                 else if -n <= args.limit < 0 then n + args.limit
                                 else if args.limit < 0 then 0 else n)
            && (r.Replaced? ==> r.count == |r.matches|)
  {
    AllOrSkipped(args, ms, |texts|);
    if args.paragraphRange.None? { AllInScope(ms, None, Kept(args.limit, |texts|)); }
  }

  lemma {:induction false} AllInScope(ms: seq<Match>, scope: Option<(int, int)>, n: nat)
    requires forall i :: 0 <= i < n ==> InScope(scope, MatchOf(ms, i))
    ensures |Selected(ms, scope, n)| == n && OutOfScope(ms, scope, n) == 0
  {
    if n > 0 { AllInScope(ms, scope, n - 1); }
  }

  // The validate-only run, the dry run and the real run agree: all refuse, or all
  // report the same matches and skips, and the real run replaces exactly as many.
  lemma RehearsalIsExact(paragraphs: seq<string>, texts: seq<string>, args: Args, ms: seq<Match>, ms': seq<Match>,
                         validated: bool)
    requires Searched(paragraphs, texts, args, ms) && Searched(paragraphs, texts, args, ms')
    ensures var rehearsal, run := Answer(texts, args, ms, false, validated), Answer(texts, args, ms', true, false);
            && rehearsal.InvalidArgument? == run.InvalidArgument?
            && (run.Replaced? ==>
                  rehearsal.matches == run.matches && rehearsal.skipped == run.skipped
                  && |rehearsal.matches| == run.count)
  {
    SearchedOnce(paragraphs, texts, args, ms, ms');
  }

  // Without partial_ok a scoped success replaces every hit the host found.
  lemma ScopedSuccessIsTotal(texts: seq<string>, args: Args, ms: seq<Match>)
    requires Answer(texts, args, ms, true, false).Replaced? && args.paragraphRange.Some? && !args.partialOk
    ensures forall i :: 0 <= i < |texts| ==> i in Selected(ms, args.paragraphRange, Kept(args.limit, |texts|))
  {
    var selected := Selected(ms, args.paragraphRange, Kept(args.limit, |texts|));
    HitsAreConserved(texts, args, ms, true, false);
    AllSelected(ms, args.paragraphRange, |texts|);
    forall i | 0 <= i < |texts| ensures i in selected { assert selected[i] == i; }
  }

  // ---------------------------------------------------------------- whether the scope is kept

  // What the scan is given: the hits kept by the limit.
  function CutJob(paragraphs: seq<string>, texts: seq<string>, args: Args): Job {
    SearchJob(paragraphs, texts[..Kept(args.limit, |texts|)], args)
  }

  // The call replaces, of the hits kept by the limit, exactly those whose places ps lie
  // in scope.
  ghost predicate KeepsScope(args: Args, ms: seq<Match>, ps: seq<Place>) {
    forall i :: 0 <= i < |ps| ==> KeepsScopeAt(args, ms, ps, i)
  }

  ghost predicate KeepsScopeAt(args: Args, ms: seq<Match>, ps: seq<Place>, i: nat)
    requires i < |ps|
  {
    i in Selected(ms, args.paragraphRange, |ps|) <==> Admits(args.paragraphRange, ps[i].para)
  }

  ghost predicate SameScope(args: Args, ls: seq<Place>, ps: seq<Place>)
    requires |ls| == |ps|
  {
    forall i :: 0 <= i < |ps| ==> SameScopeAt(args, ls, ps, i)
  }

  ghost predicate SameScopeAt(args: Args, ls: seq<Place>, ps: seq<Place>, i: nat)
    requires i < |ls| && i < |ps|
  {
    Admits(args.paragraphRange, ls[i].para) <==> Admits(args.paragraphRange, ps[i].para)
  }

  // All hits stand at ls, each as early as in any placement of them all.
  ghost predicate AreLeftmost(t: Texts, ls: seq<Place>) {
    Placement(t, ls) && |ls| == |t.queries| && Leftmost(t, ls)
  }

  // Any search, whole-word and wildcard ones included: the hits replaced are those whose
  // leftmost place lies in scope.
  lemma {:induction false} LeftmostDecides(paragraphs: seq<string>, texts: seq<string>, args: Args, ms: seq<Match>,
                                           ls: seq<Place>)
    requires args.find != "" && args.limit > 0 && Searched(paragraphs, texts, args, ms)
    requires AreLeftmost(CutJob(paragraphs, texts, args).Folded(), ls)
    ensures KeepsScope(args, ms, ls)
  {
    var j := CutJob(paragraphs, texts, args);
    var g :| Greedy(j.Folded(), args.limit, g) && AllDescribed(j, g, ms);
    TextsAreNonEmpty(j);
    if ls != [] { ExactIffLeftmost(j.Folded(), args.limit, g, ls); }
    SelectedIsInScope(ms, args.paragraphRange, |ls|);
    forall i | 0 <= i < |ls| ensures KeepsScopeAt(args, ms, ls, i) {
      assert Describes(j, g, i, ms[i]);
    }
  }

  // So a call keeps its scope exactly when that never differs from where the hits stand.
  lemma {:induction false} ScopeIsKeptExactly(paragraphs: seq<string>, texts: seq<string>, args: Args, ms: seq<Match>,
                                              ls: seq<Place>, ps: seq<Place>)
    requires args.find != "" && args.limit > 0 && Searched(paragraphs, texts, args, ms)
    requires AreLeftmost(CutJob(paragraphs, texts, args).Folded(), ls)
    requires |ps| == |ls|
    ensures KeepsScope(args, ms, ps) <==> SameScope(args, ls, ps)
  {
    LeftmostDecides(paragraphs, texts, args, ms, ls);
    KeptForBothExactly(args, ms, ls, ps);
  }

  lemma {:induction false} KeptForBothExactly(args: Args, ms: seq<Match>, ls: seq<Place>, ps: seq<Place>)
    requires KeepsScope(args, ms, ls) && |ps| == |ls|
    ensures KeepsScope(args, ms, ps) <==> SameScope(args, ls, ps)
  {
    if KeepsScope(args, ms, ps) {
      forall i | 0 <= i < |ps| ensures SameScopeAt(args, ls, ps, i) {
        assert KeepsScopeAt(args, ms, ls, i) && KeepsScopeAt(args, ms, ps, i);
      }
    }
    if SameScope(args, ls, ps) {
      forall i | 0 <= i < |ps| ensures KeepsScopeAt(args, ms, ps, i) {
        assert KeepsScopeAt(args, ms, ls, i) && SameScopeAt(args, ls, ps, i);
      }
    }
  }

  // Hits that have places have leftmost ones: those of the scan.
  lemma {:induction false} LeftmostExists(paragraphs: seq<string>, texts: seq<string>, args: Args, ms: seq<Match>,
                                          ps: seq<Place>)
    returns (ls: seq<Place>)
    requires args.find != "" && args.limit > 0 && Searched(paragraphs, texts, args, ms) && texts != []
    requires var t := CutJob(paragraphs, texts, args).Folded(); Placement(t, ps) && |ps| == |t.queries|
    ensures AreLeftmost(CutJob(paragraphs, texts, args).Folded(), ls)
  {
    var j := CutJob(paragraphs, texts, args);
    ls :| Greedy(j.Folded(), args.limit, ls) && AllDescribed(j, ls, ms);
    TextsAreNonEmpty(j);
    GreedyIsPlacement(j.Folded(), args.limit, ls);
    GreedyIsLeftmost(j.Folded(), args.limit, ls, ps);
    ExactIffLeftmost(j.Folded(), args.limit, ls, ls);
  }

  // ---------------------------------------------------------------- plain searches

  // Where a search looks: in the selection, or in the whole body.
  function RegionOf(args: Args, selection: Region): Region {
    if args.selectionOnly then selection else Body
  }

  // The host's plain search (no whole-word or wildcard option) finds texts at ps.
  ghost predicate Finds(paragraphs: seq<string>, texts: seq<string>, args: Args, selection: Region, ps: seq<Place>) {
    HostFinds(SearchJob(paragraphs, texts, args), RegionOf(args, selection), ps)
  }

  // The leftmost places of a plain search are the first hits of the same search on the
  // whole body, so these decide.
  lemma {:induction false} PlainScopeIsKeptExactly(paragraphs: seq<string>, texts: seq<string>, args: Args,
                                                   selection: Region, ms: seq<Match>,
                                                   ps: seq<Place>, bs: seq<Place>)
    requires Finds(paragraphs, texts, args, selection, ps) && args.limit > 0 && Searched(paragraphs, texts, args, ms)
    requires PlainHits(SearchJob(paragraphs, texts, args).Folded(), Body, bs)
    ensures var n := Kept(args.limit, |texts|);
            n <= |bs| && (KeepsScope(args, ms, ps[..n]) <==> SameScope(args, bs[..n], ps[..n]))
  {
    var n := Kept(args.limit, |texts|);
    if n > 0 {
      var t := CutJob(paragraphs, texts, args).Folded();
      PlainIsLeftmost(paragraphs, texts, args, selection, ms, ps, bs);
      ScopeIsKeptExactly(paragraphs, texts, args, ms, bs[..n], ps[..n]);
    }
  }

  lemma {:induction false} PlainIsLeftmost(paragraphs: seq<string>, texts: seq<string>, args: Args, selection: Region,
                                           ms: seq<Match>, ps: seq<Place>, bs: seq<Place>)
    requires Finds(paragraphs, texts, args, selection, ps) && texts != []
    requires args.limit > 0 && Searched(paragraphs, texts, args, ms)
    requires PlainHits(SearchJob(paragraphs, texts, args).Folded(), Body, bs)
    ensures var n, t := Kept(args.limit, |texts|), CutJob(paragraphs, texts, args).Folded();
            n <= |bs| && Placement(t, bs[..n]) && Leftmost(t, bs[..n])
  {
    var n, region := Kept(args.limit, |texts|), RegionOf(args, selection);
    var whole, j := SearchJob(paragraphs, texts, args), CutJob(paragraphs, texts, args);
    var g :| Greedy(j.Folded(), args.limit, g) && AllDescribed(j, g, ms);
    FoundTextsArePlain(whole, region, ps, n);
    SameHits(whole.Folded(), j.Folded(), Body, bs);
    ScanIsBody(j.Folded(), args.limit, g, region, ps, bs);
    PlainHitsArePlacement(j.Folded(), Body, bs, n);
    TextsAreNonEmpty(j);
    ExactIffLeftmost(j.Folded(), args.limit, g, bs[..n]);
  }

  // Above all the scope is kept when the first hit is the first occurrence in the body ...
  lemma {:induction false} PlainScopeIsExact(paragraphs: seq<string>, texts: seq<string>, args: Args, selection: Region,
                                             ms: seq<Match>, ps: seq<Place>)
    requires Finds(paragraphs, texts, args, selection, ps) && Leading(SearchJob(paragraphs, texts, args).Folded(), ps)
    requires Searched(paragraphs, texts, args, ms) && args.limit > 0
    ensures KeepsScope(args, ms, ps[..Kept(args.limit, |texts|)])
  {
    var n, region := Kept(args.limit, |texts|), RegionOf(args, selection);
    if n > 0 {
      var whole, j := SearchJob(paragraphs, texts, args), CutJob(paragraphs, texts, args);
      var g :| Greedy(j.Folded(), args.limit, g) && AllDescribed(j, g, ms);
      FoundTextsArePlain(whole, region, ps, n);
      FoundTextsArePlain(whole, region, ps, |texts|);
      assert texts[..|texts|] == texts;
      forall b | Occurs(j.Folded(), 0, b) ensures AtOrBefore(ps[0], b) { assert Occurs(whole.Folded(), 0, b); }
      PlainSearchIsExactly(j.Folded(), args.limit, g, region, ps);
      PlainHitsArePlacement(j.Folded(), region, ps, n);
      TextsAreNonEmpty(j);
      ExactIffLeftmost(j.Folded(), args.limit, g, ps[..n]);
      LeftmostDecides(paragraphs, texts, args, ms, ps[..n]);
    }
  }

  // ... as it is for every plain search of the body.
  lemma {:induction false} BodyScopeIsExact(paragraphs: seq<string>, texts: seq<string>, args: Args, selection: Region,
                                            ms: seq<Match>, ps: seq<Place>)
    requires Finds(paragraphs, texts, args, selection, ps) && !args.selectionOnly
    requires Searched(paragraphs, texts, args, ms) && args.limit > 0
    ensures KeepsScope(args, ms, ps[..Kept(args.limit, |texts|)])
  {
    PlainScopeIsKeptExactly(paragraphs, texts, args, selection, ms, ps, ps);
  }

  lemma {:induction false} BodyMatchesAreTrue(paragraphs: seq<string>, texts: seq<string>, args: Args,
                                              selection: Region, ms: seq<Match>, ps: seq<Place>, i: nat)
    requires Finds(paragraphs, texts, args, selection, ps) && !args.selectionOnly
    requires Searched(paragraphs, texts, args, ms) && args.limit > 0 && i < Kept(args.limit, |texts|)
    ensures i < |ms| && i < |ps| && ShowsHit(paragraphs, |args.find|, ms[i], ps, i)
  {
    var n := Kept(args.limit, |texts|);
    var j := CutJob(paragraphs, texts, args);
    var g :| Greedy(j.Folded(), args.limit, g) && AllDescribed(j, g, ms);
    FoundTextsArePlain(SearchJob(paragraphs, texts, args), Body, ps, n);
    BodySearchIsExact(j.Folded(), args.limit, g, ps);
    assert j.ranges[i] == texts[i] && StandsAt(paragraphs, texts[i], |args.find|, ps[i]);
    BodyMatchIsTrue(j, args.limit, g, ps, ms, i);
  }

  lemma ReportIsOf(texts: seq<string>, args: Args, ms: seq<Match>, mutate: bool, validated: bool, k: nat)
    requires var r := Answer(texts, args, ms, mutate, validated); !r.InvalidArgument? && k < |r.matches|
    ensures var chosen := Selected(ms, args.paragraphRange, Kept(args.limit, |texts|));
            && k < |chosen| && chosen[k] < |texts|
            && Answer(texts, args, ms, mutate, validated).matches[k] == ReportOf(texts, ms, chosen[k])
  {}

  // Each match a plain search of the body reports is a replaced or listed hit, in order,
  // with its text, the paragraph it stands in, its ordinal there and the text around it.
  lemma {:induction false} BodyReportsAreTrue(paragraphs: seq<string>, texts: seq<string>, args: Args,
                                              selection: Region, ms: seq<Match>, ps: seq<Place>, mutate: bool,
                                              validated: bool, k: nat)
    requires Finds(paragraphs, texts, args, selection, ps) && !args.selectionOnly
    requires Searched(paragraphs, texts, args, ms) && args.limit > 0
    requires var r := Answer(texts, args, ms, mutate, validated); !r.InvalidArgument? && k < |r.matches|
    ensures var chosen := Selected(ms, args.paragraphRange, Kept(args.limit, |texts|));
            var report := Answer(texts, args, ms, mutate, validated).matches[k];
            && k < |chosen| && chosen[k] < |ps| && ps[chosen[k]].para < |paragraphs|
            && var a, text := ps[chosen[k]], paragraphs[ps[chosen[k]].para];
               && report.text == texts[chosen[k]]
               && report.paragraphIndex == Some(a.para)
               && report.occurrence == Some(InParagraph(ps[..chosen[k] + 1], a.para))
               && a.pos + |args.find| <= |text| && report.snippet == Around(text, a.pos, |args.find|)
  {
    ReportIsOf(texts, args, ms, mutate, validated, k);
    var i := Selected(ms, args.paragraphRange, Kept(args.limit, |texts|))[k];
    BodyMatchesAreTrue(paragraphs, texts, args, selection, ms, ps, i);
  }

  // It is not for every one of a selection. With "a" in two paragraphs and the second one
  // selected, the hit is taken for the first: a call scoped to paragraph 0 succeeds and
  // replaces the text of paragraph 1.
  lemma SelectionEscapesScope(args: Args, ms: seq<Match>)
    requires args.find == "a" && args.matchCase && args.selectionOnly && args.limit > 0
             && args.paragraphRange == Some((0, 0))
    requires Searched(["a", "a"], ["a"], args, ms)
    ensures Finds(["a", "a"], ["a"], args, Selection(Place(1, 0), Place(1, 1)), [Place(1, 0)])
    ensures Answer(["a"], args, ms, true, false).Replaced? && Answer(["a"], args, ms, true, false).count == 1
    ensures !KeepsScope(args, ms, [Place(1, 0)])
  {
    var j := SearchJob(["a", "a"], ["a"], args);
    assert ["a"][..Kept(args.limit, 1)] == ["a"];
    SecondIsFound(j.Folded());
    var g :| Greedy(j.Folded(), args.limit, g) && AllDescribed(j, g, ms);
    FirstIsMapped(j.Folded(), args.limit, g);
    assert Describes(j, g, 0, ms[0]);
    OneInScope(["a"], args, ms);
    assert !KeepsScopeAt(args, ms, [Place(1, 0)], 0);
  }

  lemma OneInScope(texts: seq<string>, args: Args, ms: seq<Match>)
    requires |texts| == 1 && Kept(args.limit, 1) == 1 && InScope(args.paragraphRange, MatchOf(ms, 0))
    ensures Selected(ms, args.paragraphRange, 1) == [0]
    ensures Answer(texts, args, ms, true, false) == Replaced(1, Reports(texts[..1], ms, [0]), 0)
  {
    assert Selected(ms, args.paragraphRange, 0) == [] && OutOfScope(ms, args.paragraphRange, 0) == 0;
    assert Skipped(1, args, ms) == 0;
  }

  lemma SecondIsFound(t: Texts)
    requires t.hays == ["a", "a"] && t.queries == ["a"] && t.fallback == "a"
    ensures PlainHits(t, Selection(Place(1, 0), Place(1, 1)), [Place(1, 0)])
  {
    var region, ps := Selection(Place(1, 0), Place(1, 1)), [Place(1, 0)];
    assert HitAt(t, region, ps, 0);
    forall b | IsHit(t, region, b) ensures IsCovered(t, ps, b) { assert Covers(t, ps[0], b); }
  }

  lemma FirstIsMapped(t: Texts, limit: int, g: seq<Place>)
    requires t.hays == ["a", "a"] && t.queries == ["a"] && t.fallback == "a" && limit > 0 && Greedy(t, limit, g)
    ensures g == [Place(0, 0)]
  {
    assert Occurs(t, 0, Place(0, 0)) && Reaches(t, Place(0, 0), Place(0, 0));
    if g != [] { assert FirstAt(t, g, 0); }
  }

  // A hit no paragraph holds counts as one of paragraph 0. The paragraph marks "^p" finds
  // are part of no paragraph's text: a call scoped to paragraph 0 replaces the mark of
  // paragraph 1 too.
  lemma {:induction false} UnmappedHitEscapesScope(args: Args, ms: seq<Match>)
    requires args.find == "^p" && args.matchCase && args.limit > 1 && args.paragraphRange == Some((0, 0))
    requires Searched(["a", "b"], ["\r", "\r"], args, ms)
    ensures ms == [] && Selected(ms, args.paragraphRange, 2) == [0, 1]
    ensures var r := Answer(["\r", "\r"], args, ms, true, false);
            r == Replaced(2, [Report(None, None, "\r", "\r"), Report(None, None, "\r", "\r")], 0)
  {
    var texts := ["\r", "\r"];
    var j := CutJob(["a", "b"], texts, args);
    assert texts[..Kept(args.limit, 2)] == texts;
    var g: seq<Place> :| Greedy(j.Folded(), args.limit, g) && AllDescribed(j, g, ms);
    assert j.Folded().hays == ["a", "b"] && j.Folded().queries[0] == "\r";
    if g != [] {
      assert FirstAt(j.Folded(), g, 0);
      OtherCharacter(j.Folded().hays[g[0].para], "\r", g[0].pos);
    }
    var scope := args.paragraphRange;
    assert Selected(ms, scope, 0) == [] && Selected(ms, scope, 1) == [0];
    SelectedOrSkipped(ms, scope, 2);
  }

  lemma OtherCharacter(h: string, q: string, p: int)
    requires |h| == |q| == 1 && h != q
    ensures !At(h, q, p)
  {
    AtIsSlice(h, q, p);
    if p == 0 { assert h[p..p + 1] == h; }
  }
}
