/** Connections, runtimes and sessions over every run: which events keep the three in
    step, and what goes wrong after the others. */
module ChannelSessions {
  import opened Wrappers
  import opened Registries
  import opened Channel
  import opened ChannelRuns

  // ---------------------------------------------------------------- being in step

  // The two session tables name the same owner.
  ghost predicate Paired(r: Registry) {
    r.sessions.Keys == r.owner.Keys && forall id :: id in r.sessions ==> r.owner[id] == r.sessions[id].instanceId
  }

  // A runtime holds only sessions of its own.
  ghost predicate HoldsOwn(r: Registry) {
    forall i, id :: r.Holds(i, id) ==> id in r.sessions && r.sessions[id].instanceId == i
  }

  // An active session is held by its runtime.
  ghost predicate ActiveIsHeld(r: Registry) {
    forall id :: id in r.sessions && r.sessions[id].status == Active ==> r.Holds(r.sessions[id].instanceId, id)
  }

  // A connection's instance has a runtime.
  ghost predicate Backed(s: System) {
    forall c :: c in s.links ==> s.links[c].instanceId in s.registry.runtimes
  }

  ghost predicate Orderly(r: Registry) {
    Paired(r) && HoldsOwn(r) && ActiveIsHeld(r)
  }

  ghost predicate InStep(s: System) {
    Orderly(s.registry) && Backed(s)
  }

  // The session named is held by a runtime other than the caller's.
  predicate TakesOver(r: Registry, instance: string, id: string) {
    id in r.owner && r.owner[id] != instance && r.Holds(r.owner[id], id)
  }

  // The caller's runtime holds another session that is still active.
  predicate Abandons(r: Registry, instance: string, id: string) {
    && instance in r.runtimes && r.runtimes[instance].sessionId.Some?
    && var held := r.runtimes[instance].sessionId.value;
       held != id && held in r.sessions && r.sessions[held].status == Active
  }

  // Another connection speaks for the same instance.
  ghost predicate IsShared(links: map<string, Link>, c: string) {
    c in links && exists d :: d in links && d != c && links[d].instanceId == links[c].instanceId
  }

  ghost predicate Breaks(s: System, e: Event) {
    || (AddsSession(s, e)
        && (TakesOver(s.registry, e.instance, e.session) || Abandons(s.registry, e.instance, e.session)))
    || (e.RemoveConnection? && IsShared(s.links, e.connection))
  }

  // ---------------------------------------------------------------- one event

  lemma MarkKeepsOrder(r: Registry, i: string, since: int)
    requires Orderly(r)
    ensures Orderly(r.MarkInstance(i, since))
    ensures r.MarkInstance(i, since).runtimes == r.runtimes
    ensures forall id :: id in r.MarkInstance(i, since).sessions && r.sessions[id].instanceId == i ==>
              r.MarkInstance(i, since).sessions[id].status == Stale
  {
    var after := r.MarkInstance(i, since);
    forall id | id in r.sessions && r.sessions[id].instanceId == i ensures after.sessions[id].status == Stale {
      if r.sessions[id].status == Active { assert r.Holds(i, id); }
    }
    forall j, id | after.Holds(j, id) ensures id in after.sessions && after.sessions[id].instanceId == j {
      assert r.Holds(j, id);
    }
    forall id | id in after.sessions && after.sessions[id].status == Active
      ensures after.Holds(after.sessions[id].instanceId, id)
    {
      assert r.Holds(r.sessions[id].instanceId, id);
    }
  }

  // With its sessions stale, a runtime may be replaced or dropped.
  lemma SwapKeepsOrder(r: Registry, i: string, runtimes: map<string, Runtime>)
    requires Orderly(r)
    requires forall id :: id in r.sessions && r.sessions[id].instanceId == i ==> r.sessions[id].status == Stale
    requires forall j :: j != i ==>
               (j in runtimes <==> j in r.runtimes) && (j in runtimes ==> runtimes[j] == r.runtimes[j])
    requires i in runtimes ==> runtimes[i].sessionId == None
    ensures Orderly(r.(runtimes := runtimes))
  {
    var after := r.(runtimes := runtimes);
    forall j, id | after.Holds(j, id)
      ensures id in after.sessions && after.sessions[id].instanceId == j
    {
      assert r.Holds(j, id);
    }
    forall id | id in after.sessions && after.sessions[id].status == Active
      ensures after.Holds(after.sessions[id].instanceId, id)
    {
      assert r.Holds(r.sessions[id].instanceId, id);
    }
  }

  lemma AddKeepsOrderExactly(r: Registry, i: string, id: string, tools: seq<string>)
    requires Orderly(r) && i in r.runtimes
    ensures Orderly(r.AddSession(id, i, tools)) <==> !TakesOver(r, i, id) && !Abandons(r, i, id)
  {
    var after := r.AddSession(id, i, tools);
    assert Paired(after);
    if TakesOver(r, i, id) { assert after.Holds(r.owner[id], id); }
    if Abandons(r, i, id) {
      var held := r.runtimes[i].sessionId.value;
      assert r.Holds(i, held) && held in after.sessions && !after.Holds(i, held);
    }
    if !TakesOver(r, i, id) && !Abandons(r, i, id) {
      forall j, k | after.Holds(j, k) ensures k in after.sessions && after.sessions[k].instanceId == j {
        if j != i { assert r.Holds(j, k); }
      }
      forall k | k in after.sessions && after.sessions[k].status == Active
        ensures after.Holds(after.sessions[k].instanceId, k)
      {
        if k != id { assert r.Holds(r.sessions[k].instanceId, k); }
      }
    }
  }

  lemma RemoveKeepsOrder(r: Registry, id: string)
    requires Orderly(r)
    ensures Orderly(r.RemoveSession(id)) && r.RemoveSession(id).runtimes.Keys == r.runtimes.Keys
  {
    var after := r.RemoveSession(id);
    forall j, k | after.Holds(j, k)
      ensures k in after.sessions && after.sessions[k].instanceId == j
    {
      assert r.Holds(j, k);
    }
    forall k | k in after.sessions && after.sessions[k].status == Active
      ensures after.Holds(after.sessions[k].instanceId, k)
    {
      assert r.Holds(r.sessions[k].instanceId, k);
    }
  }

  lemma PruneKeepsOrder(r: Registry, now: int, grace: nat)
    requires Orderly(r)
    ensures Orderly(r.Prune(now, grace)) && r.Prune(now, grace).runtimes.Keys == r.runtimes.Keys
  {
    var after := r.Prune(now, grace);
    forall j, k | after.Holds(j, k)
      ensures k in after.sessions && after.sessions[k].instanceId == j
    {
      assert r.Holds(j, k);
    }
    forall k | k in after.sessions && after.sessions[k].status == Active
      ensures after.Holds(after.sessions[k].instanceId, k)
    {
      assert r.Holds(r.sessions[k].instanceId, k);
    }
  }

  lemma UpdateKeepsOrder(r: Registry, id: string, patch: Option<seq<string>>)
    requires Orderly(r)
    ensures Orderly(r.UpdateSession(id, patch)) && r.UpdateSession(id, patch).runtimes == r.runtimes
  {
    var after := r.UpdateSession(id, patch);
    forall j, k | after.Holds(j, k)
      ensures k in after.sessions && after.sessions[k].instanceId == j
    {
      assert r.Holds(j, k);
    }
    forall k | k in after.sessions && after.sessions[k].status == Active
      ensures after.Holds(after.sessions[k].instanceId, k)
    {
      assert r.Holds(r.sessions[k].instanceId, k);
    }
  }

  lemma RegisterKeepsOrder(r: Registry, i: string, now: int)
    requires Orderly(r)
    ensures Orderly(r.RegisterRuntime(i, now)) && r.RegisterRuntime(i, now).runtimes.Keys == r.runtimes.Keys + {i}
  {
    MarkKeepsOrder(r, i, now);
    SwapKeepsOrder(r.MarkInstance(i, now), i, r.runtimes[i := Runtime(None, true, 0)]);
  }

  lemma DropKeepsOrder(r: Registry, i: string, since: int)
    requires Orderly(r)
    ensures Orderly(r.RemoveRuntime(i, since)) && r.RemoveRuntime(i, since).runtimes.Keys == r.runtimes.Keys - {i}
  {
    if i in r.runtimes {
      MarkKeepsOrder(r, i, since);
      SwapKeepsOrder(r.MarkInstance(i, since), i, r.runtimes - {i});
    }
  }

  lemma BackedIsKeptExactly(s: System, c: string, since: int)
    requires Backed(s) && c in s.links
    ensures Backed(Step(s, RemoveConnection(c, since))) <==> !IsShared(s.links, c)
  {
    var after := Step(s, RemoveConnection(c, since));
    if IsShared(s.links, c) {
      var d :| d in s.links && d != c && s.links[d].instanceId == s.links[c].instanceId;
      assert d in after.links && after.links[d].instanceId !in after.registry.runtimes;
    } else {
      forall d | d in after.links ensures after.links[d].instanceId in after.registry.runtimes {
        assert d in s.links && d != c;
      }
    }
  }

  // An event keeps connections, runtimes and sessions in step exactly when it is not
  // a takeover, an abandonment, or the removal of a connection whose instance
  // another connection speaks for.
  lemma InStepIsKeptExactly(s: System, e: Event)
    requires InStep(s)
    ensures InStep(Step(s, e)) <==> !Breaks(s, e)
  {
    match e
    case Register(_, _, instance, now) => RegisterKeepsOrder(s.registry, instance, now);
    case AddSession(c, instance, id, tools) =>
      if AddsSession(s, e) { AddKeepsOrderExactly(s.registry, instance, id, tools); }
    case UpdateSession(id, patch) => UpdateKeepsOrder(s.registry, id, patch);
    case RemoveSession(id) => RemoveKeepsOrder(s.registry, id);
    case RemoveConnection(c, since) =>
      if c in s.links {
        DropKeepsOrder(s.registry, s.links[c].instanceId, since);
        BackedIsKeptExactly(s, c, since);
      }
    case StartPing(_) =>
    case Pong(_, _) =>
    case Timeout(c, since) => if c in s.links { MarkKeepsOrder(s.registry, s.links[c].instanceId, since); }
    case Prune(now, grace) => PruneKeepsOrder(s.registry, now, grace);
  }

  ghost predicate NeverBreaks(es: seq<Event>) {
    forall n :: 0 <= n < |es| ==> !Breaks(After(es[..n]), es[n])
  }

  lemma {:induction false} RunsStayInStep(es: seq<Event>)
    requires NeverBreaks(es)
    ensures InStep(After(es))
  {
    if es != [] {
      var front := es[..|es| - 1];
      forall n | 0 <= n < |front| ensures !Breaks(After(front[..n]), front[n]) { assert front[..n] == es[..n]; }
      RunsStayInStep(front);
      InStepIsKeptExactly(After(front), es[|es| - 1]);
    }
  }

  // ---------------------------------------------------------------- what being in step gives

  // No session of the instance is active.
  ghost predicate Silent(r: Registry, i: string) {
    Paired(r) && forall id :: id in r.sessions && r.sessions[id].instanceId == i ==> r.sessions[id].status == Stale
  }

  lemma SilentStays(s: System, e: Event, i: string)
    requires Silent(s.registry, i) && !(e.AddSession? && e.instance == i)
    ensures Silent(Step(s, e).registry, i)
  {}

  lemma {:induction false} SilentRuns(s: System, es: seq<Event>, i: string)
    requires Silent(s.registry, i) && forall n :: 0 <= n < |es| ==> !(es[n].AddSession? && es[n].instance == i)
    ensures Silent(Run(s, es).registry, i)
  {
    if es != [] {
      SilentRuns(s, es[..|es| - 1], i);
      SilentStays(Run(s, es[..|es| - 1]), es[|es| - 1], i);
    }
  }

  // Once a connection is closed for its misses or removed, no tool call is let through
  // to its instance again until a session is added for it.
  lemma {:induction false} NoPermitAfterClose(s: System, e: Event, es: seq<Event>, id: string, tool: string,
                                              check: bool, maxPending: nat)
    requires InStep(s)
    requires (e.Timeout? && e.connection in s.links && AnswerTo(s, e).verdict.Close?)
          || (e.RemoveConnection? && e.connection in s.links)
    requires forall n :: 0 <= n < |es| ==> !(es[n].AddSession? && es[n].instance == s.links[e.connection].instanceId)
    ensures var p := Run(Step(s, e), es).registry.PrepareInvocation(id, tool, check, maxPending);
            p.Granted? ==> p.instance != s.links[e.connection].instanceId
  {
    var i := s.links[e.connection].instanceId;
    MarkKeepsOrder(s.registry, i, e.since);
    assert Silent(Step(s, e).registry, i);
    SilentRuns(Step(s, e), es, i);
  }

  // A call that is let through goes to the runtime that holds the session.
  lemma {:induction false} PermitsAreHeld(s: System, id: string, tool: string, check: bool, maxPending: nat)
    requires InStep(s) && s.registry.PrepareInvocation(id, tool, check, maxPending).Granted?
    ensures s.registry.Holds(s.registry.PrepareInvocation(id, tool, check, maxPending).instance, id)
  {
    assert s.registry.owner[id] == s.registry.sessions[id].instanceId;
  }

  // The session is gone, or stale since then.
  ghost predicate Fading(r: Registry, id: string, since: int) {
    && Paired(r)
    && (id in r.sessions ==> r.sessions[id].status == Stale && r.sessions[id].staleSince == Some(since))
  }

  lemma FadingStays(s: System, e: Event, id: string, since: int)
    requires Fading(s.registry, id, since) && !(e.AddSession? && e.session == id)
    ensures Fading(Step(s, e).registry, id, since)
    ensures id !in s.registry.sessions ==> id !in Step(s, e).registry.sessions
  {}

  lemma {:induction false} FadingRuns(s: System, es: seq<Event>, id: string, since: int)
    requires Fading(s.registry, id, since) && forall n :: 0 <= n < |es| ==> !(es[n].AddSession? && es[n].session == id)
    ensures Fading(Run(s, es).registry, id, since)
    ensures id !in s.registry.sessions ==> id !in Run(s, es).registry.sessions
  {
    if es != [] {
      FadingRuns(s, es[..|es| - 1], id, since);
      FadingStays(Run(s, es[..|es| - 1]), es[|es| - 1], id, since);
    }
  }

  // Whatever happens meanwhile, short of the session being added again, the sessions of
  // a removed connection are gone with the first pruning after the grace period, and
  // stay gone.
  lemma {:induction false} DroppedSessionIsPruned(s: System, c: string, since: int, es: seq<Event>, now: int,
                                                  grace: nat, later: seq<Event>, id: string)
    requires InStep(s) && c in s.links && now - since > grace
    requires id in s.registry.sessions && s.registry.sessions[id].instanceId == s.links[c].instanceId
    requires s.registry.sessions[id].status == Active
    requires forall n :: 0 <= n < |es| ==> !(es[n].AddSession? && es[n].session == id)
    requires forall n :: 0 <= n < |later| ==> !(later[n].AddSession? && later[n].session == id)
    ensures id !in Run(Step(Run(Step(s, RemoveConnection(c, since)), es), Prune(now, grace)), later).registry.sessions
  {
    assert s.registry.Holds(s.links[c].instanceId, id);
    var dropped := Step(s, RemoveConnection(c, since));
    FadingRuns(dropped, es, id, since);
    var before := Run(dropped, es);
    var after := Step(before, Prune(now, grace));
    FadingStays(before, Prune(now, grace), id, since);
    assert id !in after.registry.sessions;
    FadingRuns(after, later, id, since);
  }

  // ---------------------------------------------------------------- what happens otherwise

  // A reconnecting add-in registers its instance on a new connection d before the old
  // one is removed. The removal leaves d connected, with its heartbeat running, but
  // takes its runtime, and no session of the instance is let through any more.
  lemma LateRemovalCutsOffReconnect(s: System, c: string, d: string, since: int, id: string, tool: string,
                                    check: bool, maxPending: nat)
    requires InStep(s) && c in s.links && d in s.links && c != d && s.links[c].instanceId == s.links[d].instanceId
    ensures var after, i := Step(s, RemoveConnection(c, since)), s.links[d].instanceId;
            && d in after.links && after.links[d] == s.links[d]
            && i !in after.registry.runtimes
            && (id in after.registry.sessions && after.registry.sessions[id].instanceId == i ==>
                  after.registry.PrepareInvocation(id, tool, check, maxPending) == Refused(SessionStale))
  {
    MarkKeepsOrder(s.registry, s.links[c].instanceId, since);
  }

  // After a takeover, dropping the former owner's connection makes the session stale
  // under its new owner.
  lemma TakenSessionFallsWithFormerOwner(s: System, e: Event, c: string, since: int)
    requires InStep(s) && AddsSession(s, e) && TakesOver(s.registry, e.instance, e.session)
    requires c in s.links && s.links[c].instanceId == s.registry.owner[e.session]
    ensures AnswerTo(s, e) == Done
    ensures var after := Step(Step(s, e), RemoveConnection(c, since)).registry;
            && e.session in after.sessions && after.sessions[e.session].status == Stale
            && after.sessions[e.session].instanceId == e.instance && after.Holds(e.instance, e.session)
  {
    var next := Step(s, e);
    assert next.links[c].instanceId == s.links[c].instanceId;
    assert next.registry.Holds(s.registry.owner[e.session], e.session);
  }

  // Active, and held by no runtime.
  ghost predicate Orphaned(r: Registry, id: string, i: string) {
    && id in r.sessions && r.sessions[id].status == Active && r.sessions[id].instanceId == i
    && id in r.owner && r.owner[id] == i
    && forall j :: !r.Holds(j, id)
  }

  predicate Names(e: Event, id: string) {
    (e.AddSession? || e.RemoveSession?) && e.session == id
  }

  lemma OrphanStays(s: System, e: Event, id: string, i: string)
    requires Orphaned(s.registry, id, i) && !Names(e, id)
    ensures Orphaned(Step(s, e).registry, id, i)
  {
    var r, after := s.registry, Step(s, e).registry;
    match e {
      case Register(_, _, i', _) => assert !r.Holds(i', id);
      case RemoveConnection(c, _) => if c in s.links { assert !r.Holds(s.links[c].instanceId, id); }
      case Timeout(c, _) => if c in s.links { assert !r.Holds(s.links[c].instanceId, id); }
      case _ =>
    }
    forall j ensures !after.Holds(j, id) { assert !r.Holds(j, id); }
  }

  lemma {:induction false} OrphanRuns(s: System, es: seq<Event>, id: string, i: string)
    requires Orphaned(s.registry, id, i) && forall n :: 0 <= n < |es| ==> !Names(es[n], id)
    ensures Orphaned(Run(s, es).registry, id, i)
  {
    if es != [] {
      OrphanRuns(s, es[..|es| - 1], id, i);
      OrphanStays(Run(s, es[..|es| - 1]), es[|es| - 1], id, i);
    }
  }

  // A session whose runtime takes another stays active, held by no runtime, through
  // every run that neither adds nor removes it: no close, no removal of its connection
  // and no pruning ends it.
  lemma {:induction false} AbandonedSessionStaysActive(s: System, e: Event, es: seq<Event>)
    requires InStep(s) && AddsSession(s, e) && Abandons(s.registry, e.instance, e.session)
    requires forall n :: 0 <= n < |es| ==> !Names(es[n], s.registry.runtimes[e.instance].sessionId.value)
    ensures Orphaned(Run(Step(s, e), es).registry, s.registry.runtimes[e.instance].sessionId.value, e.instance)
  {
    var held := s.registry.runtimes[e.instance].sessionId.value;
    assert s.registry.Holds(e.instance, held);
    forall j ensures !Step(s, e).registry.Holds(j, held) {
      if s.registry.Holds(j, held) { assert j == s.registry.sessions[held].instanceId; }
    }
    OrphanRuns(Step(s, e), es, held, e.instance);
  }

  // Runtimes are connected and without pending calls: nothing in these runs says otherwise.
  ghost predicate Idle(r: Registry) {
    forall i :: i in r.runtimes ==> r.runtimes[i].connected && r.runtimes[i].pending == 0
  }

  lemma IdleStays(s: System, e: Event)
    requires Idle(s.registry)
    ensures Idle(Step(s, e).registry)
  {}

  lemma {:induction false} RunsStayIdle(es: seq<Event>)
    ensures Idle(After(es).registry)
  {
    if es != [] {
      RunsStayIdle(es[..|es| - 1]);
      IdleStays(After(es[..|es| - 1]), es[|es| - 1]);
    }
  }

  // Such a session is let through exactly while its instance has a runtime, and then to
  // one that does not hold it.
  lemma {:induction false} OrphanIsLetThroughExactly(es: seq<Event>, id: string, i: string, tool: string, check: bool,
                                                     maxPending: nat)
    requires Orphaned(After(es).registry, id, i)
    ensures var r := After(es).registry;
            var p := r.PrepareInvocation(id, tool, check, maxPending);
            && (p.Granted? <==> i in r.runtimes && maxPending > 0 && (check ==> tool in r.sessions[id].tools))
            && (p.Granted? ==> p == Granted(i, 0) && !r.Holds(i, id))
            && (i !in r.runtimes && !check ==> p == Refused(SessionLost))
  {
    RunsStayIdle(es);
  }

  // So it is refused as lost once its connection is removed, and let through again when
  // the instance registers on a new one.
  lemma {:induction false} AbandonedSessionComesBack(s: System, e: Event, since: int, now: int, grace: nat, d: string,
                                                     at: int, tool: string, maxPending: nat)
    requires InStep(s) && AddsSession(s, e) && Abandons(s.registry, e.instance, e.session) && e.instance != ""
             && maxPending > 0
    ensures var held := s.registry.runtimes[e.instance].sessionId.value;
            var pruned := Step(Step(Step(s, e), RemoveConnection(e.connection, since)), Prune(now, grace));
            var again := Step(pruned, Register(d, true, e.instance, at));
            && pruned.registry.PrepareInvocation(held, tool, false, maxPending) == Refused(SessionLost)
            && again.registry.PrepareInvocation(held, tool, false, maxPending) == Granted(e.instance, 0)
            && !again.registry.Holds(e.instance, held)
  {
    var held := s.registry.runtimes[e.instance].sessionId.value;
    var x, y, z := Step(s, e), RemoveConnection(e.connection, since), Prune(now, grace);
    AbandonedSessionStaysActive(s, e, []);
    OrphanStays(x, y, held, e.instance);
    OrphanStays(Step(x, y), z, held, e.instance);
    OrphanStays(Step(Step(x, y), z), Register(d, true, e.instance, at), held, e.instance);
  }

  lemma OneMore(es: seq<Event>, e: Event)
    ensures After(es + [e]) == Step(After(es), e)
  {
    assert (es + [e])[..|es|] == es;
  }

  lemma FirstEvent(e: Event)
    ensures After([e]) == Step(Initial(), e)
  {
    OneMore([], e);
    assert [] + [e] == [e];
  }

  // Each of the three is a few events away from the start.
  lemma SharingIsReachable(a: string, b: string, i: string, now: int)
    requires a != b && i != ""
    ensures IsShared(After([Register(a, true, i, now)] + [Register(b, true, i, now)]).links, a)
  {
    FirstEvent(Register(a, true, i, now));
    OneMore([Register(a, true, i, now)], Register(b, true, i, now));
    var s := After([Register(a, true, i, now)] + [Register(b, true, i, now)]);
    assert b in s.links && s.links[b].instanceId == s.links[a].instanceId;
  }

  lemma AbandonmentIsReachable(a: string, i: string, id: string, other: string, tools: seq<string>, now: int)
    requires i != "" && id != "" && other != "" && id != other
    ensures var s := After([Register(a, true, i, now)] + [AddSession(a, i, id, tools)]);
            AddsSession(s, AddSession(a, i, other, tools)) && Abandons(s.registry, i, other)
  {
    FirstEvent(Register(a, true, i, now));
    OneMore([Register(a, true, i, now)], AddSession(a, i, id, tools));
  }

  lemma TakeoverIsReachable(a: string, i: string, b: string, j: string, id: string, tools: seq<string>, now: int)
    requires a != b && i != j && i != "" && j != "" && id != ""
    ensures var s := After([Register(a, true, i, now)] + [AddSession(a, i, id, tools)] + [Register(b, true, j, now)]);
            AddsSession(s, AddSession(b, j, id, tools)) && TakesOver(s.registry, j, id)
  {
    FirstEvent(Register(a, true, i, now));
    OneMore([Register(a, true, i, now)], AddSession(a, i, id, tools));
    OneMore([Register(a, true, i, now)] + [AddSession(a, i, id, tools)], Register(b, true, j, now));
  }
}
