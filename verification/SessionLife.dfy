/** The life of sessions, runtimes and connections, fact by fact: what each event of the
    channel changes of each, and what that gives over every run. */
module SessionLife {
  import opened Wrappers
  import opened Registries
  import opened Channel
  import opened ChannelRuns
  import opened ChannelSessions

  // ---------------------------------------------------------------- events

  // The event registers instance i on connection c.
  predicate RegistersOn(e: Event, c: string, i: string) {
    e.Register? && e.valid && e.instance != "" && e.connection == c && e.instance == i
  }

  predicate RegistersInstance(e: Event, i: string) {
    e.Register? && RegistersOn(e, e.connection, i)
  }

  // The event removes a connection that speaks for instance i.
  predicate RemovesInstance(s: System, e: Event, i: string) {
    e.RemoveConnection? && e.connection in s.links && s.links[e.connection].instanceId == i
  }

  // The event is the third miss in a row, or a later one, of a connection of instance i.
  predicate ClosesInstance(s: System, e: Event, i: string) {
    && e.Timeout? && e.connection in s.links && s.links[e.connection].instanceId == i
    && s.links[e.connection].beat.missed >= 2
  }

  // The instance is replaced, removed or closed.
  predicate EndsInstance(s: System, e: Event, i: string) {
    || (RegistersInstance(e, i) && i in s.registry.runtimes)
    || RemovesInstance(s, e, i) || ClosesInstance(s, e, i)
  }

  function EndedAt(e: Event): int {
    match e
    case Register(_, _, _, now) => now
    case RemoveConnection(_, since) => since
    case Timeout(_, since) => since
    case _ => 0
  }

  predicate AddsTo(s: System, e: Event, c: string, i: string, id: string) {
    && e.AddSession? && e.connection == c && e.instance == i && e.session == id && id != ""
    && c in s.links && s.links[c].instanceId == i
  }

  predicate Adds(s: System, e: Event, id: string) {
    e.AddSession? && AddsTo(s, e, e.connection, e.instance, id)
  }

  // The session has been stale for longer than the grace period.
  predicate Expires(s: System, e: Event, id: string) {
    && e.Prune? && id in s.registry.sessions && s.registry.sessions[id].status == Stale
    && s.registry.sessions[id].staleSince.Some? && e.now - s.registry.sessions[id].staleSince.value > e.grace
  }

  // ---------------------------------------------------------------- connections

  // A connection is there from its registration to its removal.
  lemma LinkedExactly(s: System, e: Event, c: string)
    ensures c in Step(s, e).links <==>
            || (e.Register? && RegistersOn(e, c, e.instance))
            || (c in s.links && !(e.RemoveConnection? && e.connection == c))
  {}

  // It speaks for the instance it last registered.
  lemma SpeaksForExactly(s: System, e: Event, c: string, i: string)
    ensures c in Step(s, e).links && Step(s, e).links[c].instanceId == i <==>
            || RegistersOn(e, c, i)
            || (c in s.links && s.links[c].instanceId == i
                && !(e.RemoveConnection? && e.connection == c) && !(e.Register? && RegistersOn(e, c, e.instance)))
  {}

  ghost predicate Carries(s: System, c: string, id: string) {
    c in s.links && s.links[c].sessionId == Some(id)
  }

  // It carries the session it last added, until that is removed by name.
  lemma CarriesExactly(s: System, e: Event, c: string, id: string)
    requires id != ""
    ensures Carries(Step(s, e), c, id) <==>
            || (e.AddSession? && AddsTo(s, e, c, e.instance, id))
            || (Carries(s, c, id)
                && !(e.RemoveConnection? && e.connection == c) && !(e.Register? && RegistersOn(e, c, e.instance))
                && !(e.AddSession? && AddsTo(s, e, c, e.instance, e.session)) && !(e.RemoveSession? && e.session == id))
  {}

  // ---------------------------------------------------------------- runtimes

  lemma RuntimeExactly(s: System, e: Event, i: string)
    ensures i in Step(s, e).registry.runtimes <==>
            RegistersInstance(e, i) || (i in s.registry.runtimes && !RemovesInstance(s, e, i))
  {}

  // A runtime holds the session added last for its instance, until it is registered anew
  // or removed, or that session is removed or pruned as its own.
  lemma HoldsExactly(s: System, e: Event, i: string, id: string)
    requires Paired(s.registry) && "" !in s.registry.sessions
    ensures Step(s, e).registry.Holds(i, id) <==>
            || (Adds(s, e, id) && e.instance == i && i in s.registry.runtimes)
            || (s.registry.Holds(i, id)
                && !RegistersInstance(e, i) && !RemovesInstance(s, e, i)
                && !(e.AddSession? && Adds(s, e, e.session) && e.instance == i)
                && !(id in s.registry.sessions && s.registry.sessions[id].instanceId == i
                     && (Expires(s, e, id) || (e.RemoveSession? && e.session == id))))
  {}

  // ---------------------------------------------------------------- sessions

  // A session is known from the time it is added until it is removed by name or pruned.
  lemma KnownExactly(s: System, e: Event, id: string)
    requires Paired(s.registry) && "" !in s.registry.sessions
    ensures id in Step(s, e).registry.sessions <==>
            || Adds(s, e, id)
            || (id in s.registry.sessions && !(e.RemoveSession? && e.session == id) && !Expires(s, e, id))
    ensures id in Step(s, e).registry.owner <==> id in Step(s, e).registry.sessions
  {}

  // It belongs to the instance it was added for last, in both tables.
  lemma BelongsExactly(s: System, e: Event, id: string)
    requires Paired(s.registry) && id in Step(s, e).registry.sessions
    ensures var after := Step(s, e).registry;
            && id in after.owner && after.owner[id] == after.sessions[id].instanceId
            && (Adds(s, e, id) ==> after.sessions[id].instanceId == e.instance)
            && (!Adds(s, e, id) ==> id in s.registry.sessions
                                    && after.sessions[id].instanceId == s.registry.sessions[id].instanceId)
  {}

  // It offers the tools it was added or updated with last.
  lemma ToolsExactly(s: System, e: Event, id: string)
    requires Paired(s.registry) && "" !in s.registry.sessions && id in Step(s, e).registry.sessions
    ensures var tools := Step(s, e).registry.sessions[id].tools;
            && (Adds(s, e, id) ==> tools == e.tools)
            && (e.UpdateSession? && e.session == id && e.patch.Some? ==> tools == e.patch.value)
            && (!Adds(s, e, id) && !(e.UpdateSession? && e.session == id && e.patch.Some?) ==>
                  id in s.registry.sessions && tools == s.registry.sessions[id].tools)
  {}

  ghost predicate IsActive(r: Registry, id: string) {
    id in r.sessions && r.sessions[id].status == Active
  }

  // The runtime that holds the session is replaced, removed or closed.
  ghost predicate EndsHolder(s: System, e: Event, id: string) {
    exists i :: s.registry.Holds(i, id) && EndsInstance(s, e, i)
  }

  // The instance an event replaces, removes or closes.
  function InstanceOf(s: System, e: Event): string {
    match e
    case Register(_, _, i, _) => i
    case RemoveConnection(c, _) => if c in s.links then s.links[c].instanceId else ""
    case Timeout(c, _) => if c in s.links then s.links[c].instanceId else ""
    case _ => ""
  }

  lemma EndsHolderExactly(s: System, e: Event, id: string)
    ensures EndsHolder(s, e, id) <==> s.registry.Holds(InstanceOf(s, e), id) && EndsInstance(s, e, InstanceOf(s, e))
  {}

  // It is active from then on until its holder is replaced, removed or closed.
  lemma ActiveExactly(s: System, e: Event, id: string)
    requires Paired(s.registry) && "" !in s.registry.sessions
    ensures IsActive(Step(s, e).registry, id) <==>
            || Adds(s, e, id)
            || (IsActive(s.registry, id) && !(e.RemoveSession? && e.session == id)
                && !EndsHolder(s, e, id))
  {
    EndsHolderExactly(s, e, id);
  }

  // It is stale since the event that ended its holder.
  lemma StaleSinceExactly(s: System, e: Event, id: string)
    requires Paired(s.registry) && id in Step(s, e).registry.sessions && !IsActive(Step(s, e).registry, id)
    ensures id in s.registry.sessions
    ensures Step(s, e).registry.sessions[id].staleSince ==
            if IsActive(s.registry, id) then Some(EndedAt(e)) else s.registry.sessions[id].staleSince
  {}

  // ---------------------------------------------------------------- every run

  lemma StepKeepsPaired(s: System, e: Event)
    requires Paired(s.registry) && "" !in s.registry.sessions
    ensures Paired(Step(s, e).registry)
  {}

  lemma {:induction false} RunsArePaired(es: seq<Event>)
    ensures Paired(After(es).registry) && "" !in After(es).registry.sessions
  {
    if es != [] {
      RunsArePaired(es[..|es| - 1]);
      StepKeepsPaired(After(es[..|es| - 1]), es[|es| - 1]);
      KnownExactly(After(es[..|es| - 1]), es[|es| - 1], "");
    }
  }

  // What the channel answers says what happened: a session is in the tables after an add
  // answered with success, an update or removal succeeds for a known session, and a pruning
  // tells how many fewer there are.
  lemma {:induction false} AnswersTell(es: seq<Event>, e: Event)
    ensures var s, after, r := After(es), After(es + [e]), AnswerTo(After(es), e);
            && (e.Register? ==> if RegistersInstance(e, e.instance) then r == Done else r == InvalidRegistration)
            && (e.AddSession? ==>
                  && (r == Done <==> Adds(s, e, e.session))
                  && (r == UnknownConnection <==> e.connection !in s.links)
                  && (r == InstanceMismatch <==>
                        e.connection in s.links && s.links[e.connection].instanceId != e.instance)
                  && (r == MalformedSessionEvent || r == Done || r == UnknownConnection || r == InstanceMismatch))
            && (e.UpdateSession? || e.RemoveSession? ==>
                  && (r == MalformedSessionEvent <==> e.session == "")
                  && (r == Done <==> e.session in s.registry.sessions)
                  && (r == MalformedSessionEvent || r == Done || r == UnknownSession))
            && (e.RemoveConnection? ==> r == Removed(exists i :: RemovesInstance(s, e, i) && i in s.registry.runtimes))
            && (e.StartPing? && e.connection !in s.links ==> r == UnknownConnection)
            && (e.StartPing? && e.connection in s.links ==>
                  after.links[e.connection].beat.pending.Some?
                  && r == Ping(after.links[e.connection].beat.pending.value))
            && ((e.Pong? || e.Timeout?) ==> (r == UnknownConnection <==> e.connection !in s.links))
            && (e.Timeout? && e.connection in s.links
                ==> (r.Decision? && r.verdict.missed == after.links[e.connection].beat.missed))
            && (e.Prune? ==> r.Pruned? && r.count == |s.registry.sessions| - |after.registry.sessions|)
  {
    RunsArePaired(es);
    OneMore(es, e);
    if e.Prune? { PrunedAreFewer(After(es).registry, e.now, e.grace); }
  }

  lemma PrunedAreFewer(r: Registry, now: int, grace: nat)
    requires Paired(r)
    ensures |r.Expired(now, grace)| == |r.sessions| - |r.Prune(now, grace).sessions|
  {
    var gone, left := r.Expired(now, grace), r.Prune(now, grace).sessions.Keys;
    assert left == r.sessions.Keys - gone && gone <= r.sessions.Keys;
  }

  // No runtime at all holds it, except one whose session it was before another took it over.
  lemma {:induction false} RemovedSessionIsGone(es: seq<Event>, id: string)
    requires id in After(es).registry.sessions
    ensures AnswerTo(After(es), RemoveSession(id)) == Done
    ensures var s, after := After(es), After(es + [RemoveSession(id)]);
            && id !in after.registry.sessions && id !in after.registry.owner
            && (forall i :: after.registry.Holds(i, id) <==>
                              s.registry.Holds(i, id) && i != s.registry.sessions[id].instanceId)
            && (forall c :: !Carries(after, c, id))
  {
    var s, e := After(es), RemoveSession(id);
    RunsArePaired(es);
    OneMore(es, e);
    forall c ensures !Carries(Step(s, e), c, id) { CarriesExactly(s, e, c, id); }
    forall i ensures Step(s, e).registry.Holds(i, id) <==>
                     s.registry.Holds(i, id) && i != s.registry.sessions[id].instanceId
    {
      HoldsExactly(s, e, i, id);
    }
  }

  // Every other session stays as it is, and so does what else runtimes hold and connections
  // carry.
  lemma {:induction false} RemovalTouchesNothingElse(es: seq<Event>, id: string, other: string, c: string, i: string)
    requires id != other && other != ""
    ensures var s, after := After(es), After(es + [RemoveSession(id)]);
            && (other in after.registry.sessions <==> other in s.registry.sessions)
            && (other in s.registry.sessions ==>
                  && after.registry.sessions[other] == s.registry.sessions[other]
                  && other in s.registry.owner && other in after.registry.owner
                  && after.registry.owner[other] == s.registry.owner[other])
            && (after.registry.Holds(i, other) <==> s.registry.Holds(i, other))
            && (i in after.registry.runtimes <==> i in s.registry.runtimes)
            && (Carries(after, c, other) <==> Carries(s, c, other))
            && (c in after.links <==> c in s.links)
            && (c in s.links ==> after.links[c].instanceId == s.links[c].instanceId
                                 && after.links[c].beat == s.links[c].beat)
            && after.nextPing == s.nextPing
  {
    RunsArePaired(es);
    OneMore(es, RemoveSession(id));
    HoldsExactly(After(es), RemoveSession(id), i, other);
    CarriesExactly(After(es), RemoveSession(id), c, other);
  }

  lemma {:induction false} UnknownStays(es: seq<Event>, more: seq<Event>, id: string)
    requires id !in After(es).registry.sessions
    requires forall n :: 0 <= n < |more| ==> !(more[n].AddSession? && more[n].session == id)
    ensures id !in After(es + more).registry.sessions
  {
    if more == [] {
      assert es + more == es;
    } else {
      var front, last := more[..|more| - 1], more[|more| - 1];
      assert es + more == es + front + [last];
      UnknownStays(es, front, id);
      RunsArePaired(es + front);
      OneMore(es + front, last);
      KnownExactly(After(es + front), last, id);
    }
  }

  // So until it is added again, whatever follows, calls to it are refused: it is not found,
  // or there are no sessions at all.
  lemma {:induction false} RemovedSessionIsRefused(es: seq<Event>, id: string, more: seq<Event>, tool: string,
                                                   check: bool, maxPending: nat)
    requires id in After(es).registry.sessions
    requires forall n :: 0 <= n < |more| ==> !(more[n].AddSession? && more[n].session == id)
    ensures var r := After(es + [RemoveSession(id)] + more).registry;
            r.PrepareInvocation(id, tool, check, maxPending) ==
            Refused(if r.sessions == map[] then NoSessions else SessionNotFound)
  {
    RemovedSessionIsGone(es, id);
    UnknownStays(es + [RemoveSession(id)], more, id);
    var sessions := After(es + [RemoveSession(id)] + more).registry.sessions;
    assert |sessions| == 0 <==> sessions == map[];
  }

  // What is decided about a call in any run: the first of these that applies.
  lemma {:induction false} PermitIsDecided(es: seq<Event>, id: string, tool: string, check: bool, maxPending: nat)
    ensures var r := After(es).registry;
            var p := r.PrepareInvocation(id, tool, check, maxPending);
            if id !in r.sessions then p == Refused(if r.sessions == map[] then NoSessions else SessionNotFound)
            else if !IsActive(r, id) then p == Refused(SessionStale)
            else if check && tool !in r.sessions[id].tools then p == Refused(ToolNotEnabled)
            else if r.sessions[id].instanceId !in r.runtimes then p == Refused(SessionLost)
            else if maxPending == 0 then p == Refused(MaxPendingExceeded)
            else p == Granted(r.sessions[id].instanceId, 0)
  {
    RunsArePaired(es);
    RunsStayIdle(es);
    assert |After(es).registry.sessions| == 0 <==> After(es).registry.sessions == map[];
  }

  // ---------------------------------------------------------------- a session in use

  // Nothing here adds, updates or removes the session or its instance's.
  ghost predicate Spares(s: System, e: Event, i: string, id: string) {
    && !(e.AddSession? && (e.session == id || e.instance == i))
    && !(e.UpdateSession? && e.session == id) && !(e.RemoveSession? && e.session == id)
    && !EndsInstance(s, e, i) && !RegistersInstance(e, i)
  }

  // The session is active with these tools, and held by its instance's runtime alone.
  ghost predicate InUse(s: System, i: string, id: string, tools: seq<string>) {
    && id in s.registry.sessions && s.registry.sessions[id].instanceId == i && s.registry.sessions[id].tools == tools
    && IsActive(s.registry, id) && i in s.registry.runtimes && forall j :: s.registry.Holds(j, id) <==> j == i
  }

  lemma UseGoesOn(s: System, e: Event, i: string, id: string, tools: seq<string>)
    requires Paired(s.registry) && "" !in s.registry.sessions
    requires InUse(s, i, id, tools) && Spares(s, e, i, id)
    ensures InUse(Step(s, e), i, id, tools)
  {
    KnownExactly(s, e, id);
    BelongsExactly(s, e, id);
    ToolsExactly(s, e, id);
    ActiveExactly(s, e, id);
    RuntimeExactly(s, e, i);
    forall j ensures Step(s, e).registry.Holds(j, id) <==> j == i { HoldsExactly(s, e, j, id); }
  }

  lemma {:induction false} UseRuns(es: seq<Event>, more: seq<Event>, i: string, id: string, tools: seq<string>)
    requires InUse(After(es), i, id, tools)
    requires forall n :: 0 <= n < |more| ==> Spares(After(es + more[..n]), more[n], i, id)
    ensures InUse(After(es + more), i, id, tools)
  {
    if more == [] {
      assert es + more == es;
    } else {
      var front, last := more[..|more| - 1], more[|more| - 1];
      assert es + more == es + front + [last];
      forall n | 0 <= n < |front| ensures Spares(After(es + front[..n]), front[n], i, id) {
        assert front[..n] == more[..n] && Spares(After(es + more[..n]), more[n], i, id);
      }
      UseRuns(es, front, i, id, tools);
      RunsArePaired(es + front);
      OneMore(es + front, last);
      assert Spares(After(es + more[..|more| - 1]), last, i, id);
      UseGoesOn(After(es + front), last, i, id, tools);
    }
  }

  // A session added where no other runtime holds it is let through for exactly its tools, to
  // its own runtime, until it or its instance is touched: other instances come and go.
  lemma {:induction false} AddedSessionIsLetThrough(es: seq<Event>, e: Event, more: seq<Event>, tool: string,
                                                    check: bool, maxPending: nat)
    requires e.AddSession? && Adds(After(es), e, e.session) && e.instance in After(es).registry.runtimes
    requires forall j :: After(es).registry.Holds(j, e.session) ==> j == e.instance
    requires forall n :: 0 <= n < |more| ==> Spares(After(es + [e] + more[..n]), more[n], e.instance, e.session)
    ensures AnswerTo(After(es), e) == Done
    ensures var r := After(es + [e] + more).registry;
            var p := r.PrepareInvocation(e.session, tool, check, maxPending);
            && (p.Granted? <==> maxPending > 0 && (check ==> tool in e.tools))
            && (p.Granted? ==> p == Granted(e.instance, 0) && r.Holds(e.instance, e.session))
  {
    var s := After(es);
    RunsArePaired(es);
    OneMore(es, e);
    KnownExactly(s, e, e.session);
    BelongsExactly(s, e, e.session);
    ToolsExactly(s, e, e.session);
    ActiveExactly(s, e, e.session);
    RuntimeExactly(s, e, e.instance);
    forall j ensures Step(s, e).registry.Holds(j, e.session) <==> j == e.instance { HoldsExactly(s, e, j, e.session); }
    UseRuns(es + [e], more, e.instance, e.session, e.tools);
    PermitIsDecided(es + [e] + more, e.session, tool, check, maxPending);
  }

  // The tools of a session are those it was added or updated with last.
  lemma {:induction false} ToolsAreTheLastOnes(es: seq<Event>, e: Event, more: seq<Event>, id: string)
    requires Adds(After(es), e, id) || (e.UpdateSession? && e.session == id && e.patch.Some?)
    requires forall n :: 0 <= n < |more| ==> !(more[n].AddSession? && more[n].session == id)
    requires forall n :: 0 <= n < |more| ==> !(more[n].UpdateSession? && more[n].session == id && more[n].patch.Some?)
    requires id in After(es + [e] + more).registry.sessions
    ensures After(es + [e] + more).registry.sessions[id].tools == if e.AddSession? then e.tools else e.patch.value
  {
    if more == [] {
      assert es + [e] + more == es + [e];
      RunsArePaired(es);
      OneMore(es, e);
      ToolsExactly(After(es), e, id);
    } else {
      var front, last := more[..|more| - 1], more[|more| - 1];
      assert es + [e] + more == es + [e] + front + [last];
      RunsArePaired(es + [e] + front);
      OneMore(es + [e] + front, last);
      KnownExactly(After(es + [e] + front), last, id);
      ToolsExactly(After(es + [e] + front), last, id);
      ToolsAreTheLastOnes(es, e, front, id);
    }
  }
}
