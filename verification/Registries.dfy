/** The daemon's registry of add-in runtimes and of the document sessions they own. */
module Registries {
  import opened Wrappers

  datatype Status = Active | Stale

  datatype Session = Session(instanceId: string, tools: seq<string>, status: Status, staleSince: Option<int>)
  {
    predicate StalePast(now: int, grace: nat) {
      status == Stale && staleSince.Some? && now >= staleSince.value && now - staleSince.value > grace
    }
  }

  datatype Runtime = Runtime(sessionId: Option<string>, connected: bool, pending: nat)

  datatype Refusal = NoSessions | SessionNotFound | SessionStale | ToolNotEnabled | SessionLost | MaxPendingExceeded

  datatype Permit = Granted(instance: string, queueDepth: nat) | Refused(code: Refusal)

  // ---------------------------------------------------------------- the registry as a value

  datatype Registry = Registry(runtimes: map<string, Runtime>, sessions: map<string, Session>,
                               owner: map<string, string>)
  {
    predicate Holds(instance: string, id: string) {
      instance in runtimes && runtimes[instance].sessionId == Some(id)
    }

    function MarkSession(id: string, since: int): Registry {
      if id in sessions && sessions[id].status == Active then
        this.(sessions := sessions[id := sessions[id].(status := Stale, staleSince := Some(since))])
      else this
    }

    function MarkInstance(instance: string, since: int): Registry {
      if instance in runtimes && runtimes[instance].sessionId.Some? then
        MarkSession(runtimes[instance].sessionId.value, since)
      else this
    }

    function RegisterRuntime(instance: string, now: int): Registry {
      MarkInstance(instance, now).(runtimes := runtimes[instance := Runtime(None, true, 0)])
    }

    function AddSession(id: string, instance: string, tools: seq<string>): Registry {
      Registry(
        if instance in runtimes then runtimes[instance := runtimes[instance].(sessionId := Some(id))] else runtimes,
        sessions[id := Session(instance, tools, Active, None)],
        owner[id := instance])
    }

    function UpdateSession(id: string, tools: Option<seq<string>>): Registry {
      if id in sessions && tools.Some? then this.(sessions := sessions[id := sessions[id].(tools := tools.value)])
      else this
    }

    function RemoveSession(id: string): Registry {
      if id !in owner then this
      else
        Registry(
          if Holds(owner[id], id) then runtimes[owner[id] := runtimes[owner[id]].(sessionId := None)] else runtimes,
          sessions - {id},
          owner - {id})
    }

    function RemoveRuntime(instance: string, since: int): Registry {
      if instance !in runtimes then this else MarkInstance(instance, since).(runtimes := runtimes - {instance})
    }

    function Expired(now: int, grace: nat): set<string> {
      set id | id in sessions && sessions[id].StalePast(now, grace)
    }

    function SetPending(instance: string, count: nat): Registry {
      if instance in runtimes then this.(runtimes := runtimes[instance := runtimes[instance].(pending := count)])
      else this
    }

    function SetConnected(instance: string, connected: bool): Registry {
      if instance in runtimes then this.(runtimes := runtimes[instance := runtimes[instance].(connected := connected)])
      else this
    }

    // What a runtime keeps of its session when those in ids are removed.
    function Released(instance: string, ids: set<string>): Runtime
      requires instance in runtimes
    {
      var runtime := runtimes[instance];
      if runtime.sessionId.Some? && runtime.sessionId.value in ids && runtime.sessionId.value in owner
         && owner[runtime.sessionId.value] == instance
      then runtime.(sessionId := None) else runtime
    }

    function RemoveAll(ids: set<string>): Registry {
      Registry(
        map instance | instance in runtimes :: Released(instance, ids),
        map id | id in sessions && !(id in ids && id in owner) :: sessions[id],
        map id | id in owner && id !in ids :: owner[id])
    }

    function Prune(now: int, grace: nat): Registry {
      RemoveAll(Expired(now, grace))
    }

    function PrepareInvocation(id: string, tool: string, checkCapability: bool, maxPending: nat): Permit {
      if id !in sessions then Refused(if |sessions| == 0 then NoSessions else SessionNotFound)
      else if sessions[id].status == Stale then Refused(SessionStale)
      else if checkCapability && tool !in sessions[id].tools then Refused(ToolNotEnabled)
      else if id !in owner || owner[id] !in runtimes then Refused(SessionLost)
      else if !runtimes[owner[id]].connected then Refused(SessionLost)
      else if runtimes[owner[id]].pending >= maxPending then Refused(MaxPendingExceeded)
      else Granted(owner[id], runtimes[owner[id]].pending)
    }
  }

  lemma RemoveNone(r: Registry)
    ensures r.RemoveAll({}) == r
  {
    assert r.RemoveAll({}).runtimes == r.runtimes;
    assert r.RemoveAll({}).sessions == r.sessions;
    assert r.RemoveAll({}).owner == r.owner;
  }

  // Removing sessions one by one, in any order, removes them all.
  lemma RemoveOneMore(r: Registry, ids: set<string>, id: string)
    requires id !in ids
    ensures r.RemoveAll(ids).RemoveSession(id) == r.RemoveAll(ids + {id})
  {
    var one, all := r.RemoveAll(ids).RemoveSession(id), r.RemoveAll(ids + {id});
    assert one.owner == all.owner;
    assert one.sessions == all.sessions;
    assert one.runtimes == all.runtimes;
  }

  // A call to an active session that offers its tool is let through exactly while its
  // instance's runtime is connected with room for it, and is told how many wait before it.
  lemma PermitFollowsRuntime(r: Registry, id: string, tool: string, maxPending: nat, count: nat, connected: bool)
    requires id in r.sessions && r.sessions[id].status == Active && tool in r.sessions[id].tools && id in r.owner
    requires r.owner[id] in r.runtimes
    ensures r.SetPending(r.owner[id], count).SetConnected(r.owner[id], connected)
             .PrepareInvocation(id, tool, true, maxPending) ==
            if !connected then Refused(SessionLost)
            else if count < maxPending then Granted(r.owner[id], count)
            else Refused(MaxPendingExceeded)
  {}

  // Neither setting touches another instance, or a session.
  lemma SettingsTouchNothingElse(r: Registry, instance: string, count: nat, connected: bool, other: string)
    ensures var after := r.SetPending(instance, count).SetConnected(instance, connected);
            && after.sessions == r.sessions && after.owner == r.owner && after.runtimes.Keys == r.runtimes.Keys
            && (other in r.runtimes ==> after.runtimes[other].sessionId == r.runtimes[other].sessionId)
            && (other in r.runtimes && other != instance ==> after.runtimes[other] == r.runtimes[other])
  {}

  // ---------------------------------------------------------------- the registry as an object

  class SessionRegistry {
    var connectionsByInstance: map<string, Runtime>
    var sessionsById: map<string, Session>
    var instanceBySession: map<string, string>
    const maxPendingPerSession: nat

    function View(): Registry
      reads this
    {
      Registry(connectionsByInstance, sessionsById, instanceBySession)
    }

    constructor (maxPending: nat)
      ensures View() == Registry(map[], map[], map[]) && maxPendingPerSession == maxPending
    {
      connectionsByInstance, sessionsById, instanceBySession := map[], map[], map[];
      maxPendingPerSession := maxPending;
    }

    method MarkSessionStale(id: string, since: int) returns (changed: bool)
      modifies this
      ensures View() == old(View()).MarkSession(id, since)
      ensures changed <==> id in old(View()).sessions && old(View()).sessions[id].status == Active
    {
      if id !in sessionsById || sessionsById[id].status == Stale { return false; }
      sessionsById := sessionsById[id := sessionsById[id].(status := Stale, staleSince := Some(since))];
      return true;
    }

    method MarkInstanceStale(instance: string, since: int) returns (changed: bool)
      modifies this
      ensures View() == old(View()).MarkInstance(instance, since)
      ensures changed <==>
                var r := old(View());
                && instance in r.runtimes && r.runtimes[instance].sessionId.Some?
                && var id := r.runtimes[instance].sessionId.value; id in r.sessions && r.sessions[id].status == Active
    {
      if instance !in connectionsByInstance || connectionsByInstance[instance].sessionId.None? { return false; }
      changed := MarkSessionStale(connectionsByInstance[instance].sessionId.value, since);
    }

    method RegisterRuntime(instance: string, now: int) returns (replaced: bool)
      modifies this
      ensures View() == old(View()).RegisterRuntime(instance, now)
      ensures replaced <==> instance in old(View()).runtimes
    {
      replaced := instance in connectionsByInstance;
      if replaced {
        var changed := MarkInstanceStale(instance, now);
      }
      connectionsByInstance := connectionsByInstance[instance := Runtime(None, true, 0)];
    }

    method AddSession(id: string, instance: string, tools: seq<string>)
      modifies this
      ensures View() == old(View()).AddSession(id, instance, tools)
    {
      if instance in connectionsByInstance {
        var runtime := connectionsByInstance[instance].(sessionId := Some(id));
        connectionsByInstance := connectionsByInstance[instance := runtime];
      }
      instanceBySession := instanceBySession[id := instance];
      sessionsById := sessionsById[id := Session(instance, tools, Active, None)];
    }

    method UpdateSession(id: string, tools: Option<seq<string>>) returns (known: bool)
      modifies this
      ensures View() == old(View()).UpdateSession(id, tools)
      ensures known <==> id in old(View()).sessions
    {
      if id !in sessionsById { return false; }
      if tools.Some? { sessionsById := sessionsById[id := sessionsById[id].(tools := tools.value)]; }
      return true;
    }

    method RemoveSession(id: string) returns (removed: bool)
      modifies this
      ensures View() == old(View()).RemoveSession(id)
      ensures removed <==> id in old(View()).owner && id in old(View()).sessions
    {
      if id !in instanceBySession { return false; }
      var instance := instanceBySession[id];
      instanceBySession := instanceBySession - {id};
      if instance in connectionsByInstance && connectionsByInstance[instance].sessionId == Some(id) {
        connectionsByInstance := connectionsByInstance[instance := connectionsByInstance[instance].(sessionId := None)];
      }
      removed := id in sessionsById;
      sessionsById := sessionsById - {id};
    }

    method RemoveRuntime(instance: string, since: int) returns (removed: bool)
      modifies this
      ensures View() == old(View()).RemoveRuntime(instance, since)
      ensures removed <==> instance in old(View()).runtimes
    {
      if instance !in connectionsByInstance { return false; }
      var runtime := connectionsByInstance[instance];
      connectionsByInstance := connectionsByInstance - {instance};
      if runtime.sessionId.Some? {
        var changed := MarkSessionStale(runtime.sessionId.value, since);
      }
      return true;
    }

    method SetConnectionPending(instance: string, count: nat) returns (known: bool)
      modifies this
      ensures View() == old(View()).SetPending(instance, count)
      ensures known <==> instance in old(View()).runtimes
    {
      if instance !in connectionsByInstance { return false; }
      connectionsByInstance := connectionsByInstance[instance := connectionsByInstance[instance].(pending := count)];
      return true;
    }

    method SetConnectionConnected(instance: string, connected: bool) returns (known: bool)
      modifies this
      ensures View() == old(View()).SetConnected(instance, connected)
      ensures known <==> instance in old(View()).runtimes
    {
      if instance !in connectionsByInstance { return false; }
      var runtime := connectionsByInstance[instance].(connected := connected);
      connectionsByInstance := connectionsByInstance[instance := runtime];
      return true;
    }

    method PruneStaleSessions(now: int, grace: nat) returns (count: nat)
      modifies this
      ensures View() == old(View()).Prune(now, grace)
      ensures count == |old(View()).Expired(now, grace)|
    {
      var expired := set id | id in sessionsById && sessionsById[id].StalePast(now, grace);
      count := |expired|;
      ghost var before := View();
      assert expired == before.Expired(now, grace);
      RemoveNone(before);
      var left := expired;
      while left != {}
        invariant left <= expired && View() == before.RemoveAll(expired - left)
      {
        var id :| id in left;
        RemoveOneMore(before, expired - left, id);
        assert expired - (left - {id}) == expired - left + {id};
        var removed := RemoveSession(id);
        left := left - {id};
      }
      assert expired - {} == expired;
    }
  }
}
