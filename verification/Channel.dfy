/** The add-in channel: the table of connections with their heartbeats, on top of the
    session registry. */
module Channel {
  import opened Wrappers
  import opened Heartbeat
  import opened Registries
  import Digits

  datatype Link = Link(instanceId: string, sessionId: Option<string>, beat: Beat)

  datatype System = System(links: map<string, Link>, nextPing: nat, registry: Registry)

  datatype Event =
    | Register(connection: string, valid: bool, instance: string, now: int)
    | AddSession(connection: string, instance: string, session: string, tools: seq<string>)
    | UpdateSession(session: string, patch: Option<seq<string>>)
    | RemoveSession(session: string)
    | RemoveConnection(connection: string, since: int)
    | StartPing(connection: string)
    | Pong(connection: string, response: string)
    | Timeout(connection: string, since: int)
    | Prune(now: int, grace: nat)

  datatype Answer =
    | Done
    | Ping(id: string)
    | Accepted(accepted: bool)
    | Decision(verdict: Timeout)
    | Removed(removed: bool)
    | Pruned(count: nat)
    | InvalidRegistration
    | UnknownConnection
    | InstanceMismatch
    | MalformedSessionEvent
    | UnknownSession

  // ---------------------------------------------------------------- one event

  function Initial(): System {
    System(map[], 1, Registry(map[], map[], map[]))
  }

  function PingId(n: nat): string {
    "ping-" + Digits.Print(n, 10)
  }

  lemma PingIdIsInjective(m: nat, n: nat)
    ensures PingId(m) == PingId(n) <==> m == n
    ensures PingId(n) == "ping-" + PingId(n)[5..] && Digits.Parse(PingId(n)[5..], 10) == n
  {
    Digits.PrintRoundTrip(n, 10);
    var a, b := Digits.Print(m, 10), Digits.Print(n, 10);
    assert PingId(m)[5..] == a && PingId(n)[5..] == b;
    if a == b { Digits.PrintIsInjective(m, n, 10); }
  }

  // Connections that carried the session stop carrying it.
  function Detached(links: map<string, Link>, session: string): map<string, Link> {
    map c | c in links :: if links[c].sessionId == Some(session) then links[c].(sessionId := None) else links[c]
  }

  predicate AddsSession(s: System, e: Event) {
    e.AddSession? && e.connection in s.links && e.instance == s.links[e.connection].instanceId && e.session != ""
  }

  function Step(s: System, e: Event): System {
    match e
    case Register(c, valid, instance, now) =>
      if !valid || instance == "" then s
      else s.(registry := s.registry.RegisterRuntime(instance, now),
              links := s.links[c := Link(instance, None, Fresh())])
    case AddSession(c, instance, id, tools) =>
      if !AddsSession(s, e) then s
      else s.(registry := s.registry.AddSession(id, instance, tools),
              links := s.links[c := s.links[c].(sessionId := Some(id))])
    case UpdateSession(id, tools) => if id == "" then s else s.(registry := s.registry.UpdateSession(id, tools))
    case RemoveSession(id) =>
      if id == "" then s else s.(registry := s.registry.RemoveSession(id), links := Detached(s.links, id))
    case RemoveConnection(c, since) =>
      if c !in s.links then s
      else s.(registry := s.registry.RemoveRuntime(s.links[c].instanceId, since), links := s.links - {c})
    case StartPing(c) =>
      var counted := s.(nextPing := s.nextPing + 1);
      if c !in s.links then counted
      else counted.(links := s.links[c := s.links[c].(beat := Pinged(s.links[c].beat, PingId(s.nextPing)))])
    case Pong(c, response) =>
      if c !in s.links then s else s.(links := s.links[c := s.links[c].(beat := Ponged(s.links[c].beat, response))])
    case Timeout(c, since) =>
      if c !in s.links then s
      else
        var missed := Missed(s.links[c].beat);
        s.(links := s.links[c := s.links[c].(beat := missed)],
           registry := if Verdict(missed).Close? then s.registry.MarkInstance(s.links[c].instanceId, since)
                       else s.registry)
    case Prune(now, grace) => s.(registry := s.registry.Prune(now, grace))
  }

  function AnswerTo(s: System, e: Event): Answer {
    match e
    case Register(_, valid, instance, _) => if !valid || instance == "" then InvalidRegistration else Done
    case AddSession(c, instance, id, _) =>
      if c !in s.links then UnknownConnection
      else if instance != s.links[c].instanceId then InstanceMismatch
      else if id == "" then MalformedSessionEvent else Done
    case UpdateSession(id, _) =>
      if id == "" then MalformedSessionEvent else if id in s.registry.sessions then Done else UnknownSession
    case RemoveSession(id) =>
      if id == "" then MalformedSessionEvent
      else if id in s.registry.owner && id in s.registry.sessions then Done else UnknownSession
    case RemoveConnection(c, _) => Removed(c in s.links && s.links[c].instanceId in s.registry.runtimes)
    case StartPing(c) => if c in s.links then Ping(PingId(s.nextPing)) else UnknownConnection
    case Pong(c, response) => if c in s.links then Accepted(Accepts(s.links[c].beat, response)) else UnknownConnection
    case Timeout(c, _) => if c in s.links then Decision(Verdict(Missed(s.links[c].beat))) else UnknownConnection
    case Prune(now, grace) => Pruned(|s.registry.Expired(now, grace)|)
  }

  // ---------------------------------------------------------------- the channel as an object

  class AddinConnectionState {
    const instanceId: string
    var sessionId: Option<string>
    const heartbeat: AddinHeartbeatState

    function View(): Link
      reads this, heartbeat
    {
      Link(instanceId, sessionId, heartbeat.View())
    }

    constructor (instanceId: string)
      ensures View() == Link(instanceId, None, Fresh()) && fresh(heartbeat)
    {
      this.instanceId := instanceId;
      sessionId := None;
      heartbeat := new AddinHeartbeatState();
    }
  }

  class AddinChannelServer {
    var connections: map<string, AddinConnectionState>
    var nextPingId: nat

    ghost function Parts(): set<object>
      reads this
    {
      (set c | c in connections :: connections[c] as object)
      + (set c | c in connections :: connections[c].heartbeat as object)
    }

    // Each connection owns its state and heartbeat.
    ghost predicate Valid()
      reads this
    {
      forall c, d :: c in connections && d in connections && c != d ==>
        connections[c] != connections[d] && connections[c].heartbeat != connections[d].heartbeat
    }

    ghost function Links(): map<string, Link>
      reads this, Parts()
    {
      map c | c in connections :: connections[c].View()
    }

    ghost function View(registry: SessionRegistry): System
      reads this, Parts(), registry
    {
      System(Links(), nextPingId, registry.View())
    }

    constructor ()
      ensures Valid() && Links() == map[] && nextPingId == 1
    {
      connections, nextPingId := map[], 1;
    }

    method NextPingId() returns (id: string)
      modifies this`nextPingId
      ensures id == PingId(old(nextPingId)) && nextPingId == old(nextPingId) + 1
    {
      id := PingId(nextPingId);
      nextPingId := nextPingId + 1;
    }

    method StartPing(c: string, registry: SessionRegistry) returns (r: Answer)
      requires Valid()
      modifies this`nextPingId, Parts()
      ensures Valid() && View(registry) == Step(old(View(registry)), Event.StartPing(c))
      ensures r == AnswerTo(old(View(registry)), Event.StartPing(c))
    {
      var id := NextPingId();
      if c !in connections { return UnknownConnection; }
      connections[c].heartbeat.StartPing(id);
      assert Links() == old(Links())[c := connections[c].View()];
      return Ping(id);
    }

    method HandlePong(c: string, response: string, registry: SessionRegistry) returns (r: Answer)
      requires Valid()
      modifies Parts()
      ensures Valid() && View(registry) == Step(old(View(registry)), Pong(c, response))
      ensures r == AnswerTo(old(View(registry)), Pong(c, response))
    {
      if c !in connections { return UnknownConnection; }
      var accepted := connections[c].heartbeat.HandlePong(response);
      assert Links() == old(Links())[c := connections[c].View()];
      return Accepted(accepted);
    }

    method RecordHeartbeatTimeout(c: string, since: int, registry: SessionRegistry) returns (r: Answer)
      requires Valid()
      modifies Parts(), registry
      ensures Valid() && View(registry) == Step(old(View(registry)), Event.Timeout(c, since))
      ensures r == AnswerTo(old(View(registry)), Event.Timeout(c, since))
    {
      if c !in connections { return UnknownConnection; }
      var verdict := Miss(c);
      if verdict.Close? {
        var changed := registry.MarkInstanceStale(connections[c].instanceId, since);
        assert Links() == old(Links())[c := old(Links())[c].(beat := Missed(old(Links())[c].beat))];
      }
      return Decision(verdict);
    }

    method Miss(c: string) returns (verdict: Timeout)
      requires Valid() && c in connections
      modifies Parts()
      ensures Valid() && verdict == Verdict(Missed(old(Links())[c].beat))
      ensures Links() == old(Links())[c := old(Links())[c].(beat := Missed(old(Links())[c].beat))]
    {
      verdict := connections[c].heartbeat.RecordTimeout();
    }

    method RegisterRuntime(c: string, valid: bool, instance: string, now: int, registry: SessionRegistry)
      returns (r: Answer)
      requires Valid()
      modifies this`connections, registry
      ensures Valid() && View(registry) == Step(old(View(registry)), Register(c, valid, instance, now))
      ensures r == AnswerTo(old(View(registry)), Register(c, valid, instance, now))
    {
      if !valid || instance == "" { return InvalidRegistration; }
      var replaced := registry.RegisterRuntime(instance, now);
      assert Links() == old(Links());
      Track(c, instance);
      return Done;
    }

    method Track(c: string, instance: string)
      requires Valid()
      modifies this`connections
      ensures Valid() && Links() == old(Links())[c := Link(instance, None, Fresh())]
    {
      var state := new AddinConnectionState(instance);
      connections := connections[c := state];
      assert Links() == old(Links())[c := state.View()];
    }

    method AddSession(c: string, instance: string, id: string, tools: seq<string>, registry: SessionRegistry)
      returns (r: Answer)
      requires Valid()
      modifies Parts(), registry
      ensures Valid() && View(registry) == Step(old(View(registry)), Event.AddSession(c, instance, id, tools))
      ensures r == AnswerTo(old(View(registry)), Event.AddSession(c, instance, id, tools))
    {
      if c !in connections { return UnknownConnection; }
      if instance != connections[c].instanceId { return InstanceMismatch; }
      if id == "" { return MalformedSessionEvent; }
      registry.AddSession(id, instance, tools);
      connections[c].sessionId := Some(id);
      assert Links() == old(Links())[c := connections[c].View()];
      return Done;
    }

    method UpdateSession(id: string, patch: Option<seq<string>>, registry: SessionRegistry) returns (r: Answer)
      requires Valid()
      modifies registry
      ensures Valid() && View(registry) == Step(old(View(registry)), Event.UpdateSession(id, patch))
      ensures r == AnswerTo(old(View(registry)), Event.UpdateSession(id, patch))
    {
      if id == "" { return MalformedSessionEvent; }
      var known := registry.UpdateSession(id, patch);
      assert Links() == old(Links());
      return if known then Done else UnknownSession;
    }

    method RemoveSession(id: string, registry: SessionRegistry) returns (r: Answer)
      requires Valid()
      modifies Parts(), registry
      ensures Valid() && View(registry) == Step(old(View(registry)), Event.RemoveSession(id))
      ensures r == AnswerTo(old(View(registry)), Event.RemoveSession(id))
    {
      if id == "" { return MalformedSessionEvent; }
      Detach(id);
      var removed := registry.RemoveSession(id);
      return if removed then Done else UnknownSession;
    }

    method Detach(id: string)
      requires Valid()
      modifies Parts()
      ensures Valid() && Links() == Detached(old(Links()), id)
    {
      var left := connections.Keys;
      while left != {}
        invariant left <= connections.Keys && Valid()
        invariant forall d :: d in connections ==>
                    connections[d].heartbeat.View() == old(connections[d].heartbeat.View())
        invariant forall d :: d in left ==> connections[d].sessionId == old(connections[d].sessionId)
        invariant forall d :: d in connections && d !in left ==>
                    connections[d].sessionId ==
                    if old(connections[d].sessionId) == Some(id) then None else old(connections[d].sessionId)
      {
        var c :| c in left;
        if connections[c].sessionId == Some(id) { connections[c].sessionId := None; }
        left := left - {c};
      }
    }

    method RemoveConnection(c: string, since: int, registry: SessionRegistry) returns (r: Answer)
      requires Valid()
      modifies this`connections, registry
      ensures Valid() && View(registry) == Step(old(View(registry)), Event.RemoveConnection(c, since))
      ensures r == AnswerTo(old(View(registry)), Event.RemoveConnection(c, since))
    {
      if c !in connections { return Removed(false); }
      var instance := connections[c].instanceId;
      connections := connections - {c};
      assert Links() == old(Links()) - {c};
      var removed := registry.RemoveRuntime(instance, since);
      return Removed(removed);
    }
  }
}
