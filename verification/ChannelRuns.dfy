/** Heartbeats over every run of the channel: which pongs are accepted, and when a
    connection is closed. */
module ChannelRuns {
  import opened Wrappers
  import opened Heartbeat
  import opened Channel

  // What the run did to heartbeats, in order. A ping carries the number of its id.
  datatype Entry =
    | Registered(c: string)
    | Gone(c: string)
    | PingSent(c: string, n: nat)
    | PongTaken(c: string, response: string)
    | PongMissed(c: string, closed: bool)

  function Emitted(s: System, e: Event): seq<Entry> {
    match e
    case Register(c, valid, instance, _) => if AnswerTo(s, e).Done? then [Registered(c)] else []
    case RemoveConnection(c, _) => if c in s.links then [Gone(c)] else []
    case StartPing(c) => if c in s.links then [PingSent(c, s.nextPing)] else []
    case Pong(c, response) => if AnswerTo(s, e) == Accepted(true) then [PongTaken(c, response)] else []
    case Timeout(c, _) => if c in s.links then [PongMissed(c, AnswerTo(s, e).verdict.Close?)] else []
    case _ => []
  }

  function Run(s: System, es: seq<Event>): System {
    if es == [] then s else Step(Run(s, es[..|es| - 1]), es[|es| - 1])
  }

  function After(es: seq<Event>): System {
    Run(Initial(), es)
  }

  function Trail(es: seq<Event>): seq<Entry> {
    if es == [] then [] else Trail(es[..|es| - 1]) + Emitted(After(es[..|es| - 1]), es[|es| - 1])
  }

  // ---------------------------------------------------------------- what the trail says

  // The ping a connection awaits a pong for: its last, unless it was answered, timed
  // out, or the connection was registered anew or removed since.
  function Awaiting(trail: seq<Entry>, c: string): Option<nat> {
    if trail == [] then None
    else
      var last := trail[|trail| - 1];
      if last.c != c then Awaiting(trail[..|trail| - 1], c) else if last.PingSent? then Some(last.n) else None
  }

  // Timeouts of a connection since its registration or last accepted pong.
  function Misses(trail: seq<Entry>, c: string): nat {
    if trail == [] then 0
    else
      var last := trail[|trail| - 1];
      if last.c != c || last.PingSent? then Misses(trail[..|trail| - 1], c)
      else if last.PongMissed? then 1 + Misses(trail[..|trail| - 1], c) else 0
  }

  function BeatOf(awaiting: Option<nat>, misses: nat): Beat {
    Beat(match awaiting case None => None case Some(n) => Some(PingId(n)), if misses < 255 then misses else 255)
  }

  ghost predicate BeatsAgree(s: System, trail: seq<Entry>) {
    forall c :: c in s.links ==> s.links[c].beat == BeatOf(Awaiting(trail, c), Misses(trail, c))
  }

  predicate PingAt(trail: seq<Entry>, i: nat, n: nat) {
    i < |trail| && trail[i].PingSent? && trail[i].n == n
  }

  // Ping numbers only grow.
  ghost predicate PingsGrow(trail: seq<Entry>, next: nat) {
    && (forall i: nat, n: nat :: PingAt(trail, i, n) ==> n < next)
    && (forall i: nat, m: nat, j: nat, n: nat :: i < j && PingAt(trail, i, m) && PingAt(trail, j, n) ==> m < n)
  }

  predicate TakenAt(trail: seq<Entry>, j: nat)
    requires j < |trail|
  {
    trail[j].PongTaken? ==>
      var awaiting := Awaiting(trail[..j], trail[j].c);
      awaiting.Some? && trail[j].response == PingId(awaiting.value)
  }

  predicate DecidedAt(trail: seq<Entry>, j: nat)
    requires j < |trail|
  {
    trail[j].PongMissed? ==> (trail[j].closed <==> Misses(trail[..j + 1], trail[j].c) >= MAX_MISSED_PONGS_BEFORE_CLOSE)
  }

  ghost predicate Justified(trail: seq<Entry>) {
    forall j :: 0 <= j < |trail| ==> TakenAt(trail, j) && DecidedAt(trail, j)
  }

  ghost predicate Invariant(s: System, trail: seq<Entry>) {
    BeatsAgree(s, trail) && PingsGrow(trail, s.nextPing) && Justified(trail)
  }

  // ---------------------------------------------------------------- one step

  lemma Snoc(trail: seq<Entry>, e: Entry, c: string)
    ensures Awaiting(trail + [e], c) ==
            if e.c != c then Awaiting(trail, c) else if e.PingSent? then Some(e.n) else None
    ensures Misses(trail + [e], c) ==
            if e.c != c || e.PingSent? then Misses(trail, c) else if e.PongMissed? then 1 + Misses(trail, c) else 0
  {
    assert (trail + [e])[..|trail|] == trail;
  }

  lemma StepKeepsBeats(s: System, e: Event, trail: seq<Entry>)
    requires BeatsAgree(s, trail)
    ensures BeatsAgree(Step(s, e), trail + Emitted(s, e))
  {
    var next, more := Step(s, e), Emitted(s, e);
    if more == [] {
      assert trail + more == trail;
    } else {
      assert trail + more == trail + [more[0]];
      forall c | c in next.links
        ensures next.links[c].beat == BeatOf(Awaiting(trail + more, c), Misses(trail + more, c))
      {
        Snoc(trail, more[0], c);
      }
    }
  }

  lemma StepKeepsPings(s: System, e: Event, trail: seq<Entry>)
    requires PingsGrow(trail, s.nextPing)
    ensures PingsGrow(trail + Emitted(s, e), Step(s, e).nextPing)
  {
    var all := trail + Emitted(s, e);
    forall i: nat, n: nat | PingAt(all, i, n)
      ensures if i < |trail| then PingAt(trail, i, n) && n < s.nextPing else n == s.nextPing
    {
      if i < |trail| { assert PingAt(trail, i, n); }
    }
  }

  lemma StepIsJustified(s: System, e: Event, trail: seq<Entry>)
    requires BeatsAgree(s, trail) && Justified(trail)
    ensures Justified(trail + Emitted(s, e))
  {
    var more := Emitted(s, e);
    if more == [] {
      assert trail + more == trail;
    } else {
      var entry := more[0];
      assert trail + more == trail + [entry];
      JustifiedGrows(trail, entry, s, e);
    }
  }

  lemma JustifiedGrows(trail: seq<Entry>, entry: Entry, s: System, e: Event)
    requires BeatsAgree(s, trail) && Justified(trail) && Emitted(s, e) == [entry]
    ensures Justified(trail + [entry])
  {
    var all := trail + [entry];
    forall j | 0 <= j < |all| ensures TakenAt(all, j) && DecidedAt(all, j) {
      if j < |trail| {
        assert TakenAt(trail, j) && DecidedAt(trail, j);
        assert all[..j] == trail[..j] && all[..j + 1] == trail[..j + 1];
      } else {
        assert all[..j] == trail && all[..j + 1] == all;
        Snoc(trail, entry, entry.c);
      }
    }
  }

  lemma {:induction false} EveryRunKeepsInvariant(es: seq<Event>)
    ensures Invariant(After(es), Trail(es))
  {
    if es != [] {
      var front, e := es[..|es| - 1], es[|es| - 1];
      EveryRunKeepsInvariant(front);
      StepKeepsBeats(After(front), e, Trail(front));
      StepKeepsPings(After(front), e, Trail(front));
      StepIsJustified(After(front), e, Trail(front));
    }
  }

  // ---------------------------------------------------------------- pongs

  // A pong is accepted exactly when it answers the ping its connection awaits.
  lemma PongIsAcceptedExactly(es: seq<Event>, c: string, response: string)
    ensures AnswerTo(After(es), Pong(c, response)) == Accepted(true)
       <==> c in After(es).links && Awaiting(Trail(es), c).Some? && response == PingId(Awaiting(Trail(es), c).value)
  {
    EveryRunKeepsInvariant(es);
  }

  // The awaited ping was sent on that connection, and nothing has touched the
  // connection's heartbeat since.
  lemma {:induction false} AwaitedWasSent(trail: seq<Entry>, c: string) returns (i: nat)
    requires Awaiting(trail, c).Some?
    ensures PingAt(trail, i, Awaiting(trail, c).value) && trail[i].c == c
    ensures forall m :: i < m < |trail| ==> trail[m].c != c
  {
    var n := |trail| - 1;
    if trail[n].c == c {
      i := n;
    } else {
      i := AwaitedWasSent(trail[..n], c);
    }
  }

  // A pending ping carries the id of an earlier count.
  lemma {:induction false} PendingPingIsOlder(es: seq<Event>, c: string) returns (n: nat)
    requires c in After(es).links && After(es).links[c].beat.pending.Some?
    ensures n < After(es).nextPing && After(es).links[c].beat.pending == Some(PingId(n))
    ensures Awaiting(Trail(es), c) == Some(n)
  {
    EveryRunKeepsInvariant(es);
    n := Awaiting(Trail(es), c).value;
    var i := AwaitedWasSent(Trail(es), c);
    assert PingAt(Trail(es), i, n);
  }

  lemma {:induction false} PendingPingsAreDistinct(es: seq<Event>, c: string, d: string)
    requires c != d && c in After(es).links && d in After(es).links
    requires After(es).links[c].beat.pending.Some? && After(es).links[d].beat.pending.Some?
    ensures After(es).links[c].beat.pending != After(es).links[d].beat.pending
  {
    EveryRunKeepsInvariant(es);
    var m := PendingPingIsOlder(es, c);
    var n := PendingPingIsOlder(es, d);
    var i := AwaitedWasSent(Trail(es), c);
    var j := AwaitedWasSent(Trail(es), d);
    PingIdIsInjective(m, n);
  }

  lemma TakenWasPinged(trail: seq<Entry>, j: nat) returns (i: nat, n: nat)
    requires j < |trail| && trail[j].PongTaken? && TakenAt(trail, j)
    ensures i < j && PingAt(trail, i, n) && trail[i].c == trail[j].c && trail[j].response == PingId(n)
    ensures forall m :: i < m < j ==> trail[m].c != trail[j].c
  {
    n := Awaiting(trail[..j], trail[j].c).value;
    i := AwaitedWasSent(trail[..j], trail[j].c);
    assert forall m :: 0 <= m < j ==> trail[..j][m] == trail[m];
  }

  // An accepted pong answers a ping sent earlier on the same connection, with nothing
  // in between on that connection.
  lemma TakenPongWasPinged(es: seq<Event>, j: nat) returns (i: nat, n: nat)
    requires j < |Trail(es)| && Trail(es)[j].PongTaken?
    ensures i < j && PingAt(Trail(es), i, n) && Trail(es)[i].c == Trail(es)[j].c && Trail(es)[j].response == PingId(n)
    ensures forall m :: i < m < j ==> Trail(es)[m].c != Trail(es)[j].c
  {
    EveryRunKeepsInvariant(es);
    assert TakenAt(Trail(es), j);
    i, n := TakenWasPinged(Trail(es), j);
  }

  // An id is accepted at most once in a run, whatever the connection.
  lemma PongIsTakenOnce(es: seq<Event>, i: nat, j: nat)
    requires i < j < |Trail(es)| && Trail(es)[i].PongTaken? && Trail(es)[j].PongTaken?
    ensures Trail(es)[i].response != Trail(es)[j].response
  {
    EveryRunKeepsInvariant(es);
    TakenOnce(Trail(es), After(es).nextPing, i, j);
  }

  lemma TakenOnce(trail: seq<Entry>, next: nat, i: nat, j: nat)
    requires PingsGrow(trail, next) && Justified(trail)
    requires i < j < |trail| && trail[i].PongTaken? && trail[j].PongTaken?
    ensures trail[i].response != trail[j].response
  {
    assert TakenAt(trail, i) && TakenAt(trail, j);
    var m, x := TakenWasPinged(trail, i);
    var n, y := TakenWasPinged(trail, j);
    PingIdIsInjective(x, y);
  }

  // Pings are numbered from one, also those to connections that are not there.
  lemma {:induction false} PingsAreCounted(es: seq<Event>)
    ensures After(es).nextPing == 1 + Pings(es)
  {
    if es != [] { PingsAreCounted(es[..|es| - 1]); }
  }

  function Pings(es: seq<Event>): nat {
    if es == [] then 0 else Pings(es[..|es| - 1]) + if es[|es| - 1].StartPing? then 1 else 0
  }

  // ---------------------------------------------------------------- misses

  lemma {:induction false} MissCounterIsExact(es: seq<Event>, c: string)
    requires c in After(es).links
    ensures After(es).links[c].beat.missed == if Misses(Trail(es), c) < 255 then Misses(Trail(es), c) else 255
  {
    EveryRunKeepsInvariant(es);
  }

  // A timeout closes the connection with code 4002, and marks its instance stale,
  // exactly when it is the third or later in a row; otherwise it leaves the registry alone.
  lemma {:induction false} CloseIsExact(es: seq<Event>, c: string, since: int)
    requires c in After(es).links
    ensures var s, e := After(es), Timeout(c, since);
            var third := Misses(Trail(es), c) + 1 >= 3;
            && AnswerTo(s, e).Decision?
            && (AnswerTo(s, e).verdict.Close? <==> third)
            && (third ==> AnswerTo(s, e).verdict.code == 4002)
            && Step(s, e).registry ==
               if third then s.registry.MarkInstance(s.links[c].instanceId, since) else s.registry
  {
    EveryRunKeepsInvariant(es);
  }
}
