/** The Word task pane's connection: generation-guarded sockets, the open timeout,
    the endpoint fallback and reconnecting with backoff. */
module Connection {
  import opened Strings
  import opened Wrappers

  // valid tells whether an endpoint is well formed, own whether it is of the page's own
  // origin; trim strips the white space around one.
  datatype Config = Config(origin: string, valid: string -> bool, own: string -> bool, trim: string -> string)

  // What the closures of one connect call share: its endpoint and its failure flag.
  datatype Attempt = Attempt(endpoint: string, hasSocket: bool, failed: bool)

  datatype Entry =
    | Began(g: nat)
    | Failure(g: nat)
    | Reset
    | Scheduled(attempt: nat, delay: int)

  // Pending timers are sets of timer ids; a handle names the timer set last. opens maps
  // a pending open timeout to the generation whose socket it watches.
  datatype State = State(generation: nat, attempts: map<nat, Attempt>, stored: Option<string>, announced: bool,
                         attempt: nat, nextTimer: nat, reconnectHandle: nat, reconnects: set<nat>,
                         openHandle: nat, opens: map<nat, nat>,
                         saves: nat, trail: seq<Entry>)

  datatype Event =
    | Boot(created: bool, jitter: real)
    | ReconnectFires(timer: nat, created: bool, jitter: real)
    | SaveFires(created: bool, jitter: real)
    | OpenTimesOut(timer: nat, jitter: real)
    | Opened(g: nat)
    | Closed(g: nat, jitter: real)
    | Errored(g: nat, jitter: real)
    | AnnounceEnds
    | EndpointSaved(input: string)

  // ---------------------------------------------------------------- the pieces of a step

  function ReconnectDelay(attempt: nat, jitter: real): int {
    var delay := 1000 + attempt * 500 + (jitter * 500.0).Floor;
    if delay < 10000 then delay else 10000
  }

  function Initial(stored: Option<string>): State {
    State(0, map[], stored, false, 0, 1, 0, {}, 0, map[], 0, [])
  }

  // An unusable override is dropped from storage.
  function Stored(config: Config, stored: Option<string>): Option<string> {
    if stored.Some? && stored.value != "" && config.valid(stored.value) && config.own(stored.value) then stored
    else if stored == Some("") then stored
    else None
  }

  function Endpoint(config: Config, stored: Option<string>): string {
    if stored.Some? && stored.value != "" && config.valid(stored.value) && config.own(stored.value) then
      config.trim(stored.value)
    else config.origin
  }

  function ClearReconnect(s: State): State {
    s.(reconnects := s.reconnects - {s.reconnectHandle})
  }

  function ClearOpen(s: State): State {
    s.(opens := s.opens - {s.openHandle})
  }

  function SetReconnect(s: State): State {
    s.(reconnectHandle := s.nextTimer, reconnects := s.reconnects + {s.nextTimer}, nextTimer := s.nextTimer + 1)
  }

  function Schedule(s: State, jitter: real): State {
    var n := s.attempt + 1;
    SetReconnect(s.(attempt := n, trail := s.trail + [Scheduled(n, ReconnectDelay(n, jitter))]))
  }

  function ResetBackoff(s: State): State {
    s.(attempt := 0, trail := s.trail + [Reset])
  }

  function FallBack(s: State): State {
    SetReconnect(ClearReconnect(ResetBackoff(s.(stored := None))))
  }

  predicate FallsBack(config: Config, s: State, g: nat) {
    g in s.attempts && s.attempts[g].endpoint != config.origin
  }

  predicate Handles(s: State, g: nat) {
    g == s.generation && g in s.attempts && !s.attempts[g].failed
  }

  function Blame(s: State, g: nat): State
    requires g in s.attempts
  {
    s.(attempts := s.attempts[g := s.attempts[g].(failed := true)], trail := s.trail + [Failure(g)])
  }

  function Fail(s: State, g: nat, jitter: real): State {
    if Handles(s, g) then Schedule(ClearOpen(Blame(s, g)), jitter) else s
  }

  function FallBackOrFail(config: Config, s: State, g: nat, jitter: real): State {
    if FallsBack(config, s, g) then FallBack(s) else Fail(s, g, jitter)
  }

  function Begin(config: Config, s: State, created: bool): State {
    var cleared, g := ClearOpen(ClearReconnect(s)), s.generation + 1;
    cleared.(generation := g, stored := Stored(config, s.stored),
             attempts := s.attempts[g := Attempt(Endpoint(config, s.stored), created, false)],
             trail := s.trail + [Began(g)])
  }

  function WatchOpen(s: State): State {
    s.(openHandle := s.nextTimer, opens := s.opens[s.nextTimer := s.generation], nextTimer := s.nextTimer + 1)
  }

  function Connect(config: Config, s: State, created: bool, jitter: real): State {
    var begun := Begin(config, s, created);
    if created then WatchOpen(begun) else FallBackOrFail(config, begun, begun.generation, jitter)
  }

  predicate Jitter(x: real) {
    0.0 <= x < 1.0
  }

  predicate HasSocket(s: State, g: nat) {
    g in s.attempts && s.attempts[g].hasSocket
  }

  predicate Enabled(s: State, e: Event) {
    match e
    case Boot(_, x) => s.generation == 0 && Jitter(x)
    case ReconnectFires(t, _, x) => t in s.reconnects && Jitter(x)
    case SaveFires(_, x) => s.saves > 0 && Jitter(x)
    case OpenTimesOut(t, x) => t in s.opens && Jitter(x)
    case Opened(g) => HasSocket(s, g)
    case Closed(g, x) => HasSocket(s, g) && Jitter(x)
    case Errored(g, x) => HasSocket(s, g) && Jitter(x)
    case AnnounceEnds => true
    case EndpointSaved(_) => true
  }

  function Step(config: Config, s: State, e: Event): State
    requires Enabled(s, e)
  {
    match e
    case Boot(created, x) => Connect(config, s, created, x)
    case ReconnectFires(t, created, x) => Connect(config, s.(reconnects := s.reconnects - {t}), created, x)
    case SaveFires(created, x) => Connect(config, s.(saves := s.saves - 1), created, x)
    case OpenTimesOut(t, x) => Fail(s.(opens := s.opens - {t}), s.opens[t], x)
    case Opened(g) => if g != s.generation then s else ResetBackoff(ClearOpen(s))
    case Closed(g, x) =>
      if g != s.generation then s
      else if FallsBack(config, s, g) then FallBack(ClearOpen(s))
      else if !s.announced then Fail(ClearOpen(s), g, x)
      else Schedule(ClearOpen(s), x)
    case Errored(g, x) => if g != s.generation then s else FallBackOrFail(config, s, g, x)
    case AnnounceEnds => s.(announced := true)
    case EndpointSaved(input) =>
      var endpoint := config.trim(input);
      if config.valid(endpoint) then s.(stored := Some(endpoint), saves := s.saves + 1) else s
  }

  // The state after a run; an event that cannot happen where it stands changes nothing.
  function After(config: Config, stored: Option<string>, es: seq<Event>): State {
    if es == [] then Initial(stored)
    else
      var s := After(config, stored, es[..|es| - 1]);
      if Enabled(s, es[|es| - 1]) then Step(config, s, es[|es| - 1]) else s
  }

  // ---------------------------------------------------------------- what the trail says

  // The generation begun last.
  function Current(trail: seq<Entry>): nat {
    if trail == [] then 0
    else if trail[|trail| - 1].Began? then trail[|trail| - 1].g
    else Current(trail[..|trail| - 1])
  }

  predicate HasFailure(trail: seq<Entry>, g: nat) {
    trail != [] && (trail[|trail| - 1] == Failure(g) || HasFailure(trail[..|trail| - 1], g))
  }

  // Reconnects scheduled with backoff since the last reset.
  function SinceReset(trail: seq<Entry>): nat {
    if trail == [] || trail[|trail| - 1].Reset? then 0
    else SinceReset(trail[..|trail| - 1]) + if trail[|trail| - 1].Scheduled? then 1 else 0
  }

  predicate DelayFits(attempt: nat, delay: int) {
    Min(10000, 1000 + attempt * 500) <= delay <= Min(10000, 1499 + attempt * 500)
  }

  predicate Follows(trail: seq<Entry>, e: Entry) {
    match e
    case Began(g) => g == Current(trail) + 1
    case Failure(g) => g == Current(trail) && !HasFailure(trail, g)
    case Scheduled(attempt, delay) => attempt == SinceReset(trail) + 1 && DelayFits(attempt, delay)
    case Reset => true
  }

  predicate EntryFits(trail: seq<Entry>, j: nat)
    requires j < |trail|
  {
    Follows(trail[..j], trail[j])
  }

  ghost predicate Fits(trail: seq<Entry>) {
    forall j :: 0 <= j < |trail| ==> EntryFits(trail, j)
  }

  ghost predicate FailureAgrees(trail: seq<Entry>, attempts: map<nat, Attempt>, g: nat) {
    HasFailure(trail, g) <==> g in attempts && attempts[g].failed
  }

  // The trail tells the generation, the backoff count and which attempts have failed.
  ghost predicate Tells(trail: seq<Entry>, generation: nat, attempt: nat, attempts: map<nat, Attempt>) {
    && Fits(trail) && Current(trail) == generation && SinceReset(trail) == attempt
    && (forall g :: g in attempts <==> 1 <= g <= generation)
    && (forall g: nat :: FailureAgrees(trail, attempts, g))
  }

  // A pending open timeout is the one set last and watches the current generation.
  ghost predicate Timed(s: State) {
    && (forall t :: t in s.opens ==> t == s.openHandle && s.opens[t] == s.generation)
    && (forall t :: t in s.reconnects ==> t < s.nextTimer)
  }

  ghost predicate Invariant(s: State) {
    Tells(s.trail, s.generation, s.attempt, s.attempts) && Timed(s)
  }

  // ---------------------------------------------------------------- every piece keeps it

  lemma FitsGrow(trail: seq<Entry>, e: Entry)
    requires Fits(trail) && Follows(trail, e)
    ensures Fits(trail + [e])
  {
    var more := trail + [e];
    forall j | 0 <= j < |more| ensures EntryFits(more, j) {
      if j < |trail| {
        assert more[..j] == trail[..j] && EntryFits(trail, j);
      } else {
        assert more[..j] == trail;
      }
    }
  }

  lemma Snoc(trail: seq<Entry>, e: Entry)
    ensures Current(trail + [e]) == if e.Began? then e.g else Current(trail)
    ensures SinceReset(trail + [e]) == if e.Reset? then 0 else SinceReset(trail) + if e.Scheduled? then 1 else 0
    ensures forall g: nat :: HasFailure(trail + [e], g) <==> e == Failure(g) || HasFailure(trail, g)
  {
    assert (trail + [e])[..|trail|] == trail;
  }

  // The trail after one more entry, with the attempts as that entry leaves them.
  lemma TellsMore(trail: seq<Entry>, generation: nat, attempt: nat, attempts: map<nat, Attempt>, e: Entry,
                  after: map<nat, Attempt>)
    requires Tells(trail, generation, attempt, attempts) && Follows(trail, e)
    requires match e
             case Began(n) => after.Keys == attempts.Keys + {n} && !after[n].failed
             case Failure(n) => n in attempts && after.Keys == attempts.Keys && after[n].failed
             case _ => after.Keys == attempts.Keys
    requires forall g :: g in attempts && e != Failure(g) ==> g in after && after[g] == attempts[g]
    ensures Tells(trail + [e], if e.Began? then e.g else generation,
                  if e.Reset? then 0 else if e.Scheduled? then attempt + 1 else attempt, after)
  {
    FitsGrow(trail, e);
    Snoc(trail, e);
    forall g: nat ensures FailureAgrees(trail + [e], after, g) {
      assert FailureAgrees(trail, attempts, g);
    }
  }

  lemma DelayIsBounded(attempt: nat, jitter: real)
    requires Jitter(jitter)
    ensures DelayFits(attempt, ReconnectDelay(attempt, jitter))
  {}

  lemma ScheduleKeeps(s: State, jitter: real)
    requires Invariant(s) && Jitter(jitter)
    ensures Invariant(Schedule(s, jitter))
  {
    DelayIsBounded(s.attempt + 1, jitter);
    TellsMore(s.trail, s.generation, s.attempt, s.attempts,
              Scheduled(s.attempt + 1, ReconnectDelay(s.attempt + 1, jitter)), s.attempts);
  }

  lemma ResetKeeps(s: State)
    requires Invariant(s)
    ensures Invariant(ResetBackoff(s))
  {
    TellsMore(s.trail, s.generation, s.attempt, s.attempts, Reset, s.attempts);
  }

  lemma BlameKeeps(s: State, g: nat)
    requires Invariant(s) && Handles(s, g)
    ensures Invariant(Blame(s, g))
  {
    assert FailureAgrees(s.trail, s.attempts, g);
    TellsMore(s.trail, s.generation, s.attempt, s.attempts, Failure(g), Blame(s, g).attempts);
  }

  lemma FailKeeps(s: State, g: nat, jitter: real)
    requires Invariant(s) && Jitter(jitter)
    ensures Invariant(Fail(s, g, jitter))
  {
    if Handles(s, g) {
      BlameKeeps(s, g);
      ScheduleKeeps(ClearOpen(Blame(s, g)), jitter);
    }
  }

  lemma ClearOpenKeeps(s: State)
    requires Invariant(s)
    ensures Invariant(ClearOpen(s))
  {}

  lemma FallBackKeeps(s: State)
    requires Invariant(s)
    ensures Invariant(FallBack(s))
  {
    ResetKeeps(s.(stored := None));
  }

  lemma BeginKeeps(config: Config, s: State, created: bool)
    requires Invariant(s)
    ensures Invariant(Begin(config, s, created)) && Begin(config, s, created).opens == map[]
  {
    var begun := Begin(config, s, created);
    assert begun.attempts.Keys == s.attempts.Keys + {begun.generation};
    TellsMore(s.trail, s.generation, s.attempt, s.attempts, Began(s.generation + 1), begun.attempts);
  }

  lemma ConnectKeeps(config: Config, s: State, created: bool, jitter: real)
    requires Invariant(s) && Jitter(jitter)
    ensures Invariant(Connect(config, s, created, jitter))
  {
    var begun := Begin(config, s, created);
    BeginKeeps(config, s, created);
    if !created {
      if FallsBack(config, begun, begun.generation) {
        FallBackKeeps(begun);
      } else {
        FailKeeps(begun, begun.generation, jitter);
      }
    }
  }

  lemma FiringKeeps(s: State, t: nat)
    requires Invariant(s)
    ensures Invariant(s.(opens := s.opens - {t})) && Invariant(s.(reconnects := s.reconnects - {t}))
  {}

  lemma TimeoutKeeps(s: State, t: nat, jitter: real)
    requires Invariant(s) && Jitter(jitter) && t in s.opens
    ensures Invariant(Fail(s.(opens := s.opens - {t}), s.opens[t], jitter))
  {
    FiringKeeps(s, t);
    FailKeeps(s.(opens := s.opens - {t}), s.opens[t], jitter);
  }

  lemma CloseKeeps(config: Config, s: State, g: nat, jitter: real)
    requires Invariant(s) && Jitter(jitter) && Enabled(s, Closed(g, jitter))
    ensures Invariant(Step(config, s, Closed(g, jitter)))
  {
    ClearOpenKeeps(s);
    FallBackKeeps(ClearOpen(s));
    FailKeeps(ClearOpen(s), g, jitter);
    ScheduleKeeps(ClearOpen(s), jitter);
  }

  lemma OpenKeeps(config: Config, s: State, g: nat)
    requires Invariant(s) && Enabled(s, Opened(g))
    ensures Invariant(Step(config, s, Opened(g)))
  {
    ClearOpenKeeps(s);
    ResetKeeps(ClearOpen(s));
  }

  lemma ErrorKeeps(config: Config, s: State, g: nat, jitter: real)
    requires Invariant(s) && Jitter(jitter) && Enabled(s, Errored(g, jitter))
    ensures Invariant(Step(config, s, Errored(g, jitter)))
  {
    FallBackKeeps(s);
    FailKeeps(s, g, jitter);
  }

  lemma ReconnectKeeps(config: Config, s: State, t: nat, created: bool, jitter: real)
    requires Invariant(s) && Enabled(s, ReconnectFires(t, created, jitter))
    ensures Invariant(Step(config, s, ReconnectFires(t, created, jitter)))
  {
    FiringKeeps(s, t);
    ConnectKeeps(config, s.(reconnects := s.reconnects - {t}), created, jitter);
  }

  lemma SaveKeeps(config: Config, s: State, created: bool, jitter: real)
    requires Invariant(s) && Enabled(s, SaveFires(created, jitter))
    ensures Invariant(Step(config, s, SaveFires(created, jitter)))
  {
    ConnectKeeps(config, s.(saves := s.saves - 1), created, jitter);
  }

  lemma SettingKeeps(config: Config, s: State, e: Event)
    requires Invariant(s) && (e.AnnounceEnds? || e.EndpointSaved?)
    ensures Invariant(Step(config, s, e))
  {}

  lemma {:induction false} StepKeeps(config: Config, s: State, e: Event)
    requires Invariant(s) && Enabled(s, e)
    ensures Invariant(Step(config, s, e))
  {
    match e
    case Boot(created, x) => ConnectKeeps(config, s, created, x);
    case ReconnectFires(t, created, x) => ReconnectKeeps(config, s, t, created, x);
    case SaveFires(created, x) => SaveKeeps(config, s, created, x);
    case OpenTimesOut(t, x) => TimeoutKeeps(s, t, x);
    case Opened(g) => OpenKeeps(config, s, g);
    case Closed(g, x) => CloseKeeps(config, s, g, x);
    case Errored(g, x) => ErrorKeeps(config, s, g, x);
    case AnnounceEnds => SettingKeeps(config, s, e);
    case EndpointSaved(_) => SettingKeeps(config, s, e);
  }

  lemma {:induction false} EveryRunKeepsInvariant(config: Config, stored: Option<string>, es: seq<Event>)
    ensures Invariant(After(config, stored, es))
  {
    if es != [] {
      var before, e := After(config, stored, es[..|es| - 1]), es[|es| - 1];
      EveryRunKeepsInvariant(config, stored, es[..|es| - 1]);
      if Enabled(before, e) { StepKeeps(config, before, e); }
    }
  }

  // ---------------------------------------------------------------- generations

  // At most one open timeout is pending, and it watches the current generation, so a
  // timeout never fails a superseded socket.
  lemma {:induction false} OpenTimeoutIsCurrent(config: Config, stored: Option<string>, es: seq<Event>)
    ensures var s := After(config, stored, es); s.opens == map[] || s.opens == map[s.openHandle := s.generation]
  {
    var s := After(config, stored, es);
    EveryRunKeepsInvariant(config, stored, es);
    if s.opens != map[] {
      var t :| t in s.opens;
      assert s.opens.Keys == {s.openHandle};
    }
  }

  lemma {:induction false} SupersededEventsChangeNothing(config: Config, stored: Option<string>, es: seq<Event>,
                                                         e: Event)
    requires (e.Opened? || e.Closed? || e.Errored?) && Enabled(After(config, stored, es), e)
    ensures var s := After(config, stored, es);
            e.g <= s.generation && (e.g < s.generation ==> Step(config, s, e) == s)
  {
    EveryRunKeepsInvariant(config, stored, es);
  }

  lemma {:induction false} CurrentGrows(trail: seq<Entry>, i: nat, j: nat)
    requires Fits(trail) && i <= j <= |trail|
    ensures Current(trail[..i]) <= Current(trail[..j])
  {
    if i < j {
      CurrentGrows(trail, i, j - 1);
      assert EntryFits(trail, j - 1);
      assert trail[..j] == trail[..j - 1] + [trail[j - 1]];
      Snoc(trail[..j - 1], trail[j - 1]);
    }
  }

  lemma {:induction false} FailureIsSeen(trail: seq<Entry>, i: nat, j: nat, g: nat)
    requires i < j <= |trail| && trail[i] == Failure(g)
    ensures HasFailure(trail[..j], g)
  {
    assert trail[..j][..j - 1] == trail[..j - 1];
    if i < j - 1 { FailureIsSeen(trail, i, j - 1, g); }
  }

  // Failure handling takes effect while its generation is the current one, and never
  // twice for a generation.
  lemma {:induction false} FailureIsTimelyAndUnique(config: Config, stored: Option<string>, es: seq<Event>, i: nat,
                                                    j: nat)
    requires var trail := After(config, stored, es).trail; i < j < |trail| && trail[i].Failure? && trail[j].Failure?
    ensures var trail := After(config, stored, es).trail;
            Current(trail[..i]) == trail[i].g < trail[j].g == Current(trail[..j])
  {
    EveryRunKeepsInvariant(config, stored, es);
    var trail := After(config, stored, es).trail;
    FailuresGrow(trail, i, j, trail[i].g, trail[j].g);
  }

  lemma FailuresGrow(trail: seq<Entry>, i: nat, j: nat, g: nat, h: nat)
    requires Fits(trail) && i < j < |trail| && trail[i] == Failure(g) && trail[j] == Failure(h)
    ensures Current(trail[..i]) == g < h == Current(trail[..j])
  {
    CurrentGrows(trail, i, j);
    FailureIsSeen(trail, i, j, g);
    FailureFollows(trail, i);
    FailureFollows(trail, j);
  }

  lemma FailureFollows(trail: seq<Entry>, j: nat)
    requires Fits(trail) && j < |trail| && trail[j].Failure?
    ensures Current(trail[..j]) == trail[j].g && !HasFailure(trail[..j], trail[j].g)
  {
    assert EntryFits(trail, j);
  }

  // ---------------------------------------------------------------- backoff

  lemma {:induction false} SinceResetGrows(trail: seq<Entry>, i: nat, j: nat)
    requires i <= j <= |trail| && forall k :: i <= k < j ==> !trail[k].Reset?
    ensures SinceReset(trail[..i]) <= SinceReset(trail[..j])
  {
    if i < j {
      SinceResetGrows(trail, i, j - 1);
      assert trail[..j] == trail[..j - 1] + [trail[j - 1]];
      Snoc(trail[..j - 1], trail[j - 1]);
    }
  }

  // Whatever the jitter, between two resets the delays never shrink and grow strictly
  // until they reach ten seconds, which they do by the eighteenth attempt.
  lemma {:induction false} BackoffGrows(config: Config, stored: Option<string>, es: seq<Event>, i: nat, j: nat)
    requires var trail := After(config, stored, es).trail;
             && i < j < |trail| && trail[i].Scheduled? && trail[j].Scheduled?
             && forall k :: i < k < j ==> !trail[k].Reset?
    ensures var trail := After(config, stored, es).trail;
            && trail[i].attempt < trail[j].attempt
            && (trail[i].delay < trail[j].delay || trail[i].delay == trail[j].delay == 10000)
  {
    EveryRunKeepsInvariant(config, stored, es);
    DelaysGrow(After(config, stored, es).trail, i, j);
  }

  lemma DelaysGrow(trail: seq<Entry>, i: nat, j: nat)
    requires Fits(trail) && i < j < |trail| && trail[i].Scheduled? && trail[j].Scheduled?
    requires forall k :: i < k < j ==> !trail[k].Reset?
    ensures trail[i].attempt < trail[j].attempt
    ensures trail[i].delay < trail[j].delay || trail[i].delay == trail[j].delay == 10000
  {
    ScheduledFollows(trail, i);
    ScheduledFollows(trail, j);
    SinceResetGrows(trail, i + 1, j);
    assert trail[..i + 1] == trail[..i] + [trail[i]];
    Snoc(trail[..i], trail[i]);
  }

  lemma ScheduledFollows(trail: seq<Entry>, j: nat)
    requires Fits(trail) && j < |trail| && trail[j].Scheduled?
    ensures trail[j].attempt == SinceReset(trail[..j]) + 1 && DelayFits(trail[j].attempt, trail[j].delay)
  {
    assert EntryFits(trail, j);
  }

  lemma {:induction false} DelaysAreBounded(config: Config, stored: Option<string>, es: seq<Event>, j: nat)
    requires var trail := After(config, stored, es).trail; j < |trail| && trail[j].Scheduled?
    ensures var trail := After(config, stored, es).trail;
            && 1500 <= trail[j].delay <= 10000
            && (trail[j].attempt >= 18 ==> trail[j].delay == 10000)
            && trail[j].attempt == SinceReset(trail[..j]) + 1
  {
    EveryRunKeepsInvariant(config, stored, es);
    ScheduledFollows(After(config, stored, es).trail, j);
  }

  // ---------------------------------------------------------------- how many reconnect timers

  // No reconnect timer is pending that a clear would miss.
  ghost predicate Tidy(s: State) {
    s.reconnects <= {s.reconnectHandle}
  }

  // The event schedules a reconnect without clearing the one already pending.
  predicate Doubles(config: Config, s: State, e: Event) {
    && s.reconnects != {}
    && match e
       case OpenTimesOut(t, _) => t in s.opens && Handles(s, s.opens[t])
       case Closed(g, _) => g == s.generation && !FallsBack(config, s, g) && (s.announced || Handles(s, g))
       case Errored(g, _) => !FallsBack(config, s, g) && Handles(s, g)
       case _ => false
  }

  lemma ConnectIsTidy(config: Config, s: State, created: bool, jitter: real)
    requires Tidy(s)
    ensures Tidy(Connect(config, s, created, jitter))
  {
    assert ClearReconnect(s).reconnects == {};
  }

  lemma TidyIsKeptExactly(config: Config, s: State, e: Event)
    requires Invariant(s) && Tidy(s) && Enabled(s, e)
    ensures Tidy(Step(config, s, e)) <==> !Doubles(config, s, e)
  {
    match e
    case Boot(created, x) => ConnectIsTidy(config, s, created, x);
    case ReconnectFires(t, created, x) => ConnectIsTidy(config, s.(reconnects := s.reconnects - {t}), created, x);
    case SaveFires(created, x) => ConnectIsTidy(config, s.(saves := s.saves - 1), created, x);
    case _ =>
      assert s.reconnects == {} || s.reconnects == {s.reconnectHandle};
      assert s.reconnects != {} ==> s.reconnectHandle in s.reconnects && s.reconnectHandle < s.nextTimer;
  }

  // Event n of the run schedules a reconnect while one is pending.
  predicate DoublesAt(config: Config, stored: Option<string>, es: seq<Event>, n: nat)
    requires n < |es|
  {
    var s := After(config, stored, es[..n]);
    Enabled(s, es[n]) && Doubles(config, s, es[n])
  }

  lemma DoublingSetsTwo(config: Config, s: State, e: Event)
    requires Invariant(s) && Tidy(s) && Enabled(s, e)
    ensures |Step(config, s, e).reconnects| == 2 || !Doubles(config, s, e)
  {
    if Doubles(config, s, e) {
      assert s.reconnects == {s.reconnectHandle} && s.reconnectHandle < s.nextTimer;
      assert Step(config, s, e).reconnects == {s.reconnectHandle, s.nextTimer};
    }
  }

  // At most one reconnect timer is pending as long as no event doubles it; the first
  // event that does leaves two, one of them out of reach of every clear.
  lemma {:induction false} RunsStayTidyExactly(config: Config, stored: Option<string>, es: seq<Event>)
    requires forall n :: 0 <= n < |es| - 1 ==> !DoublesAt(config, stored, es, n)
    ensures var s, doubled := After(config, stored, es), es != [] && DoublesAt(config, stored, es, |es| - 1);
            && (Tidy(s) <==> !doubled)
            && (if doubled then |s.reconnects| == 2 else |s.reconnects| <= 1)
  {
    var after := After(config, stored, es);
    if es != [] {
      var front, e := es[..|es| - 1], es[|es| - 1];
      var s := After(config, stored, front);
      forall n | 0 <= n < |front| ensures !DoublesAt(config, stored, front, n) {
        assert front[..n] == es[..n] && !DoublesAt(config, stored, es, n);
      }
      RunsStayTidyExactly(config, stored, front);
      EveryRunKeepsInvariant(config, stored, front);
      if Enabled(s, e) {
        TidyIsKeptExactly(config, s, e);
        DoublingSetsTwo(config, s, e);
      }
    }
    if Tidy(after) { assert after.reconnects == {} || after.reconnects == {after.reconnectHandle}; }
  }

  // So a connect misses a timer exactly after such an event, and then it misses one.
  lemma {:induction false} TimerOutlivesClearExactly(config: Config, stored: Option<string>, es: seq<Event>)
    requires forall n :: 0 <= n < |es| - 1 ==> !DoublesAt(config, stored, es, n)
    ensures var doubled := es != [] && DoublesAt(config, stored, es, |es| - 1);
            |ClearReconnect(After(config, stored, es)).reconnects| == if doubled then 1 else 0
  {
    var s := After(config, stored, es);
    RunsStayTidyExactly(config, stored, es);
    ClearIsCompleteExactly(s);
    if es != [] && DoublesAt(config, stored, es, |es| - 1) {
      var front, e := es[..|es| - 1], es[|es| - 1];
      var before := After(config, stored, front);
      EveryRunKeepsInvariant(config, stored, front);
      assert s.reconnectHandle == before.nextTimer && s.reconnectHandle in s.reconnects;
    }
  }

  // A clear reaches every pending timer exactly in a tidy state.
  lemma ClearIsCompleteExactly(s: State)
    ensures ClearReconnect(s).reconnects == {} <==> Tidy(s)
  {
    var left := ClearReconnect(s).reconnects;
    forall t | t in s.reconnects ensures t == s.reconnectHandle || t in left {}
    assert forall t :: t in left ==> t in s.reconnects && t != s.reconnectHandle;
  }

  // Before the first announcement, and on the page's own endpoint, a pending reconnect
  // means the current attempt has failed already, so no second timer is ever set.
  ghost predicate Quiet(config: Config, s: State) {
    && Tidy(s) && !s.announced && s.stored == None && s.saves == 0
    && (forall g :: g in s.attempts ==> s.attempts[g].endpoint == config.origin)
    && (s.reconnects != {} ==> !Handles(s, s.generation))
  }

  lemma {:induction false} OneTimerBeforeAnnouncement(config: Config, es: seq<Event>)
    requires forall k :: 0 <= k < |es| ==> !es[k].AnnounceEnds? && !es[k].EndpointSaved?
    ensures Quiet(config, After(config, None, es)) && |After(config, None, es).reconnects| <= 1
  {
    var s := After(config, None, es);
    if es != [] {
      var front, e := es[..|es| - 1], es[|es| - 1];
      OneTimerBeforeAnnouncement(config, front);
      EveryRunKeepsInvariant(config, None, front);
      if Enabled(After(config, None, front), e) { QuietStep(config, After(config, None, front), e); }
    }
    assert s.reconnects == {} || s.reconnects == {s.reconnectHandle};
  }

  lemma QuietStep(config: Config, s: State, e: Event)
    requires Invariant(s) && Quiet(config, s) && Enabled(s, e) && !e.AnnounceEnds? && !e.EndpointSaved?
    ensures Quiet(config, Step(config, s, e))
  {
    TidyIsKeptExactly(config, s, e);
    match e
    case Boot(created, x) => ConnectIsQuiet(config, s, created, x);
    case ReconnectFires(t, created, x) => ConnectIsQuiet(config, s.(reconnects := s.reconnects - {t}), created, x);
    case _ =>
  }

  lemma ConnectIsQuiet(config: Config, s: State, created: bool, jitter: real)
    requires Tidy(s) && !s.announced && s.stored == None && s.saves == 0
    requires forall g :: g in s.attempts ==> s.attempts[g].endpoint == config.origin
    ensures Quiet(config, Connect(config, s, created, jitter))
  {
    ConnectIsTidy(config, s, created, jitter);
    assert Begin(config, s, created).reconnects == {};
  }

  // After an announcement, an error followed by the close of the same socket sets two.
  lemma ErrorThenCloseSetsTwoTimers(config: Config, s: State, x: real, y: real)
    requires Invariant(s) && s.announced && s.reconnects == {} && Jitter(x) && Jitter(y)
    requires Handles(s, s.generation) && HasSocket(s, s.generation) && !FallsBack(config, s, s.generation)
    ensures var g := s.generation;
            var after := Step(config, Step(config, s, Errored(g, x)), Closed(g, y));
            !Tidy(after) && after.reconnects == {s.nextTimer, s.nextTimer + 1}
            && after.reconnectHandle == s.nextTimer + 1
  {}

  // The timer no clear can reach outlives the reconnect: when it fires, it supersedes
  // the open socket of the new generation without closing it.
  lemma StrayTimerSupersedesOpenSocket(config: Config, s: State, stray: nat, x: real, y: real)
    requires Invariant(s) && stray in s.reconnects && s.reconnectHandle in s.reconnects && stray != s.reconnectHandle
    requires Jitter(x) && Jitter(y)
    ensures var g := s.generation + 1;
            var open := Step(config, Step(config, s, ReconnectFires(s.reconnectHandle, true, x)), Opened(g));
            && open.generation == g && HasSocket(open, g) && Enabled(open, ReconnectFires(stray, true, y))
            && var after := Step(config, open, ReconnectFires(stray, true, y));
               after.generation == g + 1 && HasSocket(after, g) && Step(config, after, Closed(g, y)) == after
  {}

  lemma OneMore(config: Config, stored: Option<string>, es: seq<Event>, e: Event)
    ensures var s := After(config, stored, es);
            After(config, stored, es + [e]) == if Enabled(s, e) then Step(config, s, e) else s
  {
    assert (es + [e])[..|es|] == es;
  }

  // ---------------------------------------------------------------- where attempts go

  predicate Starts(e: Event) {
    e.Boot? || e.ReconnectFires? || e.SaveFires?
  }

  // The state a start event's connect begins in.
  function Fired(s: State, e: Event): State
    requires Starts(e)
  {
    match e
    case ReconnectFires(t, _, _) => s.(reconnects := s.reconnects - {t})
    case SaveFires(_, _) => if s.saves > 0 then s.(saves := s.saves - 1) else s
    case _ => s
  }

  lemma StartConnects(config: Config, stored: Option<string>, es: seq<Event>, e: Event)
    requires Starts(e) && Enabled(After(config, stored, es), e)
    ensures After(config, stored, es + [e]) == Connect(config, Fired(After(config, stored, es), e), e.created, e.jitter)
  {
    OneMore(config, stored, es, e);
  }

  lemma StartStep(config: Config, s: State, e: Event)
    requires Starts(e) && Enabled(s, e)
    ensures Step(config, s, e) == Connect(config, Fired(s, e), e.created, e.jitter) && Jitter(e.jitter)
    ensures Fired(s, e).attempts == s.attempts && Fired(s, e).stored == s.stored
    ensures Invariant(s) ==> Invariant(Fired(s, e))
  {}

  // The attempt a connect in state s makes: to the stored endpoint, trimmed, if that is well
  // formed and of the page's own origin, and otherwise to the page's own endpoint.
  ghost predicate GoesToStored(config: Config, s: State, after: State, created: bool) {
    && after.generation == s.generation + 1 && after.generation in after.attempts
    && var attempt, own := after.attempts[after.generation], config.origin;
       && (attempt.hasSocket <==> created)
       && (s.stored.None? ==> attempt.endpoint == own)
       && (s.stored.Some? ==>
             var text := s.stored.value;
             if text != "" && config.valid(text) && config.own(text) then attempt.endpoint == config.trim(text)
             else attempt.endpoint == own && after.stored == if text == "" then s.stored else None)
       && (created && attempt.endpoint != own ==> after.stored == s.stored)
  }

  lemma BeginGoesToStored(config: Config, s: State, created: bool)
    ensures GoesToStored(config, s, Begin(config, s, created), created)
  {}

  lemma ConnectGoesToStored(config: Config, s: State, created: bool, jitter: real)
    ensures GoesToStored(config, s, Connect(config, s, created, jitter), created)
  {
    var begun, after := Begin(config, s, created), Connect(config, s, created, jitter);
    BeginGoesToStored(config, s, created);
    assert after.generation == begun.generation && after.generation in after.attempts;
    assert after.attempts[after.generation].(failed := false) == begun.attempts[begun.generation];
    assert after.stored == begun.stored || after.stored == None;
  }

  lemma {:induction false} AttemptGoesToStored(config: Config, stored: Option<string>, es: seq<Event>, e: Event)
    requires Starts(e) && Enabled(After(config, stored, es), e)
    ensures GoesToStored(config, After(config, stored, es), After(config, stored, es + [e]), e.created)
  {
    StartConnects(config, stored, es, e);
    ConnectGoesToStored(config, Fired(After(config, stored, es), e), e.created, e.jitter);
  }

  // An endpoint just saved is where the next connect goes, if it may.
  lemma {:induction false} SavedEndpointIsNext(config: Config, stored: Option<string>, es: seq<Event>, input: string,
                                               e: Event)
    requires config.valid(config.trim(input)) && config.trim(input) != "" && config.own(config.trim(input))
    requires Starts(e) && Enabled(After(config, stored, es + [EndpointSaved(input)]), e)
    ensures var saved, after := After(config, stored, es + [EndpointSaved(input)]),
                                After(config, stored, es + [EndpointSaved(input)] + [e]);
            && saved.saves == After(config, stored, es).saves + 1
               && saved.generation == After(config, stored, es).generation
            && after.generation in after.attempts
            && after.attempts[after.generation].endpoint == config.trim(config.trim(input))
  {
    OneMore(config, stored, es, EndpointSaved(input));
    AttemptGoesToStored(config, stored, es + [EndpointSaved(input)], e);
  }

  // One that is not well formed changes nothing.
  lemma InvalidEndpointIsRefused(config: Config, stored: Option<string>, es: seq<Event>, input: string)
    requires !config.valid(config.trim(input))
    ensures After(config, stored, es + [EndpointSaved(input)]) == After(config, stored, es)
  {
    OneMore(config, stored, es, EndpointSaved(input));
  }

  // The event finds the current attempt failed at another endpoint than the page's own.
  ghost predicate LosesOverride(config: Config, stored: Option<string>, es: seq<Event>, e: Event) {
    var s, after := After(config, stored, es), After(config, stored, es + [e]);
    && Enabled(s, e)
    && ((e.Closed? && e.g == s.generation) || (e.Errored? && e.g == s.generation) || (Starts(e) && !e.created))
    && after.generation in after.attempts && after.attempts[after.generation].endpoint != config.origin
  }

  // Such an event clears the override, resets the backoff and leaves a reconnect pending;
  // it counts no failure.
  ghost predicate Retries(s: State, after: State) {
    && after.stored == None && after.attempt == 0 && after.reconnectHandle in after.reconnects
    && forall g :: g in after.attempts && after.attempts[g].failed ==> g in s.attempts && s.attempts[g].failed
  }

  lemma FallBackRetries(s: State, before: State)
    requires forall g :: g in s.attempts && s.attempts[g].failed ==> g in before.attempts && before.attempts[g].failed
    ensures Retries(before, FallBack(s))
  {}

  lemma ConnectRetries(config: Config, s: State, before: State, jitter: real)
    requires s.attempts == before.attempts && s.generation + 1 in Connect(config, s, false, jitter).attempts
    requires Connect(config, s, false, jitter).attempts[s.generation + 1].endpoint != config.origin
    ensures Retries(before, Connect(config, s, false, jitter))
  {
    FallBackRetries(Begin(config, s, false), before);
  }

  lemma {:induction false} OverrideIsCleared(config: Config, stored: Option<string>, es: seq<Event>, e: Event)
    requires LosesOverride(config, stored, es, e)
    ensures Retries(After(config, stored, es), After(config, stored, es + [e]))
  {
    if Starts(e) { StartRetries(config, stored, es, e); } else { FailingRetries(config, stored, es, e); }
  }

  lemma StartRetries(config: Config, stored: Option<string>, es: seq<Event>, e: Event)
    requires LosesOverride(config, stored, es, e) && Starts(e)
    ensures Retries(After(config, stored, es), After(config, stored, es + [e]))
  {
    var s := After(config, stored, es);
    StartConnects(config, stored, es, e);
    assert Fired(s, e).attempts == s.attempts && Fired(s, e).generation == s.generation;
    ConnectAddsOne(config, Fired(s, e), false, e.jitter);
    ConnectRetries(config, Fired(s, e), s, e.jitter);
  }

  lemma ConnectAddsOne(config: Config, s: State, created: bool, jitter: real)
    ensures Connect(config, s, created, jitter).generation == s.generation + 1
    ensures s.generation + 1 in Connect(config, s, created, jitter).attempts
  {}

  lemma FailingRetries(config: Config, stored: Option<string>, es: seq<Event>, e: Event)
    requires LosesOverride(config, stored, es, e) && (e.Closed? || e.Errored?)
    ensures Retries(After(config, stored, es), After(config, stored, es + [e]))
  {
    var s := After(config, stored, es);
    OneMore(config, stored, es, e);
    FallBackRetries(if e.Closed? then ClearOpen(s) else s, s);
  }

  // The override is gone, and attempts from generation g on go to the page's own endpoint.
  ghost predicate OnOwnEndpoint(config: Config, s: State, g: nat) {
    && s.stored == None && g <= s.generation + 1
    && forall h :: h in s.attempts && h >= g ==> s.attempts[h].endpoint == config.origin
  }

  lemma OwnEndpointStays(config: Config, s: State, e: Event, g: nat)
    requires Invariant(s) && OnOwnEndpoint(config, s, g) && Enabled(s, e) && !e.EndpointSaved?
    ensures OnOwnEndpoint(config, Step(config, s, e), g)
  {
    if Starts(e) {
      StartStep(config, s, e);
      ConnectOnOwnEndpoint(config, Fired(s, e), e.created, e.jitter, g);
    } else {
      OtherOnOwnEndpoint(config, s, e, g);
    }
  }

  lemma ConnectOnOwnEndpoint(config: Config, s: State, created: bool, jitter: real, g: nat)
    requires Invariant(s) && OnOwnEndpoint(config, s, g)
    ensures OnOwnEndpoint(config, Connect(config, s, created, jitter), g)
  {}

  lemma OtherOnOwnEndpoint(config: Config, s: State, e: Event, g: nat)
    requires OnOwnEndpoint(config, s, g) && Enabled(s, e) && !e.EndpointSaved? && !Starts(e)
    ensures OnOwnEndpoint(config, Step(config, s, e), g)
  {}

  // So a failed override is tried once: until an endpoint is saved again, every later attempt
  // goes to the page's own endpoint and loses no override.
  lemma {:induction false} OverrideIsTriedOnce(config: Config, stored: Option<string>, es: seq<Event>, e: Event,
                                               more: seq<Event>)
    requires LosesOverride(config, stored, es, e)
    requires forall n :: 0 <= n < |more| ==> !more[n].EndpointSaved?
    ensures OnOwnEndpoint(config, After(config, stored, es + [e] + more),
                          After(config, stored, es + [e]).generation + 1)
  {
    var g := After(config, stored, es + [e]).generation + 1;
    if more == [] {
      assert es + [e] + more == es + [e];
      OverrideIsCleared(config, stored, es, e);
      EveryRunKeepsInvariant(config, stored, es + [e]);
    } else {
      var front, last := more[..|more| - 1], more[|more| - 1];
      assert es + [e] + more == es + [e] + front + [last];
      OverrideIsTriedOnce(config, stored, es, e, front);
      OneMore(config, stored, es + [e] + front, last);
      EveryRunKeepsInvariant(config, stored, es + [e] + front);
      var before := After(config, stored, es + [e] + front);
      if Enabled(before, last) { OwnEndpointStays(config, before, last, g); }
    }
  }

  // A reconnect has been scheduled, the next in the row, after what the trail said before.
  ghost predicate Reschedules(s: State, after: State, before: seq<Entry>) {
    && |after.trail| == |before| + 1 && after.trail[..|before|] == before && after.trail[|before|].Scheduled?
    && after.attempt == s.attempt + 1
    && after.reconnectHandle == s.nextTimer && after.reconnects == s.reconnects + {s.nextTimer}
    && after.stored == s.stored && after.generation == s.generation
  }

  // The first timeout of an attempt, or error or close at the page's own endpoint, is its
  // failure, and later ones are nothing; but once a session was announced every close
  // schedules a reconnect, and is no failure.
  lemma {:induction false} LossIsScheduledExactly(config: Config, stored: Option<string>, es: seq<Event>, e: Event)
    requires Enabled(After(config, stored, es), e) && (e.OpenTimesOut? || e.Closed? || e.Errored?)
    requires var s := After(config, stored, es);
             && s.generation in s.attempts
             && (e.OpenTimesOut? || (e.g == s.generation && s.attempts[e.g].endpoint == config.origin))
    ensures var s, after := After(config, stored, es), After(config, stored, es + [e]);
            && (e.Closed? && s.announced ==> Reschedules(s, after, s.trail) && after.attempts == s.attempts)
            && (!(e.Closed? && s.announced) && !s.attempts[s.generation].failed ==>
                  Reschedules(s, after, s.trail + [Failure(s.generation)]) && after.attempts[s.generation].failed)
            && (!(e.Closed? && s.announced) && s.attempts[s.generation].failed ==>
                  after.(opens := s.opens) == s)
  {
    OneMore(config, stored, es, e);
    EveryRunKeepsInvariant(config, stored, es);
  }

  // A generation was begun, failed and had its reconnect scheduled.
  ghost predicate FailsAtOnce(s: State, after: State) {
    var g := s.generation + 1;
    && g in after.attempts && after.attempts[g].failed && after.attempt == s.attempt + 1
    && |after.trail| == |s.trail| + 3 && after.trail[..|s.trail| + 2] == s.trail + [Began(g)] + [Failure(g)]
    && after.trail[|s.trail| + 2].Scheduled? && after.opens == s.opens - {s.openHandle}
    && after.reconnectHandle == s.nextTimer && s.nextTimer in after.reconnects
  }

  lemma ConnectFails(config: Config, s: State, jitter: real)
    requires Begin(config, s, false).attempts[s.generation + 1].endpoint == config.origin
    ensures FailsAtOnce(s, Connect(config, s, false, jitter))
  {}

  // A socket that cannot be created at the page's own endpoint is a failure at once.
  lemma {:induction false} CreationFailureIsScheduled(config: Config, stored: Option<string>, es: seq<Event>, e: Event)
    requires Starts(e) && !e.created && Enabled(After(config, stored, es), e)
    requires Endpoint(config, After(config, stored, es).stored) == config.origin
    ensures FailsAtOnce(After(config, stored, es), After(config, stored, es + [e]))
  {
    var s := After(config, stored, es);
    StartConnects(config, stored, es, e);
    ConnectFails(config, Fired(s, e), e.jitter);
    FiredFails(s, e, After(config, stored, es + [e]));
  }

  lemma FiredFails(s: State, e: Event, after: State)
    requires Starts(e) && FailsAtOnce(Fired(s, e), after)
    ensures FailsAtOnce(s, after)
  {}

  // ---------------------------------------------------------------- the pane never stalls

  // After a begin the new socket is being watched, after a scheduling the newest timer is
  // pending, and a failure is never the last thing that happened.
  ghost predicate Alive(s: State) {
    && (s.trail == [] <==> s.generation == 0)
    && (s.trail != [] ==>
          var last := s.trail[|s.trail| - 1];
          && !last.Failure?
          && (last.Began? ==> last.g == s.generation && s.opens == map[s.openHandle := s.generation])
          && (last.Scheduled? ==> s.reconnectHandle in s.reconnects))
  }

  lemma BegunHasNotFailed(s: State)
    requires Invariant(s) && s.trail != [] && s.trail[|s.trail| - 1].Began?
    ensures Handles(s, s.generation)
  {
    var n := |s.trail| - 1;
    assert EntryFits(s.trail, n);
    assert FailureAgrees(s.trail, s.attempts, s.generation);
    if HasFailure(s.trail, s.generation) {
      var j := FailedAt(s.trail, s.generation);
      FailureFollows(s.trail, j);
      CurrentGrows(s.trail, j, n);
    }
  }

  lemma {:induction false} FailedAt(trail: seq<Entry>, g: nat) returns (j: nat)
    requires HasFailure(trail, g)
    ensures j < |trail| && trail[j] == Failure(g)
  {
    j := |trail| - 1;
    if trail[j] != Failure(g) { j := FailedAt(trail[..j], g); }
  }

  lemma ConnectIsAlive(config: Config, s: State, created: bool, jitter: real)
    requires Invariant(s)
    ensures Alive(Connect(config, s, created, jitter))
  {
    var begun := Begin(config, s, created);
    BeginKeeps(config, s, created);
    BegunHasNotFailed(begun);
  }

  lemma AliveStays(config: Config, s: State, e: Event)
    requires Invariant(s) && Alive(s) && Enabled(s, e)
    ensures Alive(Step(config, s, e))
  {
    if Starts(e) {
      StartStep(config, s, e);
      ConnectIsAlive(config, Fired(s, e), e.created, e.jitter);
    } else {
      OtherIsAlive(config, s, e);
    }
  }

  lemma OtherIsAlive(config: Config, s: State, e: Event)
    requires Invariant(s) && Alive(s) && Enabled(s, e) && !Starts(e)
    ensures Alive(Step(config, s, e))
  {
    match e
    case OpenTimesOut(t, x) => TimeoutIsAlive(s, t, x);
    case Closed(g, x) => CloseIsAlive(config, s, g, x);
    case Errored(g, x) => ErrorIsAlive(config, s, g, x);
    case _ =>
  }

  lemma FailIsAlive(s: State, g: nat, jitter: real)
    requires Invariant(s) && Handles(s, g)
    ensures Alive(Fail(s, g, jitter))
  {}

  lemma FallBackIsAlive(s: State)
    requires Invariant(s) && s.generation > 0
    ensures Alive(FallBack(s))
  {}

  lemma TimeoutIsAlive(s: State, t: nat, jitter: real)
    requires Invariant(s) && Alive(s) && t in s.opens
    ensures Alive(Fail(s.(opens := s.opens - {t}), s.opens[t], jitter))
  {
    var fired := s.(opens := s.opens - {t});
    FiringKeeps(s, t);
    if s.trail != [] && s.trail[|s.trail| - 1].Began? { BegunHasNotFailed(s); }
    if Handles(fired, s.opens[t]) { FailIsAlive(fired, s.opens[t], jitter); }
  }

  lemma CloseIsAlive(config: Config, s: State, g: nat, jitter: real)
    requires Invariant(s) && Alive(s) && Enabled(s, Closed(g, jitter))
    ensures Alive(Step(config, s, Closed(g, jitter)))
  {
    if g == s.generation {
      var cleared := ClearOpen(s);
      ClearOpenKeeps(s);
      if s.trail[|s.trail| - 1].Began? { BegunHasNotFailed(s); }
      FallBackIsAlive(cleared);
      if Handles(cleared, g) { FailIsAlive(cleared, g, jitter); }
    }
  }

  lemma ErrorIsAlive(config: Config, s: State, g: nat, jitter: real)
    requires Invariant(s) && Alive(s) && Enabled(s, Errored(g, jitter))
    ensures Alive(Step(config, s, Errored(g, jitter)))
  {
    if g == s.generation {
      FallBackIsAlive(s);
      if Handles(s, g) { FailIsAlive(s, g, jitter); }
    }
  }

  lemma {:induction false} PaneNeverStalls(config: Config, stored: Option<string>, es: seq<Event>)
    ensures Alive(After(config, stored, es))
  {
    if es != [] {
      var front, e := es[..|es| - 1], es[|es| - 1];
      PaneNeverStalls(config, stored, front);
      EveryRunKeepsInvariant(config, stored, front);
      if Enabled(After(config, stored, front), e) { AliveStays(config, After(config, stored, front), e); }
    }
  }

  // An open of the current socket ends the watch and resets the backoff ...
  lemma {:induction false} OpeningResets(config: Config, stored: Option<string>, es: seq<Event>, g: nat)
    requires Enabled(After(config, stored, es), Opened(g)) && g == After(config, stored, es).generation
    ensures var s, open := After(config, stored, es), After(config, stored, es + [Opened(g)]);
            && open.opens == map[] && open.trail == s.trail + [Reset]
            && open.reconnects == s.reconnects && open.attempts == s.attempts && open.stored == s.stored
  {
    OneMore(config, stored, es, Opened(g));
    EveryRunKeepsInvariant(config, stored, es);
  }

  // ... so the first delay after it is that of a first attempt.
  lemma {:induction false} DelayAfterOpening(config: Config, stored: Option<string>, es: seq<Event>, g: nat,
                                             more: seq<Event>, j: nat)
    requires Enabled(After(config, stored, es), Opened(g)) && g == After(config, stored, es).generation
    requires var i, trail := |After(config, stored, es).trail|, After(config, stored, es + [Opened(g)] + more).trail;
             i < j < |trail| && trail[j].Scheduled? && forall k :: i < k < j ==> !trail[k].Scheduled?
    ensures var entry := After(config, stored, es + [Opened(g)] + more).trail[j];
            entry.attempt == 1 && 1500 <= entry.delay < 2000
  {
    var after := After(config, stored, es + [Opened(g)] + more);
    OpeningResets(config, stored, es, g);
    EveryRunKeepsInvariant(config, stored, es + [Opened(g)] + more);
    TrailGrows(config, stored, es + [Opened(g)], more);
    ScheduledFollows(after.trail, j);
    OnlyReset(after.trail, |After(config, stored, es).trail|, j);
  }

  lemma {:induction false} OnlyReset(trail: seq<Entry>, i: nat, j: nat)
    requires i < j <= |trail| && trail[i].Reset? && forall k :: i < k < j ==> !trail[k].Scheduled?
    ensures SinceReset(trail[..j]) == 0
  {
    assert trail[..j] == trail[..j - 1] + [trail[j - 1]];
    Snoc(trail[..j - 1], trail[j - 1]);
    if i < j - 1 { OnlyReset(trail, i, j - 1); }
  }

  lemma {:induction false} TrailGrows(config: Config, stored: Option<string>, es: seq<Event>, more: seq<Event>)
    ensures After(config, stored, es).trail <= After(config, stored, es + more).trail
  {
    if more == [] {
      assert es + more == es;
    } else {
      var front, last := more[..|more| - 1], more[|more| - 1];
      assert es + more == es + front + [last];
      TrailGrows(config, stored, es, front);
      OneMore(config, stored, es + front, last);
      if Enabled(After(config, stored, es + front), last) {
        StepTells(config, After(config, stored, es + front), last);
      }
    }
  }

  lemma StepTells(config: Config, s: State, e: Event)
    requires Enabled(s, e)
    ensures s.trail <= Step(config, s, e).trail
  {
    if Starts(e) {
      StartStep(config, s, e);
      ConnectTells(config, Fired(s, e), e.created, e.jitter);
    }
  }

  lemma ConnectTells(config: Config, s: State, created: bool, jitter: real)
    ensures s.trail <= Connect(config, s, created, jitter).trail
  {}

  // Short of the cap, the delay is 1000 plus 500 for each attempt plus the k of five hundred
  // equal parts the jitter falls in.
  lemma DelayIsExactly(attempt: nat, jitter: real, k: int)
    requires Jitter(jitter) && attempt < 17
    ensures ReconnectDelay(attempt, jitter) == 1000 + attempt * 500 + k
            <==> k as real <= jitter * 500.0 < (k + 1) as real
  {}

  // One attempt has a socket on the page's own endpoint, and no reconnect is pending.
  predicate Settled(config: Config, s: State) {
    s.generation == 1 && s.reconnects == {} && s.nextTimer == 2
    && s.attempts == map[1 := Attempt(config.origin, true, false)]
  }

  lemma BootSettles(config: Config, x: real)
    ensures Settled(config, Connect(config, Initial(None), true, x))
  {}

  lemma OpenSettles(config: Config, s: State)
    requires Settled(config, s)
    ensures Settled(config, ResetBackoff(ClearOpen(s)))
  {}

  lemma AnnouncementIsReachable(config: Config, x: real) returns (es: seq<Event>)
    requires Jitter(x)
    ensures es == [Boot(true, x)] + [Opened(1)] + [AnnounceEnds]
    ensures Settled(config, After(config, None, es)) && After(config, None, es).announced
  {
    OneMore(config, None, [], Boot(true, x));
    assert [] + [Boot(true, x)] == [Boot(true, x)];
    BootSettles(config, x);
    OneMore(config, None, [Boot(true, x)], Opened(1));
    OpenSettles(config, After(config, None, [Boot(true, x)]));
    OneMore(config, None, [Boot(true, x)] + [Opened(1)], AnnounceEnds);
    es := [Boot(true, x)] + [Opened(1)] + [AnnounceEnds];
  }

  // From the start: the pane boots, opens and announces its session; an error and the
  // close of the same socket then leave two timers.
  lemma TwoTimersAreReachable(config: Config, x: real, y: real) returns (es: seq<Event>)
    requires Jitter(x) && Jitter(y)
    ensures es == [Boot(true, x)] + [Opened(1)] + [AnnounceEnds] + [Errored(1, x)] + [Closed(1, y)]
    ensures After(config, None, es).reconnects == {2, 3} && |After(config, None, es).reconnects| == 2
    ensures After(config, None, es).generation == 1 && After(config, None, es).reconnectHandle == 3
  {
    var up := AnnouncementIsReachable(config, x);
    EveryRunKeepsInvariant(config, None, up);
    ErrorThenCloseSetsTwoTimers(config, After(config, None, up), x, y);
    OneMore(config, None, up, Errored(1, x));
    OneMore(config, None, up + [Errored(1, x)], Closed(1, y));
    es := up + [Errored(1, x)] + [Closed(1, y)];
  }

  // The run goes on: the newer timer reconnects, the socket opens, and the stray timer
  // then supersedes it; its close no longer does anything.
  lemma StrayTimerIsReachable(config: Config, x: real, y: real) returns (es: seq<Event>)
    requires Jitter(x) && Jitter(y)
    ensures var open, after := After(config, None, es), After(config, None, es + [ReconnectFires(2, true, y)]);
            && open.generation == 2 && HasSocket(open, 2) && es != [] && es[|es| - 1] == Opened(2)
            && after.generation == 3 && HasSocket(after, 2)
            && After(config, None, es + [ReconnectFires(2, true, y)] + [Closed(2, y)]) == after
  {
    var two := TwoTimersAreReachable(config, x, y);
    EveryRunKeepsInvariant(config, None, two);
    StrayTimerSupersedesOpenSocket(config, After(config, None, two), 2, x, y);
    OneMore(config, None, two, ReconnectFires(3, true, x));
    OneMore(config, None, two + [ReconnectFires(3, true, x)], Opened(2));
    es := two + [ReconnectFires(3, true, x)] + [Opened(2)];
    OneMore(config, None, es, ReconnectFires(2, true, y));
    OneMore(config, None, es + [ReconnectFires(2, true, y)], Closed(2, y));
  }

  // ---------------------------------------------------------------- the task pane object

  class Taskpane {
    const config: Config
    var connectGeneration: nat
    var attempts: map<nat, Attempt>
    var storedEndpoint: Option<string>
    var sessionAnnounced: bool
    var reconnectAttempt: nat
    var nextTimer: nat
    var reconnectTimer: nat
    var pendingReconnects: set<nat>
    var connectTimeoutTimer: nat
    var pendingOpenTimeouts: map<nat, nat>
    var pendingSaves: nat
    ghost var trail: seq<Entry>

    ghost function View(): State
      reads this
    {
      State(connectGeneration, attempts, storedEndpoint, sessionAnnounced, reconnectAttempt, nextTimer, reconnectTimer,
            pendingReconnects, connectTimeoutTimer, pendingOpenTimeouts, pendingSaves, trail)
    }

    constructor (config: Config, stored: Option<string>)
      ensures this.config == config && View() == Initial(stored)
    {
      this.config := config;
      connectGeneration, attempts, storedEndpoint, sessionAnnounced, reconnectAttempt := 0, map[], stored, false, 0;
      nextTimer, reconnectTimer, pendingReconnects := 1, 0, {};
      connectTimeoutTimer, pendingOpenTimeouts, pendingSaves, trail := 0, map[], 0, [];
    }

    method ClearReconnectTimer()
      modifies this`pendingReconnects
      ensures View() == ClearReconnect(old(View()))
    {
      pendingReconnects := pendingReconnects - {reconnectTimer};
    }

    method ClearConnectTimeout()
      modifies this`pendingOpenTimeouts
      ensures View() == ClearOpen(old(View()))
    {
      pendingOpenTimeouts := pendingOpenTimeouts - {connectTimeoutTimer};
    }

    method SetReconnectTimer()
      modifies this`reconnectTimer, this`pendingReconnects, this`nextTimer
      ensures View() == SetReconnect(old(View()))
    {
      reconnectTimer := nextTimer;
      pendingReconnects := pendingReconnects + {nextTimer};
      nextTimer := nextTimer + 1;
    }

    method ScheduleReconnect(jitter: real) returns (delay: int)
      modifies this
      ensures View() == Schedule(old(View()), jitter)
      ensures delay == ReconnectDelay(reconnectAttempt, jitter)
    {
      reconnectAttempt := reconnectAttempt + 1;
      delay := ReconnectDelay(reconnectAttempt, jitter);
      trail := trail + [Scheduled(reconnectAttempt, delay)];
      SetReconnectTimer();
    }

    method TryCurrentOriginEndpointFallback(failed: string) returns (retried: bool)
      modifies this
      ensures retried <==> failed != config.origin
      ensures View() == if retried then FallBack(old(View())) else old(View())
    {
      if failed == config.origin { return false; }
      storedEndpoint := None;
      reconnectAttempt := 0;
      trail := trail + [Reset];
      ClearReconnectTimer();
      SetReconnectTimer();
      return true;
    }

    method HandleConnectionFailure(g: nat, jitter: real)
      requires g in attempts
      modifies this
      ensures View() == Fail(old(View()), g, jitter)
    {
      if attempts[g].failed || g != connectGeneration { return; }
      attempts := attempts[g := attempts[g].(failed := true)];
      trail := trail + [Failure(g)];
      ClearConnectTimeout();
      var delay := ScheduleReconnect(jitter);
    }

    method ConfiguredEndpoint() returns (endpoint: string)
      modifies this`storedEndpoint
      ensures endpoint == Endpoint(config, old(storedEndpoint))
      ensures storedEndpoint == Stored(config, old(storedEndpoint))
    {
      if storedEndpoint.None? || storedEndpoint.value == "" { return config.origin; }
      if !config.valid(storedEndpoint.value) || !config.own(storedEndpoint.value) {
        storedEndpoint := None;
        return config.origin;
      }
      return config.trim(storedEndpoint.value);
    }

    method BeginAttempt(created: bool) returns (g: nat, endpoint: string)
      modifies this
      ensures View() == Begin(config, old(View()), created)
      ensures g == connectGeneration && g in attempts && endpoint == attempts[g].endpoint
    {
      ClearReconnectTimer();
      ClearConnectTimeout();
      connectGeneration := connectGeneration + 1;
      g := connectGeneration;
      trail := trail + [Began(g)];
      endpoint := ConfiguredEndpoint();
      attempts := attempts[g := Attempt(endpoint, created, false)];
    }

    method ConnectNow(created: bool, jitter: real)
      modifies this
      ensures View() == Connect(config, old(View()), created, jitter)
    {
      var g, endpoint := BeginAttempt(created);
      if !created {
        var retried := TryCurrentOriginEndpointFallback(endpoint);
        if retried { return; }
        HandleConnectionFailure(g, jitter);
        return;
      }
      connectTimeoutTimer := nextTimer;
      pendingOpenTimeouts := pendingOpenTimeouts[nextTimer := g];
      nextTimer := nextTimer + 1;
    }

    method FireReconnect(t: nat, created: bool, jitter: real)
      requires t in pendingReconnects && Jitter(jitter)
      modifies this
      ensures View() == Step(config, old(View()), ReconnectFires(t, created, jitter))
    {
      pendingReconnects := pendingReconnects - {t};
      ConnectNow(created, jitter);
    }

    method OnOpenTimeout(t: nat, jitter: real)
      requires t in pendingOpenTimeouts && pendingOpenTimeouts[t] in attempts && Jitter(jitter)
      modifies this
      ensures View() == Step(config, old(View()), OpenTimesOut(t, jitter))
    {
      var g := pendingOpenTimeouts[t];
      pendingOpenTimeouts := pendingOpenTimeouts - {t};
      HandleConnectionFailure(g, jitter);
    }

    method OnOpen(g: nat)
      requires HasSocket(View(), g)
      modifies this
      ensures View() == Step(config, old(View()), Opened(g))
    {
      if g != connectGeneration { return; }
      ClearConnectTimeout();
      reconnectAttempt := 0;
      trail := trail + [Reset];
    }

    method OnClose(g: nat, jitter: real)
      requires HasSocket(View(), g) && Jitter(jitter)
      modifies this
      ensures View() == Step(config, old(View()), Closed(g, jitter))
    {
      if g != connectGeneration { return; }
      ClearConnectTimeout();
      var retried := TryCurrentOriginEndpointFallback(attempts[g].endpoint);
      if retried { return; }
      if !sessionAnnounced {
        HandleConnectionFailure(g, jitter);
        return;
      }
      var delay := ScheduleReconnect(jitter);
    }

    method OnError(g: nat, jitter: real)
      requires HasSocket(View(), g) && Jitter(jitter)
      modifies this
      ensures View() == Step(config, old(View()), Errored(g, jitter))
    {
      if g != connectGeneration { return; }
      var retried := TryCurrentOriginEndpointFallback(attempts[g].endpoint);
      if retried { return; }
      HandleConnectionFailure(g, jitter);
    }

    method SaveEndpoint(input: string) returns (saved: bool)
      modifies this
      ensures View() == Step(config, old(View()), EndpointSaved(input))
      ensures saved <==> config.valid(config.trim(input))
    {
      var endpoint := config.trim(input);
      if !config.valid(endpoint) { return false; }
      storedEndpoint := Some(endpoint);
      pendingSaves := pendingSaves + 1;
      return true;
    }

    method FireSave(created: bool, jitter: real)
      requires pendingSaves > 0 && Jitter(jitter)
      modifies this
      ensures View() == Step(config, old(View()), SaveFires(created, jitter))
    {
      pendingSaves := pendingSaves - 1;
      ConnectNow(created, jitter);
    }
  }
}
