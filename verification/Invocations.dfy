/** Tool invocations as an interleaving of the segments between await points, over
    one shared task store: what is replied, recorded and cancelled in every run. */
module Invocations {
  import opened Wrappers
  import opened TaskHistory

  // params is None for an invocation that carries none; its requestId may be missing.
  datatype Params = Params(requestId: string, tool: string, userIntent: string, timeoutMs: Option<int>)

  datatype Message = Message(id: string, params: Option<Params>)

  // What the checks before the first await say of this call: the code of the error
  // raised when the tool is disabled, and of the preflight or dispatch error if any.
  datatype Checks = Checks(disabled: Option<TaskError>, preflight: Option<TaskError>)

  datatype Phase = Running | Rejecting(error: TaskError) | Done(ok: bool)

  datatype Call = Call(message: Message, phase: Phase)

  // What an observer sees, in order. A consumed cancellation shows as CancelSpent.
  datatype Entry =
    | CancelSeen(requestId: string)
    | CancelSpent(k: nat, requestId: string)
    | Answered(k: nat, requestId: string, ok: bool)

  datatype State = State(store: Store, calls: seq<Call>, trail: seq<Entry>, starts: nat, overwritten: nat,
                         recorded: seq<Record>)

  datatype Event =
    | Invoke(message: Message, checks: Checks, now: int, elapsedMs: int, at: string)
    | HostReturns(k: nat, elapsedMs: int, at: string)
    | HostThrows(k: nat, error: TaskError, elapsedMs: int, at: string)
    | CatchReplies(k: nat)
    | CancelArrives(requestId: string)

  const CANCELLED := "CANCELLED"

  function CancelledError(): TaskError {
    TaskError(CANCELLED, "cancelled")
  }

  function MissingParamsError(): TaskError {
    TaskError("GENERIC_FAILURE", "Cannot destructure params")
  }

  // ---------------------------------------------------------------- one event

  function RequestId(m: Message): string {
    if m.params.None? || m.params.value.requestId == "" then m.id else m.params.value.requestId
  }

  function StartOf(m: Message, now: int): Start
    requires m.params.Some?
  {
    Start(RequestId(m), m.params.value.tool, m.params.value.userIntent, m.params.value.timeoutMs, now)
  }

  function FailureOf(m: Message, error: TaskError, elapsedMs: int, at: string): Finish {
    Finish(RequestId(m), if error.code == CANCELLED then Cancelled else Failure, elapsedMs, Some(error), at)
  }

  function SuccessOf(m: Message, elapsedMs: int, at: string): Finish {
    Finish(RequestId(m), Success, elapsedMs, None, at)
  }

  // The first check that fails, in the order they are made.
  function Refusal(checks: Checks, cancelled: bool): Option<TaskError> {
    if checks.disabled.Some? then checks.disabled
    else if cancelled then Some(CancelledError())
    else checks.preflight
  }

  function Began(s: State, start: Start): State {
    s.(store := Started(s.store, start), starts := s.starts + 1,
       overwritten := s.overwritten + if s.store.current.Some? then 1 else 0)
  }

  function Ended(s: State, f: Finish): State {
    s.(store := Finished(s.store, f),
       recorded := match Recorded(s.store, f) case None => s.recorded case Some(record) => [record] + s.recorded)
  }

  // The catch block: record the failure, then let the error go on to the caller.
  function Failed(s: State, k: nat, error: TaskError, elapsedMs: int, at: string): State
    requires k < |s.calls|
  {
    var ended := Ended(s, FailureOf(s.calls[k].message, error, elapsedMs, at));
    ended.(calls := s.calls[k := s.calls[k].(phase := Rejecting(error))])
  }

  function Opening(s: State, m: Message): State {
    s.(calls := s.calls + [Call(m, Running)])
  }

  function Invoked(s: State, e: Event): State
    requires e.Invoke?
  {
    var k, m := |s.calls|, e.message;
    var next := Opening(s, m);
    if m.params.None? then next.(calls := s.calls + [Call(m, Rejecting(MissingParamsError()))])
    else
      var began := Began(next, StartOf(m, e.now));
      match Refusal(e.checks, RequestId(m) in s.store.cancelled)
      case None => began
      case Some(error) => Failed(began, k, error, e.elapsedMs, e.at)
  }

  function Spent(s: State, k: nat): State
    requires k < |s.calls|
  {
    var id := RequestId(s.calls[k].message);
    s.(store := Consumed(s.store, id), trail := s.trail + [CancelSpent(k, id)])
  }

  function Succeeded(s: State, k: nat, elapsedMs: int, at: string): State
    requires k < |s.calls|
  {
    var m := s.calls[k].message;
    Ended(s, SuccessOf(m, elapsedMs, at)).(calls := s.calls[k := s.calls[k].(phase := Done(true))],
                                          trail := s.trail + [Answered(k, RequestId(m), true)])
  }

  predicate Enabled(s: State, e: Event) {
    match e
    case HostReturns(k, _, _) => k < |s.calls| && s.calls[k].phase.Running?
    case HostThrows(k, _, _, _) => k < |s.calls| && s.calls[k].phase.Running?
    case CatchReplies(k) => k < |s.calls| && s.calls[k].phase.Rejecting?
    case CancelArrives(id) => id != ""
    case Invoke(_, _, _, _, _) => true
  }

  function Step(s: State, e: Event): State
    requires Enabled(s, e)
  {
    match e
    case Invoke(_, _, _, _, _) => Invoked(s, e)
    case HostReturns(k, elapsed, at) =>
      if RequestId(s.calls[k].message) in s.store.cancelled then Failed(Spent(s, k), k, CancelledError(), elapsed, at)
      else Succeeded(s, k, elapsed, at)
    case HostThrows(k, error, elapsed, at) => Failed(s, k, error, elapsed, at)
    case CatchReplies(k) =>
      s.(calls := s.calls[k := s.calls[k].(phase := Done(false))],
         trail := s.trail + [Answered(k, RequestId(s.calls[k].message), false)])
    case CancelArrives(id) => s.(store := CancelHandled(s.store, id), trail := s.trail + [CancelSeen(id)])
  }

  function Initial(limitOption: int): State {
    State(Opened(limitOption), [], [], 0, 0, [])
  }

  // The state after a run; an event that cannot happen where it stands changes nothing.
  function After(limitOption: int, es: seq<Event>): State {
    if es == [] then Initial(limitOption)
    else
      var s := After(limitOption, es[..|es| - 1]);
      if Enabled(s, es[|es| - 1]) then Step(s, es[|es| - 1]) else s
  }

  // ---------------------------------------------------------------- what every run keeps

  // Starts are conserved, the history is the newest part of what was recorded, and
  // the running task knows whether it was cancelled.
  ghost predicate Books(limitOption: int, s: State) {
    && s.store.limit == LimitOf(limitOption)
    && s.starts == |s.recorded| + s.overwritten + (if s.store.current.Some? then 1 else 0)
    && s.store.history == Newest(s.recorded, Kept(s.store.limit))
    && (s.store.current.Some?
        ==> (s.store.current.value.cancelRequested <==> s.store.current.value.requestId in s.store.cancelled))
  }

  function Replies(trail: seq<Entry>, k: nat): nat {
    if trail == [] then 0
    else Replies(trail[..|trail| - 1], k) + if trail[|trail| - 1].Answered? && trail[|trail| - 1].k == k then 1 else 0
  }

  predicate EntryAgrees(calls: seq<Call>, e: Entry) {
    match e
    case CancelSeen(_) => true
    case CancelSpent(k, id) =>
      k < |calls| && id == RequestId(calls[k].message) && (calls[k].phase.Rejecting? || calls[k].phase == Done(false))
    case Answered(k, id, ok) => k < |calls| && id == RequestId(calls[k].message) && calls[k].phase == Done(ok)
  }

  ghost predicate AnsweredOnce(calls: seq<Call>, trail: seq<Entry>, k: nat) {
    Replies(trail, k) == if k < |calls| && calls[k].phase.Done? then 1 else 0
  }

  ghost predicate Answers(calls: seq<Call>, trail: seq<Entry>) {
    && (forall k: nat :: AnsweredOnce(calls, trail, k))
    && (forall j :: 0 <= j < |trail| ==> EntryAgrees(calls, trail[j]))
  }

  // The last cancel of id has not been spent.
  predicate Outstanding(trail: seq<Entry>, id: string) {
    if trail == [] then false
    else
      match trail[|trail| - 1]
      case CancelSeen(seen) => seen == id || Outstanding(trail[..|trail| - 1], id)
      case CancelSpent(_, spent) => spent != id && Outstanding(trail[..|trail| - 1], id)
      case Answered(_, _, _) => Outstanding(trail[..|trail| - 1], id)
  }

  // A success at position j was not cancelled when it was sent.
  predicate CleanAt(trail: seq<Entry>, j: nat)
    requires j < |trail|
  {
    trail[j].Answered? && trail[j].ok ==> !Outstanding(trail[..j], trail[j].requestId)
  }

  ghost predicate Cancels(cancelled: set<string>, trail: seq<Entry>) {
    && (forall id :: id in cancelled <==> Outstanding(trail, id))
    && (forall j :: 0 <= j < |trail| ==> CleanAt(trail, j))
  }

  ghost predicate Invariant(limitOption: int, s: State) {
    Books(limitOption, s) && Answers(s.calls, s.trail) && Cancels(s.store.cancelled, s.trail)
  }

  lemma EndedKeepsBooks(limitOption: int, s: State, f: Finish)
    requires Books(limitOption, s)
    ensures Books(limitOption, Ended(s, f))
  {}

  lemma StepKeepsBooks(limitOption: int, s: State, e: Event)
    requires Books(limitOption, s) && Enabled(s, e)
    ensures Books(limitOption, Step(s, e))
  {
    match e
    case Invoke(m, checks, now, elapsed, at) =>
      if m.params.Some? {
        var began := Began(Opening(s, m), StartOf(m, now));
        var refusal := Refusal(checks, RequestId(m) in s.store.cancelled);
        if refusal.Some? { EndedKeepsBooks(limitOption, began, FailureOf(m, refusal.value, elapsed, at)); }
      }
    case HostReturns(k, elapsed, at) =>
      if RequestId(s.calls[k].message) in s.store.cancelled {
        SpentKeepsBooks(limitOption, s, k, FailureOf(s.calls[k].message, CancelledError(), elapsed, at));
      } else {
        EndedKeepsBooks(limitOption, s, SuccessOf(s.calls[k].message, elapsed, at));
      }
    case HostThrows(k, error, elapsed, at) =>
      EndedKeepsBooks(limitOption, s, FailureOf(s.calls[k].message, error, elapsed, at));
    case _ =>
  }

  // Spending a cancellation and recording the task are one segment: in between, the
  // running task may disagree with the set, afterwards it cannot.
  lemma SpentKeepsBooks(limitOption: int, s: State, k: nat, f: Finish)
    requires Books(limitOption, s) && k < |s.calls| && f.requestId == RequestId(s.calls[k].message)
    ensures Books(limitOption, Ended(Spent(s, k), f))
  {}

  lemma RepliesSnoc(trail: seq<Entry>, e: Entry, k: nat)
    ensures Replies(trail + [e], k) == Replies(trail, k) + if e.Answered? && e.k == k then 1 else 0
  {
    assert (trail + [e])[..|trail|] == trail;
  }

  lemma AgreementGrows(calls: seq<Call>, trail: seq<Entry>, after: seq<Call>, e: Entry)
    requires forall j :: 0 <= j < |trail| ==> EntryAgrees(after, trail[j])
    requires EntryAgrees(after, e)
    requires forall k: nat :: AnsweredOnce(calls, trail, k)
    requires forall k: nat :: (k < |after| && after[k].phase.Done?)
               <==> (k < |calls| && calls[k].phase.Done?) || (e.Answered? && e.k == k)
    requires e.Answered? ==> !(e.k < |calls| && calls[e.k].phase.Done?)
    ensures Answers(after, trail + [e])
  {
    forall k: nat ensures AnsweredOnce(after, trail + [e], k) {
      assert AnsweredOnce(calls, trail, k);
      RepliesSnoc(trail, e, k);
    }
  }

  // A call that has neither been answered nor cancelled may move on; a rejecting
  // one may only be answered.
  lemma MoveKeepsAgreement(calls: seq<Call>, trail: seq<Entry>, k: nat, phase: Phase)
    requires Answers(calls, trail) && k < |calls|
    requires calls[k].phase.Running? || (calls[k].phase.Rejecting? && phase == Done(false))
    ensures forall j :: 0 <= j < |trail| ==> EntryAgrees(calls[k := calls[k].(phase := phase)], trail[j])
  {
    var after := calls[k := calls[k].(phase := phase)];
    forall j | 0 <= j < |trail| ensures EntryAgrees(after, trail[j]) { assert EntryAgrees(calls, trail[j]); }
  }

  lemma SilentMove(calls: seq<Call>, trail: seq<Entry>, after: seq<Call>)
    requires Answers(calls, trail) && forall j :: 0 <= j < |trail| ==> EntryAgrees(after, trail[j])
    requires forall k: nat :: (k < |after| && after[k].phase.Done?) <==> (k < |calls| && calls[k].phase.Done?)
    ensures Answers(after, trail)
  {
    forall k: nat ensures AnsweredOnce(after, trail, k) { assert AnsweredOnce(calls, trail, k); }
  }

  lemma StepKeepsAnswers(s: State, e: Event)
    requires Answers(s.calls, s.trail) && Enabled(s, e)
    ensures Answers(Step(s, e).calls, Step(s, e).trail)
  {
    var next := Step(s, e);
    match e
    case Invoke(_, _, _, _, _) =>
      forall j | 0 <= j < |s.trail|
        ensures EntryAgrees(next.calls, s.trail[j])
      {
        assert EntryAgrees(s.calls, s.trail[j]);
      }
      SilentMove(s.calls, s.trail, next.calls);
    case HostReturns(k, _, _) =>
      MoveKeepsAgreement(s.calls, s.trail, k, next.calls[k].phase);
      AgreementGrows(s.calls, s.trail, next.calls, next.trail[|s.trail|]);
    case HostThrows(k, error, _, _) =>
      MoveKeepsAgreement(s.calls, s.trail, k, Rejecting(error));
      SilentMove(s.calls, s.trail, next.calls);
    case CatchReplies(k) =>
      MoveKeepsAgreement(s.calls, s.trail, k, Done(false));
      AgreementGrows(s.calls, s.trail, next.calls, next.trail[|s.trail|]);
    case CancelArrives(_) =>
      AgreementGrows(s.calls, s.trail, next.calls, next.trail[|s.trail|]);
  }

  lemma CancelsGrow(cancelled: set<string>, trail: seq<Entry>, after: set<string>, e: Entry)
    requires Cancels(cancelled, trail)
    requires e.Answered? && e.ok ==> e.requestId !in cancelled
    requires after == (match e
                       case CancelSeen(id) => cancelled + {id}
                       case CancelSpent(_, id) => cancelled - {id}
                       case _ => cancelled)
    ensures Cancels(after, trail + [e])
  {
    var more := trail + [e];
    assert more[..|trail|] == trail;
    forall j | 0 <= j < |more| ensures CleanAt(more, j) {
      assert more[..j] == trail[..j];
      if j < |trail| { assert CleanAt(trail, j); } else { assert trail[..j] == trail; }
    }
    forall id ensures id in after <==> Outstanding(more, id) {
      assert id in cancelled <==> Outstanding(trail, id);
    }
  }

  lemma StepKeepsCancels(s: State, e: Event)
    requires Cancels(s.store.cancelled, s.trail) && Enabled(s, e)
    ensures Cancels(Step(s, e).store.cancelled, Step(s, e).trail)
  {
    var next := Step(s, e);
    if next.trail != s.trail { CancelsGrow(s.store.cancelled, s.trail, next.store.cancelled, next.trail[|s.trail|]); }
  }

  lemma {:induction false} EveryRunKeepsInvariant(limitOption: int, es: seq<Event>)
    ensures Invariant(limitOption, After(limitOption, es))
  {
    if es != [] {
      var before, e := After(limitOption, es[..|es| - 1]), es[|es| - 1];
      EveryRunKeepsInvariant(limitOption, es[..|es| - 1]);
      if Enabled(before, e) {
        StepKeepsBooks(limitOption, before, e);
        StepKeepsAnswers(before, e);
        StepKeepsCancels(before, e);
      }
    }
  }

  // ---------------------------------------------------------------- one reply per call

  lemma {:induction false} RepliedExactlyOnce(limitOption: int, es: seq<Event>, k: nat)
    ensures var s := After(limitOption, es);
            Replies(s.trail, k) == if k < |s.calls| && s.calls[k].phase.Done? then 1 else 0
  {
    var s := After(limitOption, es);
    EveryRunKeepsInvariant(limitOption, es);
    assert AnsweredOnce(s.calls, s.trail, k);
  }

  lemma AnswersAreFinal(s: State, e: Event, k: nat)
    requires Enabled(s, e) && k < |s.calls|
    ensures k < |Step(s, e).calls| && Step(s, e).calls[k].message == s.calls[k].message
    ensures s.calls[k].phase.Done? ==> Step(s, e).calls[k] == s.calls[k]
  {}

  lemma OneMore(limitOption: int, es: seq<Event>, e: Event)
    ensures var s := After(limitOption, es); After(limitOption, es + [e]) == if Enabled(s, e) then Step(s, e) else s
  {
    assert (es + [e])[..|es|] == es;
  }

  // No call is ever stuck: from any point two more events, at most, answer it.
  lemma {:induction false} EveryCallCanBeAnswered(limitOption: int, es: seq<Event>, k: nat, error: TaskError,
                                                  at: string)
    returns (more: seq<Event>)
    requires k < |After(limitOption, es).calls|
    ensures |more| <= 2
    ensures var after := After(limitOption, es + more);
            |after.calls| == |After(limitOption, es).calls| && after.calls[k].phase.Done?
            && Replies(after.trail, k) == 1
  {
    var throws, catches := HostThrows(k, error, 0, at), CatchReplies(k);
    OneMore(limitOption, es, throws);
    OneMore(limitOption, es + [throws], catches);
    assert es + [throws] + [catches] == es + [throws, catches];
    more := [throws, catches];
    RepliedExactlyOnce(limitOption, es + more, k);
  }

  // ---------------------------------------------------------------- cancellation

  predicate SpentAt(trail: seq<Entry>, m: nat, id: string) {
    m < |trail| && trail[m].CancelSpent? && trail[m].requestId == id
  }

  lemma {:induction false} CancelWasSpent(trail: seq<Entry>, i: nat, id: string) returns (m: nat)
    requires i < |trail| && trail[i] == CancelSeen(id) && !Outstanding(trail, id)
    ensures i < m && SpentAt(trail, m, id)
  {
    var n := |trail| - 1;
    if SpentAt(trail, n, id) {
      m := n;
    } else {
      m := CancelWasSpent(trail[..n], i, id);
    }
  }

  // When the host has returned, the call succeeds exactly when no cancel of its id is
  // outstanding; otherwise it is rejected as cancelled, and the cancellation is spent.
  lemma {:induction false} FinalCheckExactly(limitOption: int, es: seq<Event>, k: nat, elapsedMs: int, at: string)
    requires Enabled(After(limitOption, es), HostReturns(k, elapsedMs, at))
    ensures var s := After(limitOption, es);
            var id := RequestId(s.calls[k].message);
            var after := Step(s, HostReturns(k, elapsedMs, at));
            && after.calls[k].phase == (if Outstanding(s.trail, id) then Rejecting(CancelledError()) else Done(true))
            && after.trail == s.trail + [if Outstanding(s.trail, id) then CancelSpent(k, id) else Answered(k, id, true)]
            && !Outstanding(after.trail, id)
  {
    var s := After(limitOption, es);
    var id := RequestId(s.calls[k].message);
    EveryRunKeepsInvariant(limitOption, es);
    assert id in s.store.cancelled <==> Outstanding(s.trail, id);
    OutstandingSnoc(s.trail, if Outstanding(s.trail, id) then CancelSpent(k, id) else Answered(k, id, true), id);
  }

  lemma OutstandingSnoc(trail: seq<Entry>, e: Entry, id: string)
    requires e.CancelSpent? || e.Answered?
    ensures Outstanding(trail + [e], id) <==> Outstanding(trail, id) && !(e.CancelSpent? && e.requestId == id)
  {
    assert (trail + [e])[..|trail|] == trail;
  }

  // A cancelled request can still be answered ok only when another call with the same
  // request id used up the cancellation in between.
  lemma OkAfterCancelNeedsATwin(limitOption: int, es: seq<Event>, i: nat, j: nat) returns (m: nat)
    requires var trail := After(limitOption, es).trail;
             i < j < |trail| && trail[j].Answered? && trail[j].ok && trail[i] == CancelSeen(trail[j].requestId)
    ensures var s := After(limitOption, es);
            && i < m < j && SpentAt(s.trail, m, s.trail[j].requestId)
            && s.trail[m].k != s.trail[j].k && s.trail[m].k < |s.calls| && s.trail[j].k < |s.calls|
            && RequestId(s.calls[s.trail[m].k].message) == RequestId(s.calls[s.trail[j].k].message)
  {
    var s := After(limitOption, es);
    EveryRunKeepsInvariant(limitOption, es);
    assert CleanAt(s.trail, j);
    m := CancelWasSpent(s.trail[..j], i, s.trail[j].requestId);
    assert EntryAgrees(s.calls, s.trail[m]) && EntryAgrees(s.calls, s.trail[j]);
  }

  ghost predicate DistinctIds(calls: seq<Call>) {
    forall a, b :: 0 <= a < b < |calls| ==> RequestId(calls[a].message) != RequestId(calls[b].message)
  }

  // So with distinct request ids a request cancelled before its last check never succeeds.
  lemma CancelledNeverSucceeds(limitOption: int, es: seq<Event>, i: nat, j: nat)
    requires var s := After(limitOption, es);
             && i < j < |s.trail| && s.trail[j].Answered? && s.trail[i] == CancelSeen(s.trail[j].requestId)
             && DistinctIds(s.calls)
    ensures !After(limitOption, es).trail[j].ok
  {
    if After(limitOption, es).trail[j].ok {
      var m := OkAfterCancelNeedsATwin(limitOption, es, i, j);
    }
  }

  lemma {:induction false} CallStarts(limitOption: int, es: seq<Event>, m: Message) returns (e: Event)
    requires m.params.Some? && RequestId(m) !in After(limitOption, es).store.cancelled
    ensures var s, after := After(limitOption, es), After(limitOption, es + [e]);
            && after.calls == s.calls + [Call(m, Running)]
            && after.store.cancelled == s.store.cancelled && after.trail == s.trail
  {
    e := Invoke(m, Checks(None, None), 0, 0, "");
    OneMore(limitOption, es, e);
  }

  lemma CancelComes(limitOption: int, es: seq<Event>, id: string)
    requires id != ""
    ensures var s, after := After(limitOption, es), After(limitOption, es + [CancelArrives(id)]);
            && after.calls == s.calls && after.store.cancelled == s.store.cancelled + {id}
            && after.trail == s.trail + [CancelSeen(id)]
  {
    OneMore(limitOption, es, CancelArrives(id));
  }

  lemma HostComes(limitOption: int, es: seq<Event>, k: nat)
    requires k < |After(limitOption, es).calls| && After(limitOption, es).calls[k].phase.Running?
    ensures var s, after := After(limitOption, es), After(limitOption, es + [HostReturns(k, 0, "")]);
            var id := RequestId(s.calls[k].message);
            && |after.calls| == |s.calls| && (forall i :: 0 <= i < |s.calls| && i != k ==> after.calls[i] == s.calls[i])
            && after.store.cancelled == s.store.cancelled - {id}
            && after.trail == s.trail + [if id in s.store.cancelled then CancelSpent(k, id) else Answered(k, id, true)]
  {
    OneMore(limitOption, es, HostReturns(k, 0, ""));
  }

  lemma TwinsAreCancelled(limitOption: int, m: Message) returns (es: seq<Event>)
    requires m.params.Some? && RequestId(m) != ""
    ensures var s := After(limitOption, es);
            && |s.calls| == 2 && s.calls[0] == Call(m, Running) && s.calls[1] == Call(m, Running)
            && s.store.cancelled == {RequestId(m)} && s.trail == [CancelSeen(RequestId(m))]
  {
    var first := CallStarts(limitOption, [], m);
    es := [] + [first];
    assert After(limitOption, es).calls == [Call(m, Running)];
    var second := CallStarts(limitOption, es, m);
    CancelComes(limitOption, es + [second], RequestId(m));
    es := es + [second] + [CancelArrives(RequestId(m))];
  }

  // Two calls sharing an id: one spends the cancellation, the other succeeds after it.
  lemma TwinDefeatsCancel(limitOption: int, m: Message) returns (es: seq<Event>)
    requires m.params.Some? && RequestId(m) != ""
    ensures After(limitOption, es).trail
            == [CancelSeen(RequestId(m)), CancelSpent(0, RequestId(m)), Answered(1, RequestId(m), true)]
  {
    es := TwinsAreCancelled(limitOption, m);
    HostComes(limitOption, es, 0);
    es := es + [HostReturns(0, 0, "")];
    assert After(limitOption, es).calls[1] == Call(m, Running) && After(limitOption, es).store.cancelled == {};
    HostComes(limitOption, es, 1);
    es := es + [HostReturns(1, 0, "")];
  }

  // ---------------------------------------------------------------- refusals at the start

  // A call whose tool is disabled is rejected at once with that error, cancelled or not;
  // an enabled one is rejected as cancelled exactly when a cancel of its id is outstanding,
  // whatever the preflight says, and otherwise exactly when the preflight has an error. A
  // refusal spends no cancellation and answers nothing yet.
  lemma {:induction false} RefusedAtStartExactly(limitOption: int, es: seq<Event>, e: Event)
    requires e.Invoke? && e.message.params.Some?
    ensures var s, after := After(limitOption, es), After(limitOption, es + [e]);
            var cancelled := Outstanding(s.trail, IdOf(e.message));
            && |after.calls| == |s.calls| + 1 && after.calls[..|s.calls|] == s.calls && after.trail == s.trail
            && after.calls[|s.calls|].message == e.message
            && (e.checks.disabled.Some? ==> after.calls[|s.calls|].phase == Rejecting(e.checks.disabled.value))
            && (e.checks.disabled.None? && cancelled ==> after.calls[|s.calls|].phase == Rejecting(CancelledError()))
            && (e.checks.disabled.None? && !cancelled && e.checks.preflight.Some? ==>
                  after.calls[|s.calls|].phase == Rejecting(e.checks.preflight.value))
            && (e.checks.disabled.None? && !cancelled && e.checks.preflight.None? ==>
                  after.calls[|s.calls|].phase.Running?)
  {
    var s := After(limitOption, es);
    OneMore(limitOption, es, e);
    EveryRunKeepsInvariant(limitOption, es);
    assert RequestId(e.message) in s.store.cancelled <==> Outstanding(s.trail, RequestId(e.message));
  }

  // The id a message goes by: its request's own, or else that of the message.
  function IdOf(m: Message): string {
    match m.params
    case None => m.id
    case Some(params) => if |params.requestId| > 0 then params.requestId else m.id
  }

  ghost predicate Rejected(calls: seq<Call>, k: nat) {
    k < |calls| && (calls[k].phase.Rejecting? || calls[k].phase == Done(false))
  }

  lemma {:induction false} RejectedStays(limitOption: int, es: seq<Event>, more: seq<Event>, k: nat)
    requires Rejected(After(limitOption, es).calls, k)
    ensures Rejected(After(limitOption, es + more).calls, k)
  {
    if more == [] {
      assert es + more == es;
    } else {
      var front := more[..|more| - 1];
      assert es + more == es + front + [more[|more| - 1]];
      RejectedStays(limitOption, es, front, k);
      OneMore(limitOption, es + front, more[|more| - 1]);
    }
  }

  // So no call refused at its start is ever answered ok, whatever follows; nor is one
  // without params.
  lemma {:induction false} RefusedIsNeverOk(limitOption: int, es: seq<Event>, e: Event, more: seq<Event>, j: nat)
    requires e.Invoke? && j < |After(limitOption, es + [e] + more).trail|
    requires e.message.params.None? || e.checks.disabled.Some? || e.checks.preflight.Some?
             || Outstanding(After(limitOption, es).trail, IdOf(e.message))
    ensures var entry := After(limitOption, es + [e] + more).trail[j];
            entry.Answered? && entry.k == |After(limitOption, es).calls| ==> !entry.ok
  {
    var k, s := |After(limitOption, es).calls|, After(limitOption, es + [e] + more);
    if e.message.params.Some? {
      RefusedAtStartExactly(limitOption, es, e);
    } else {
      OneMore(limitOption, es, e);
    }
    RejectedStays(limitOption, es + [e], more, k);
    EveryRunKeepsInvariant(limitOption, es + [e] + more);
    assert EntryAgrees(s.calls, s.trail[j]);
  }

  // A reply goes out under the id of its call.
  lemma {:induction false} RepliesNameTheirCall(limitOption: int, es: seq<Event>, j: nat)
    requires var s := After(limitOption, es); j < |s.trail| && s.trail[j].Answered?
    ensures var s := After(limitOption, es);
            s.trail[j].k < |s.calls| && s.trail[j].requestId == IdOf(s.calls[s.trail[j].k].message)
  {
    var s := After(limitOption, es);
    EveryRunKeepsInvariant(limitOption, es);
    assert EntryAgrees(s.calls, s.trail[j]);
  }

  // ---------------------------------------------------------------- what is recorded

  // Record r tells how call k ended.
  ghost predicate TellsEnd(calls: seq<Call>, r: Record, k: nat) {
    && k < |calls| && calls[k].message.params.Some? && r.requestId == IdOf(calls[k].message)
    && !calls[k].phase.Running?
    && (calls[k].phase.Rejecting? ==> r.error == Some(calls[k].phase.error) && !r.status.Success?)
    && (calls[k].phase.Done? ==> (calls[k].phase.ok <==> r.status.Success?) && (calls[k].phase.ok <==> r.error.None?))
    && (r.status.Cancelled? <==> (r.error.Some? && r.error.value.code == "CANCELLED"))
  }

  // The tool and the intent are those of call k.
  ghost predicate Names(calls: seq<Call>, requestId: string, tool: string, userIntent: string, k: nat) {
    && k < |calls| && calls[k].message.params.Some? && requestId == IdOf(calls[k].message)
    && tool == calls[k].message.params.value.tool && userIntent == calls[k].message.params.value.userIntent
  }

  ghost predicate RecordHolds(calls: seq<Call>, r: Record) {
    (exists k: nat :: TellsEnd(calls, r, k)) && (exists k: nat :: Names(calls, r.requestId, r.tool, r.userIntent, k))
  }

  ghost predicate Chronicle(s: State) {
    && (forall i :: 0 <= i < |s.recorded| ==> RecordHolds(s.calls, s.recorded[i]))
    && (s.store.current.Some? ==>
          var task := s.store.current.value;
          exists k: nat :: Names(s.calls, task.requestId, task.tool, task.userIntent, k))
  }

  // Calls keep their message, and once ended they stay as they are told of.
  ghost predicate Continues(calls: seq<Call>, after: seq<Call>) {
    && |calls| <= |after|
    && forall k :: 0 <= k < |calls| ==>
         && after[k].message == calls[k].message
         && (after[k].phase == calls[k].phase || calls[k].phase.Running?
             || (calls[k].phase.Rejecting? && after[k].phase == Done(false)))
  }

  lemma RecordStays(calls: seq<Call>, after: seq<Call>, r: Record)
    requires Continues(calls, after) && RecordHolds(calls, r)
    ensures RecordHolds(after, r)
  {
    var k: nat :| TellsEnd(calls, r, k);
    assert TellsEnd(after, r, k);
    var j: nat :| Names(calls, r.requestId, r.tool, r.userIntent, j);
    assert Names(after, r.requestId, r.tool, r.userIntent, j);
  }

  // Ending call k records its end under the running task's tool, if that task has its id.
  lemma EndIsTold(s: State, calls: seq<Call>, after: State, k: nat, f: Finish)
    requires Chronicle(s) && Continues(s.calls, calls) && after.calls == calls
    requires after.recorded == if Recorded(s.store, f).Some? then [Recorded(s.store, f).value] + s.recorded
                               else s.recorded
    requires after.store.current.Some? ==> after.store.current == s.store.current
    requires Recorded(s.store, f).Some? ==> TellsEnd(calls, Recorded(s.store, f).value, k)
    ensures Chronicle(after)
  {
    forall i | 0 <= i < |after.recorded| ensures RecordHolds(calls, after.recorded[i]) {
      var told := Recorded(s.store, f);
      if told.Some? && i == 0 {
        var task := s.store.current.value;
        var j: nat :| Names(s.calls, task.requestId, task.tool, task.userIntent, j);
        assert Names(calls, told.value.requestId, told.value.tool, told.value.userIntent, j);
        assert TellsEnd(calls, told.value, k);
      } else {
        RecordStays(s.calls, calls, s.recorded[if told.Some? then i - 1 else i]);
      }
    }
    if after.store.current.Some? {
      var task := after.store.current.value;
      var j: nat :| Names(s.calls, task.requestId, task.tool, task.userIntent, j);
      assert Names(calls, task.requestId, task.tool, task.userIntent, j);
    }
  }

  lemma StartIsTold(s: State, e: Event)
    requires Chronicle(s) && e.Invoke? && e.message.params.Some?
    ensures Chronicle(Began(Opening(s, e.message), StartOf(e.message, e.now)))
  {
    var m := e.message;
    var began := Began(Opening(s, m), StartOf(m, e.now));
    assert Names(began.calls, RequestId(m), m.params.value.tool, m.params.value.userIntent, |s.calls|);
    forall i | 0 <= i < |s.recorded| ensures RecordHolds(began.calls, s.recorded[i]) {
      RecordStays(s.calls, began.calls, s.recorded[i]);
    }
  }

  lemma QuietIsTold(s: State, after: State)
    requires Chronicle(s) && Continues(s.calls, after.calls) && after.recorded == s.recorded
    requires after.store.current.Some? ==>
               && s.store.current.Some?
               && after.store.current.value.(cancelRequested := s.store.current.value.cancelRequested)
                  == s.store.current.value
    ensures Chronicle(after)
  {
    forall i | 0 <= i < |after.recorded| ensures RecordHolds(after.calls, after.recorded[i]) {
      RecordStays(s.calls, after.calls, s.recorded[i]);
    }
    if after.store.current.Some? {
      var task := s.store.current.value;
      var j: nat :| Names(s.calls, task.requestId, task.tool, task.userIntent, j);
      assert Names(after.calls, task.requestId, task.tool, task.userIntent, j);
    }
  }

  lemma FailureIsTold(s: State, k: nat, error: TaskError, elapsedMs: int, at: string)
    requires Chronicle(s) && k < |s.calls| && s.calls[k].phase.Running? && s.calls[k].message.params.Some?
    ensures Chronicle(Failed(s, k, error, elapsedMs, at))
  {
    var after := Failed(s, k, error, elapsedMs, at);
    EndIsTold(s, after.calls, after, k, FailureOf(s.calls[k].message, error, elapsedMs, at));
  }

  ghost predicate RunningHaveParams(calls: seq<Call>) {
    forall k :: 0 <= k < |calls| && calls[k].phase.Running? ==> calls[k].message.params.Some?
  }

  lemma StepKeepsChronicle(s: State, e: Event)
    requires Chronicle(s) && RunningHaveParams(s.calls) && Enabled(s, e)
    ensures Chronicle(Step(s, e)) && RunningHaveParams(Step(s, e).calls)
  {
    var after := Step(s, e);
    match e
    case Invoke(m, checks, now, elapsed, at) =>
      if m.params.None? {
        QuietIsTold(s, after);
      } else {
        StartIsTold(s, e);
        var refusal := Refusal(checks, RequestId(m) in s.store.cancelled);
        if refusal.Some? {
          FailureIsTold(Began(Opening(s, m), StartOf(m, now)), |s.calls|, refusal.value, elapsed, at);
        }
      }
    case HostReturns(k, elapsed, at) =>
      if RequestId(s.calls[k].message) in s.store.cancelled {
        QuietIsTold(s, Spent(s, k));
        FailureIsTold(Spent(s, k), k, CancelledError(), elapsed, at);
      } else {
        EndIsTold(s, after.calls, after, k, SuccessOf(s.calls[k].message, elapsed, at));
      }
    case HostThrows(k, error, elapsed, at) => FailureIsTold(s, k, error, elapsed, at);
    case CatchReplies(_) => QuietIsTold(s, after);
    case CancelArrives(_) => QuietIsTold(s, after);
  }

  lemma {:induction false} EveryRunKeepsChronicle(limitOption: int, es: seq<Event>)
    ensures Chronicle(After(limitOption, es)) && RunningHaveParams(After(limitOption, es).calls)
  {
    if es != [] {
      var before := After(limitOption, es[..|es| - 1]);
      EveryRunKeepsChronicle(limitOption, es[..|es| - 1]);
      if Enabled(before, es[|es| - 1]) { StepKeepsChronicle(before, es[|es| - 1]); }
    }
  }

  // With distinct ids every record of a run tells how the call with its id ended: by a
  // success exactly when it was answered ok, with the error it was rejected with otherwise,
  // and under that call's tool and intent.
  lemma {:induction false} RecordsTellTheTruth(limitOption: int, es: seq<Event>, i: nat) returns (k: nat)
    requires i < |After(limitOption, es).recorded| && DistinctIds(After(limitOption, es).calls)
    ensures var s := After(limitOption, es);
            var r := s.recorded[i];
            TellsEnd(s.calls, r, k) && Names(s.calls, r.requestId, r.tool, r.userIntent, k)
  {
    var s := After(limitOption, es);
    EveryRunKeepsChronicle(limitOption, es);
    assert RecordHolds(s.calls, s.recorded[i]);
    k :| TellsEnd(s.calls, s.recorded[i], k);
    var j: nat :| Names(s.calls, s.recorded[i].requestId, s.recorded[i].tool, s.recorded[i].userIntent, j);
    assert j == k by {
      assert RequestId(s.calls[j].message) == RequestId(s.calls[k].message);
    }
  }

  // What ends a call is recorded first in line, unless another call has become the running
  // task meanwhile.
  lemma {:induction false} EndIsRecordedExactly(limitOption: int, es: seq<Event>, e: Event)
    requires e.HostReturns? || e.HostThrows?
    requires Enabled(After(limitOption, es), e)
    ensures var s, after := After(limitOption, es), After(limitOption, es + [e]);
            var id := IdOf(s.calls[e.k].message);
            if s.store.current.Some? && s.store.current.value.requestId == id then
              && after.store.current == None
              && |after.recorded| == |s.recorded| + 1 && after.recorded[1..] == s.recorded
              && var r := after.recorded[0];
                 && r.requestId == id && r.tool == s.store.current.value.tool
                 && r.userIntent == s.store.current.value.userIntent
                 && r.elapsedMs == e.elapsedMs && r.completedAt == e.at
                 && r.error == (if after.calls[e.k].phase.Rejecting? then Some(after.calls[e.k].phase.error) else None)
            else after.recorded == s.recorded && after.store.current == s.store.current
  {
    OneMore(limitOption, es, e);
  }

  // A call that is not refused is the running task, with its deadline and whether it has
  // been cancelled.
  lemma {:induction false} StartedIsRunning(limitOption: int, es: seq<Event>, e: Event)
    requires e.Invoke? && e.message.params.Some?
    requires After(limitOption, es + [e]).calls[|After(limitOption, es).calls|..] == [Call(e.message, Running)]
    ensures var s, params := After(limitOption, es + [e]), e.message.params.value;
            && s.recorded == After(limitOption, es).recorded
            && s.store.current.Some?
            && var task := s.store.current.value;
               && task.requestId == IdOf(e.message) && task.tool == params.tool && task.userIntent == params.userIntent
               && task.startedAt == e.now && !task.cancelRequested
               && (task.deadlineAt.Some? <==> params.timeoutMs.Some? && params.timeoutMs != Some(0))
               && (task.deadlineAt.Some? ==> task.deadlineAt.value - task.startedAt == params.timeoutMs.value)
  {
    OneMore(limitOption, es, e);
  }

  // ---------------------------------------------------------------- bookkeeping

  lemma TasksAreConserved(limitOption: int, es: seq<Event>)
    ensures var s := After(limitOption, es);
            && s.starts == |s.recorded| + s.overwritten + (if s.store.current.Some? then 1 else 0)
            && s.store.history <= s.recorded
            && |s.store.history| == (if limitOption < 0 then 0
                                     else if limitOption == 0 && |s.recorded| > 20 then 20
                                     else if 0 < limitOption < |s.recorded| then limitOption
                                     else |s.recorded|)
            && (s.store.current.Some? ==>
                  (s.store.current.value.cancelRequested <==> Outstanding(s.trail, s.store.current.value.requestId)))
  {
    var s := After(limitOption, es);
    EveryRunKeepsInvariant(limitOption, es);
    if s.store.current.Some? {
      var id := s.store.current.value.requestId;
      assert id in s.store.cancelled <==> Outstanding(s.trail, id);
    }
  }

  // ---------------------------------------------------------------- the add-in object

  class Taskpane {
    const store: TaskHistoryStore
    var calls: seq<Call>
    ghost var trail: seq<Entry>
    ghost var starts: nat
    ghost var overwritten: nat
    ghost var recorded: seq<Record>

    ghost predicate Valid()
      reads this, store
    {
      store.Valid()
    }

    ghost function View(): State
      reads this, store, store.currentTask
    {
      State(store.View(), calls, trail, starts, overwritten, recorded)
    }

    constructor (limitOption: int)
      ensures Valid() && fresh(store) && View() == Initial(limitOption)
    {
      store := new TaskHistoryStore(limitOption);
      calls, trail, starts, overwritten, recorded := [], [], 0, 0, [];
    }

    method FinishTask(f: Finish)
      requires Valid()
      modifies this, store
      ensures Valid() && View() == Ended(old(View()), f)
      ensures store.currentTask == null || store.currentTask == old(store.currentTask)
    {
      var record := store.Finish(f);
      if record.Some? { recorded := [record.value] + recorded; }
    }

    method Fail(k: nat, error: TaskError, elapsedMs: int, at: string)
      requires Valid() && k < |calls|
      modifies this, store
      ensures Valid() && View() == Failed(old(View()), k, error, elapsedMs, at)
    {
      FinishTask(FailureOf(calls[k].message, error, elapsedMs, at));
      calls := calls[k := calls[k].(phase := Rejecting(error))];
    }

    // invokeTool up to its first await.
    method InvokeTool(m: Message, checks: Checks, now: int, elapsedMs: int, at: string)
      requires Valid()
      modifies this, store
      ensures Valid() && View() == Step(old(View()), Invoke(m, checks, now, elapsedMs, at))
    {
      var k := |calls|;
      if m.params.None? {
        calls := calls + [Call(m, Rejecting(MissingParamsError()))];
        return;
      }
      calls := calls + [Call(m, Running)];
      starts := starts + 1;
      if store.currentTask != null { overwritten := overwritten + 1; }
      store.Start(StartOf(m, now));
      if checks.disabled.Some? {
        Fail(k, checks.disabled.value, elapsedMs, at);
      } else if store.IsCancelled(RequestId(m)) {
        Fail(k, CancelledError(), elapsedMs, at);
      } else if checks.preflight.Some? {
        Fail(k, checks.preflight.value, elapsedMs, at);
      }
    }

    // The host's result resumes the call: the last chance to cancel, then the reply.
    method Resume(k: nat, elapsedMs: int, at: string)
      requires Valid() && k < |calls| && calls[k].phase.Running?
      modifies this, store
      ensures Valid() && View() == Step(old(View()), HostReturns(k, elapsedMs, at))
    {
      var m := calls[k].message;
      var cancelled := store.ConsumeCancellation(RequestId(m));
      if cancelled {
        trail := trail + [CancelSpent(k, RequestId(m))];
        Fail(k, CancelledError(), elapsedMs, at);
        return;
      }
      assert store.View().cancelled == old(store.View()).cancelled;
      FinishTask(SuccessOf(m, elapsedMs, at));
      calls := calls[k := calls[k].(phase := Done(true))];
      trail := trail + [Answered(k, RequestId(m), true)];
    }

    method Throw(k: nat, error: TaskError, elapsedMs: int, at: string)
      requires Valid() && k < |calls| && calls[k].phase.Running?
      modifies this, store
      ensures Valid() && View() == Step(old(View()), HostThrows(k, error, elapsedMs, at))
    {
      Fail(k, error, elapsedMs, at);
    }

    // The catch attached to invokeTool's promise in handleMessage.
    method Catch(k: nat)
      requires Valid() && k < |calls| && calls[k].phase.Rejecting?
      modifies this
      ensures Valid() && View() == Step(old(View()), CatchReplies(k))
    {
      calls := calls[k := calls[k].(phase := Done(false))];
      trail := trail + [Answered(k, RequestId(calls[k].message), false)];
    }

    method HandleCancel(requestId: string)
      requires Valid() && requestId != ""
      modifies this, store, store.currentTask
      ensures Valid() && View() == Step(old(View()), CancelArrives(requestId))
    {
      store.Cancel(requestId);
      trail := trail + [CancelSeen(requestId)];
    }
  }
}
