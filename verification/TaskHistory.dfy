/** The add-in's record of its running task, of the tasks it finished, and of the
    requests it was asked to cancel. */
module TaskHistory {
  import opened Wrappers

  datatype Status = Success | Failure | Cancelled

  datatype TaskError = TaskError(code: string, message: string)

  datatype Record = Record(requestId: string, tool: string, userIntent: string, status: Status, elapsedMs: int,
                           error: Option<TaskError>, completedAt: string)

  datatype Task = Task(requestId: string, tool: string, userIntent: string, startedAt: int, timeoutMs: Option<int>,
                       deadlineAt: Option<int>, cancelRequested: bool)

  datatype Start = Start(requestId: string, tool: string, userIntent: string, timeoutMs: Option<int>, now: int)

  datatype Finish = Finish(requestId: string, status: Status, elapsedMs: int, error: Option<TaskError>,
                           completedAt: string)

  // ---------------------------------------------------------------- the store as a value

  datatype Store = Store(limit: int, current: Option<Task>, history: seq<Record>, cancelled: set<string>)

  const DEFAULT_HISTORY_LIMIT := 20

  // A limit of zero stands for no limit given.
  function LimitOf(option: int): (limit: int)
    ensures limit != 0
  {
    if option == 0 then DEFAULT_HISTORY_LIMIT else option
  }

  // How many records a store keeps: a negative limit cuts every record off again.
  function Kept(limit: int): nat {
    if limit < 0 then 0 else limit
  }

  function Newest<T>(records: seq<T>, limit: nat): seq<T> {
    if |records| <= limit then records else records[..limit]
  }

  function Opened(option: int): Store {
    Store(LimitOf(option), None, [], {})
  }

  function TaskOf(s: Start, cancelled: set<string>): Task {
    var timeout := if s.timeoutMs == Some(0) then None else s.timeoutMs;
    Task(s.requestId, s.tool, s.userIntent, s.now, timeout,
         if timeout.Some? then Some(s.now + timeout.value) else None, s.requestId in cancelled)
  }

  function Started(s: Store, start: Start): Store {
    s.(current := Some(TaskOf(start, s.cancelled)))
  }

  predicate Runs(s: Store, requestId: string) {
    s.current.Some? && s.current.value.requestId == requestId
  }

  function RecordOf(task: Task, f: Finish): Record {
    Record(f.requestId, task.tool, task.userIntent, f.status, f.elapsedMs, f.error, f.completedAt)
  }

  // What a finish records: nothing when another task has taken its place.
  function Recorded(s: Store, f: Finish): Option<Record> {
    if Runs(s, f.requestId) then Some(RecordOf(s.current.value, f)) else None
  }

  function Finished(s: Store, f: Finish): Store {
    match Recorded(s, f)
    case None => s
    case Some(record) => s.(history := Newest([record] + s.history, Kept(s.limit)), current := None)
  }

  function CancelHandled(s: Store, requestId: string): Store {
    s.(cancelled := s.cancelled + {requestId},
       current := if Runs(s, requestId) then Some(s.current.value.(cancelRequested := true)) else s.current)
  }

  function Consumed(s: Store, requestId: string): Store {
    s.(cancelled := s.cancelled - {requestId})
  }

  // ---------------------------------------------------------------- the store as an object

  class RunningTask {
    const start: Start
    const timeoutMs: Option<int>
    const deadlineAt: Option<int>
    var cancelRequested: bool

    constructor (start: Start, cancelRequested: bool)
      ensures this.start == start && this.cancelRequested == cancelRequested
      ensures timeoutMs == (if start.timeoutMs == Some(0) then None else start.timeoutMs)
      ensures deadlineAt == if timeoutMs.Some? then Some(start.now + timeoutMs.value) else None
    {
      this.start := start;
      timeoutMs := if start.timeoutMs == Some(0) then None else start.timeoutMs;
      deadlineAt :=
        if start.timeoutMs.Some? && start.timeoutMs.value != 0 then Some(start.now + start.timeoutMs.value) else None;
      this.cancelRequested := cancelRequested;
    }

    function View(): Task
      reads this
    {
      Task(start.requestId, start.tool, start.userIntent, start.now, timeoutMs, deadlineAt, cancelRequested)
    }
  }

  class TaskHistoryStore {
    const historyLimit: int
    var currentTask: RunningTask?
    var history: seq<Record>
    var cancelledRequests: set<string>

    function View(): Store
      reads this, currentTask
    {
      Store(historyLimit, if currentTask == null then None else Some(currentTask.View()), history, cancelledRequests)
    }

    // splice(historyLimit) keeps no more than the limit, so the history never exceeds it.
    ghost predicate Valid()
      reads this
    {
      historyLimit != 0 && |history| <= Kept(historyLimit)
    }

    constructor (historyLimitOption: int)
      ensures Valid() && View() == Opened(historyLimitOption)
    {
      historyLimit := if historyLimitOption == 0 then DEFAULT_HISTORY_LIMIT else historyLimitOption;
      currentTask, history, cancelledRequests := null, [], {};
    }

    method Start(start: Start)
      requires Valid()
      modifies this`currentTask
      ensures Valid() && fresh(currentTask)
      ensures View() == Started(old(View()), start)
    {
      currentTask := new RunningTask(start, start.requestId in cancelledRequests);
    }

    method Finish(f: Finish) returns (record: Option<Record>)
      requires Valid()
      modifies this`currentTask, this`history
      ensures Valid() && (currentTask == null || currentTask == old(currentTask))
      ensures record == Recorded(old(View()), f)
      ensures View() == Finished(old(View()), f)
    {
      if currentTask == null || currentTask.start.requestId != f.requestId { return None; }
      var task := RecordOf(currentTask.View(), f);
      history := [task] + history;
      history := Splice(history, historyLimit);
      currentTask := null;
      return Some(task);
    }

    method Cancel(requestId: string)
      requires Valid()
      modifies this`cancelledRequests, currentTask
      ensures Valid() && View() == CancelHandled(old(View()), requestId)
    {
      cancelledRequests := cancelledRequests + {requestId};
      if currentTask != null && currentTask.start.requestId == requestId {
        currentTask.cancelRequested := true;
      }
    }

    method ConsumeCancellation(requestId: string) returns (had: bool)
      requires Valid()
      modifies this`cancelledRequests
      ensures had == (requestId in old(View()).cancelled)
      ensures Valid() && View() == Consumed(old(View()), requestId)
    {
      had := requestId in cancelledRequests;
      cancelledRequests := cancelledRequests - {requestId};
    }

    predicate IsCancelled(requestId: string)
      reads this
    {
      requestId in cancelledRequests
    }
  }

  // What Array.prototype.splice(start) leaves: a negative start counts from the end.
  function Splice<T>(s: seq<T>, start: int): seq<T> {
    if start >= 0 then Newest(s, start) else if |s| + start <= 0 then [] else s[..|s| + start]
  }
}
