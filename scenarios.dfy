/** Client runs of the task manager, proved from the methods' contracts
    alone. Each step is its own method so that every proof only sees the
    state the step starts from. */
module Scenarios {
  import opened Tasks
  import opened Manager

  /** Two tasks a and b, submitted in that order, with the given statuses,
      and the queue holding exactly those of them that are pending. */
  predicate Holds(m: TaskManager, a: TaskId, sa: Status, b: TaskId, sb: Status)
    reads m
  {
    && m.order == [a, b]
    && a in m.records && m.records[a].status == sa
    && b in m.records && m.records[b].status == sb
    && Ids(m.queue) == (if sa == Pending then [a] else []) + (if sb == Pending then [b] else [])
  }

  /** Submitting J1 and J2 to an empty manager admits both. */
  method SubmitTwo(f: Callable, capacity: int, j1: TaskId, j2: TaskId) returns (m: TaskManager, first: bool, second: bool)
    requires 2 <= capacity && j1 != j2
    ensures fresh(m) && m.Consistent() && m.maxTask == capacity
    ensures first && second && Holds(m, j1, Pending, j2, Pending)
  {
    m := new TaskManager(capacity);
    var id1, id2;
    id1, first := m.AddTask(f, [], j1);
    id2, second := m.AddTask(f, [], j2);
    assert Ids(m.queue) == [j1, j2];
  }

  /** Two pending tasks report queue positions 1 and 2, in submission
      order. */
  method RankBoth(m: TaskManager, j1: TaskId, j2: TaskId) returns (position1: StatusReply, position2: StatusReply)
    requires m.Consistent() && Holds(m, j1, Pending, j2, Pending)
    modifies m
    ensures m.Consistent() && Holds(m, j1, Pending, j2, Pending)
    ensures position1.Found? && position1.record.queuePosition == Some(1)
    ensures position2.Found? && position2.record.queuePosition == Some(2)
  {
    assert Ids(m.queue)[0] == j1;
    StatusOfConsistent(m.maxTask, m.order, m.records, m.queue, j1);
    position1 := m.GetStatus(j1);
    assert position1.Found? && position1.record.queuePosition == Some(1);
    assert Ids(m.queue)[1] == j2;
    StatusOfConsistent(m.maxTask, m.order, m.records, m.queue, j2);
    position2 := m.GetStatus(j2);
  }

  /** The listing of a two-task store. */
  method ListTwo(m: TaskManager, a: TaskId, sa: Status, b: TaskId, sb: Status) returns (listing: seq<(TaskId, Status)>)
    requires m.Valid() && Holds(m, a, sa, b, sb)
    ensures listing == [(a, sa), (b, sb)]
  {
    listing := m.GetAllTasks();
  }

  /** A full store whose oldest job is still pending refuses a new job
      and stays as it was. */
  method RefuseThird(m: TaskManager, f: Callable, j1: TaskId, j2: TaskId, j3: TaskId) returns (third: bool)
    requires m.Consistent() && m.maxTask == 2 && Holds(m, j1, Pending, j2, Pending)
    requires j3 != j1 && j3 != j2
    modifies m
    ensures m.Valid() && !third && Holds(m, j1, Pending, j2, Pending)
  {
    assert m.Valid() && m.Rejects();
    var id3;
    id3, third := m.AddTask(f, [], j3);
  }

  /** Capacity 2: two jobs are admitted with queue positions 1 and 2. */
  method SubmitAndRank(f: Callable, j1: TaskId, j2: TaskId)
    returns (m: TaskManager, first: bool, second: bool, position1: StatusReply, position2: StatusReply)
    requires j1 != j2
    ensures fresh(m) && m.Consistent() && m.maxTask == 2 && Holds(m, j1, Pending, j2, Pending)
    ensures first && second
    ensures position1.Found? && position1.record.queuePosition == Some(1)
    ensures position2.Found? && position2.record.queuePosition == Some(2)
  {
    m, first, second := SubmitTwo(f, 2, j1, j2);
    position1, position2 := RankBoth(m, j1, j2);
  }

  /** ... and a third is refused while both are unfinished, leaving the
      store as it was. */
  method RejectScenario(f: Callable, j1: TaskId, j2: TaskId, j3: TaskId)
    returns (first: bool, second: bool, third: bool,
             position1: StatusReply, position2: StatusReply, listing: seq<(TaskId, Status)>)
    requires j1 != j2 && j1 != j3 && j2 != j3
    ensures first && second && !third
    ensures position1.Found? && position1.record.queuePosition == Some(1)
    ensures position2.Found? && position2.record.queuePosition == Some(2)
    ensures listing == [(j1, Pending), (j2, Pending)]
  {
    var m;
    m, first, second, position1, position2 := SubmitAndRank(f, j1, j2);
    third := RefuseThird(m, f, j1, j2, j3);
    listing := ListTwo(m, j1, Pending, j2, Pending);
  }

  /** The worker starts the oldest pending job first. */
  method StartFirst(m: TaskManager, j1: TaskId, j2: TaskId) returns (started: Option<Entry>)
    requires m.Consistent() && Holds(m, j1, Pending, j2, Pending)
    modifies m
    ensures m.Consistent() && started.Some? && started.value.id == j1
    ensures Holds(m, j1, InProgress, j2, Pending)
  {
    started := m.BeginDispatch();
    assert Ids(m.queue) == [j2];
  }

  /** ... runs it, and it ends completed or failed as its payload returned
      or raised. */
  method RunFirst(m: TaskManager, j1: TaskId, j2: TaskId, outcome: Outcome) returns (started: Option<Entry>)
    requires m.Consistent() && Holds(m, j1, Pending, j2, Pending)
    modifies m
    ensures m.Consistent() && started.Some? && started.value.id == j1
    ensures Holds(m, j1, if outcome.Ok? then Completed else Failed, j2, Pending)
    ensures outcome.Err? ==> m.records[j1].result == Some(Message(outcome.message))
    ensures outcome.Ok? && outcome.returned.Some? ==> m.records[j1].result == Some(Returned(outcome.returned.value))
  {
    started := StartFirst(m, j1, j2);
    assert m.Consistent() && Holds(m, j1, InProgress, j2, Pending);
    m.FinishDispatch(j1, outcome);
  }

  /** A full store whose oldest job has finished admits a new job by
      evicting that one. */
  method AdmitThird(m: TaskManager, f: Callable, j1: TaskId, j2: TaskId, j3: TaskId) returns (third: bool)
    requires m.Consistent() && m.maxTask == 2 && Holds(m, j1, Completed, j2, Pending)
    requires j3 != j1 && j3 != j2
    modifies m
    ensures m.Valid() && third && Holds(m, j2, Pending, j3, Pending)
  {
    assert m.Valid() && !m.Rejects() && |m.order| >= m.maxTask && m.order[0] == j1;
    ghost var q0, db0 := m.queue, m.records;
    assert j1 !in Ids(q0);
    var id3;
    id3, third := m.AddTask(f, [], j3);
    assert third && m.order == [j2, j3];
    assert m.records == (db0 - {j1})[j3 := NewRecord];
    assert m.queue == Without(q0, j1) + [Entry(f, [], j3)];
    IdsAppend(q0, [Entry(f, [], j3)]);
  }

  /** Capacity 2, continued: once the first job has completed, a third job
      is admitted by evicting it, and the store holds the second and the
      third. */
  method EvictScenario(f: Callable, v: Obj, j1: TaskId, j2: TaskId, j3: TaskId)
    returns (third: bool, listing: seq<(TaskId, Status)>)
    requires j1 != j2 && j1 != j3 && j2 != j3
    ensures third
    ensures listing == [(j2, Pending), (j3, Pending)]
  {
    var m, ok1, ok2 := SubmitTwo(f, 2, j1, j2);
    var started := RunFirst(m, j1, j2, Ok(Some(v)));
    assert m.Consistent() && Holds(m, j1, Completed, j2, Pending) && m.maxTask == 2;
    third := AdmitThird(m, f, j1, j2, j3);
    assert m.Valid() && Holds(m, j2, Pending, j3, Pending);
    listing := ListTwo(m, j2, Pending, j3, Pending);
  }

  /** A failed job reports its error text and no queue position; an
      unknown id is not found and cannot be removed. */
  method Inspect(m: TaskManager, message: string, j0: TaskId, j1: TaskId, j2: TaskId)
    returns (failed: StatusReply, unknown: StatusReply, removed: bool)
    requires m.Consistent() && Holds(m, j1, Failed, j2, Pending)
    requires m.records[j1].result == Some(Message(message))
    requires j0 != j1 && j0 != j2
    modifies m
    ensures m.Consistent() && Holds(m, j1, Failed, j2, Pending)
    ensures failed == Found(Record(Failed, Some(Message(message)), None))
    ensures unknown == NotFound && !removed
  {
    failed := m.GetStatus(j1);
    assert failed == Found(Record(Failed, Some(Message(message)), None));
    assert m.Consistent() && Holds(m, j1, Failed, j2, Pending);
    unknown := m.GetStatus(j0);
    assert unknown == NotFound && m.Consistent() && Holds(m, j1, Failed, j2, Pending);
    removed := m.RemoveSpecificTask(j0);
  }

  /** The worker goes on to the next queued job after a failure. */
  method RunNext(m: TaskManager, j1: TaskId, j2: TaskId) returns (next: Option<Entry>)
    requires m.Consistent() && Holds(m, j1, Failed, j2, Pending)
    modifies m
    ensures next.Some? && next.value.id == j2
  {
    next := m.BeginDispatch();
  }

  /** A payload that raises leaves its job failed with the error's text,
      and the next job is still dispatched; an unknown id is reported as
      not found and cannot be removed. */
  method FailureScenario(f: Callable, message: string, j0: TaskId, j1: TaskId, j2: TaskId)
    returns (failed: StatusReply, unknown: StatusReply, removed: bool, next: Option<Entry>)
    requires j1 != j2 && j0 != j1 && j0 != j2
    ensures failed == Found(Record(Failed, Some(Message(message)), None))
    ensures unknown == NotFound && !removed
    ensures next.Some? && next.value.id == j2
  {
    var m, ok1, ok2 := SubmitTwo(f, DefaultMaxTask, j1, j2);
    var started := RunFirst(m, j1, j2, Err(message));
    assert m.Consistent() && Holds(m, j1, Failed, j2, Pending) && m.records[j1].result == Some(Message(message));
    failed, unknown, removed := Inspect(m, message, j0, j1, j2);
    assert m.Consistent() && Holds(m, j1, Failed, j2, Pending);
    next := RunNext(m, j1, j2);
  }

  /** Once the worker has started a job it cannot be removed: popping it and
      marking it in-progress are one step, so no removal sees it pending
      and unqueued. */
  method StartedNotRemovable(m: TaskManager) returns (started: Option<Entry>, removed: bool)
    requires m.Consistent() && m.queue != []
    modifies m
    ensures m.Consistent() && started.Some? && !removed
    ensures started.value.id in m.records && m.records[started.value.id].status == InProgress
  {
    started := m.BeginDispatch();
    removed := m.RemoveSpecificTask(started.value.id);
  }
}
