/** The task manager: a bounded, insertion-ordered job store coupled to a
    FIFO dispatch queue, and the worker step that drains the queue. Each
    method is one critical section of the source, run atomically. */
module Manager {
  import opened Tasks

  /** The capacity the source uses when none is given. */
  const DefaultMaxTask: int := 100

  class TaskManager {
    const maxTask: int
    /** The keys of tasks_db, oldest first. */
    var order: seq<TaskId>
    /** The records of tasks_db. */
    var records: map<TaskId, Record>
    /** tasks_queue, head first. */
    var queue: seq<Entry>

    ghost predicate Valid()
      reads this
    {
      WellFormed(maxTask, order, records, queue)
    }

    ghost predicate Consistent()
      reads this
    {
      Tasks.Consistent(maxTask, order, records, queue)
    }

    /** Whether add_task must reject: the store is full and its oldest
        record is still pending or in progress. */
    ghost predicate Rejects()
      reads this
      requires Valid()
      ensures Rejects() <==> |order| == maxTask && !records[order[0]].status.IsTerminal()
    {
      |order| >= maxTask && records[order[0]].status in {Pending, InProgress}
    }

    constructor (maxTask: int)
      requires 1 <= maxTask
      ensures Consistent()
      ensures this.maxTask == maxTask && order == [] && records == map[] && queue == []
    {
      this.maxTask := maxTask;
      order, records, queue := [], map[], [];
    }

    /** _update_status: sets the status of a known task, and its result
        unless the given result is None; an unknown id changes nothing. */
    method UpdateStatus(id: TaskId, status: Status, result: Option<Value>)
      requires Valid()
      modifies this`records
      ensures Valid()
      ensures records == if id in old(records) then old(records)[id := Updated(old(records[id]), status, result)] else old(records)
    {
      if id in records {
        var rec := records[id];
        rec := rec.(status := status);
        if result.Some? {
          rec := rec.(result := result);
        }
        Overwrite(maxTask, order, records, queue, id, rec);
        records := records[id := rec];
      }
    }

    /** add_task, with the new uuid passed in as freshId. */
    method AddTask(func: Callable, args: seq<Arg>, freshId: TaskId) returns (id: Option<TaskId>, accepted: bool)
      requires Valid()
      requires freshId !in records
      modifies this`order, this`records, this`queue
      ensures Valid()
      ensures |order| <= maxTask
      // A full store whose oldest record is unfinished rejects and changes nothing.
      ensures old(Rejects()) ==>
        && id == None && !accepted
        && order == old(order) && records == old(records) && queue == old(queue)
      // Otherwise the new record is the newest, pending, and queued last.
      ensures !old(Rejects()) ==>
        && id == Some(freshId) && accepted
        && order == (if old(|order|) >= maxTask then old(order[1..]) else old(order)) + [freshId]
        && records == (if old(|order|) >= maxTask then old(records) - {old(order[0])} else old(records))[freshId := NewRecord]
        && queue == (if old(|order|) >= maxTask then Without(old(queue), old(order[0])) else old(queue))
                    + [Entry(func, args, freshId)]
      // At most one record, the oldest, is evicted, and only a finished one.
      ensures forall x :: x in old(records) && x !in records ==> x == old(order[0]) && old(records[x].status).IsTerminal()
      ensures old(Consistent()) ==> Consistent() && Advances(old(records), records)
      ensures old(Consistent()) && accepted ==> queue == old(queue) + [Entry(func, args, freshId)]
    {
      if |order| >= maxTask {
        var oldestId := order[0];
        var oldest := records[oldestId];
        if oldest.status == InProgress || oldest.status == Pending {
          return None, false;
        }
        EvictOldest(maxTask, order, records, queue);
        order := order[1..];
        records := records - {oldestId};
        queue := Without(queue, oldestId);
      }
      Enqueue(maxTask, order, records, queue, Entry(func, args, freshId));
      if Tasks.Consistent(maxTask, order, records, queue) {
        EnqueueConsistent(maxTask, order, records, queue, Entry(func, args, freshId));
      }
      order := order + [freshId];
      records := records[freshId := NewRecord];
      queue := queue + [Entry(func, args, freshId)];
      id, accepted := Some(freshId), true;
    }
  
    /** get_status: answers for one task as StatusOf says and writes the
        answer's queue position back into its record. */
    method GetStatus(id: TaskId) returns (reply: StatusReply)
      requires Valid()
      modifies this`records
      ensures Valid()
      ensures reply == StatusOf(old(queue), old(records), id)
      ensures records == if reply.Found? then old(records)[id := reply.record] else old(records)
      ensures old(Consistent()) ==> Consistent() && Advances(old(records), records)
    {
      reply := StatusOf(queue, records, id);
      if reply.Found? {
        if Consistent() {
          StatusOfConsistent(maxTask, order, records, queue, id);
        }
        Overwrite(maxTask, order, records, queue, id, reply.record);
        records := records[id := reply.record];
      }
    }

    /** get_all_tasks: every task with its status only, oldest first. */
    function GetAllTasks(): (listing: seq<(TaskId, Status)>)
      reads this
      requires Valid()
      ensures |listing| == |order|
      ensures forall i :: 0 <= i < |listing| ==> listing[i].0 == order[i] && listing[i].1 == records[order[i]].status
      ensures forall i, j :: 0 <= i < j < |listing| ==> listing[i].0 != listing[j].0
    {
      seq(|order|, i requires 0 <= i < |order| && order[i] in records reads this => (order[i], records[order[i]].status))
    }

    /** remove_specific_task: only a pending task is removed, with its queue
        entries; anything else is refused and nothing changes. */
    method RemoveSpecificTask(id: TaskId) returns (removed: bool)
      requires Valid()
      modifies this`order, this`records, this`queue
      ensures Valid()
      ensures removed <==> id in old(records) && old(records[id].status) == Pending
      ensures removed ==>
        && order == Erase(old(order), id)
        && records == old(records) - {id}
        && queue == Without(old(queue), id)
      ensures !removed ==> order == old(order) && records == old(records) && queue == old(queue)
      ensures old(Consistent()) ==> Consistent() && Advances(old(records), records)
    {
      if id in records && records[id].status == Pending {
        RemovePending(maxTask, order, records, queue, id);
        order := Erase(order, id);
        records := records - {id};
        queue := Without(queue, id);
        return true;
      }
      return false;
    }

    /** The first half of a worker iteration: pop the queue head and mark
        its task in-progress (the source releases the lock in between; here
        the two happen at once). An empty queue changes nothing. */
    method BeginDispatch() returns (next: Option<Entry>)
      requires Valid()
      modifies this`queue, this`records
      ensures Valid()
      ensures order == old(order)
      ensures old(queue) == [] ==> next == None && queue == old(queue) && records == old(records)
      ensures old(queue) != [] ==>
        && next == Some(old(queue[0]))
        && queue == old(queue[1..])
        && records == old(records[queue[0].id := Updated(records[queue[0].id], InProgress, None)])
      // Dispatch is FIFO: the task started is the oldest pending one.
      ensures old(Consistent()) && next.Some? ==>
        && old(records[queue[0].id].status) == Pending
        && next.value.id == old(PendingOf(order, records))[0]
      ensures old(Consistent()) ==> Consistent() && Advances(old(records), records)
    {
      if queue == [] {
        return None;
      }
      var head := queue[0];
      ghost var running := Updated(records[head.id], InProgress, None);
      PopHead(maxTask, order, records, queue, running);
      if Consistent() {
        PopHeadConsistent(maxTask, order, records, queue, running);
      }
      queue := queue[1..];
      UpdateStatus(head.id, InProgress, None);
      next := Some(head);
    }

    /** The second half of a worker iteration: record how the payload
        ended, completed with its return value or failed with the error's
        text. */
    method FinishDispatch(id: TaskId, outcome: Outcome)
      requires Valid()
      modifies this`records
      ensures Valid()
      ensures records == if id in old(records) then old(records)[id := Settle(old(records[id]), outcome)] else old(records)
      ensures old(Consistent()) && (id in old(records) ==> old(records[id].status) == InProgress) ==>
        Consistent() && Advances(old(records), records)
    {
      if id in records {
        SettleKeeps(maxTask, order, records, queue, id, outcome);
      }
      match outcome {
        case Ok(v) =>
          UpdateStatus(id, Completed, if v.Some? then Some(Returned(v.value)) else None);
        case Err(m) =>
          UpdateStatus(id, Failed, Some(Message(m)));
      }
    }
  }
}
