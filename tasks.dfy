/** Values of the task manager: job records, dispatch-queue entries, and the
    pure computations over them (queue rebuilds, the pending rank, the
    insertion-ordered view of the store), with the lemmas that tie the
    dispatch queue to the store. */
module Tasks {

  /** A job handle (the source draws a fresh uuid4 string). */
  type TaskId = string

  /** The payload's callable, its positional arguments, and a non-None value
      it may return: all opaque to the manager. */
  type Callable(!new)
  type Arg(!new)
  type Obj(!new)

  datatype Option<T> = None | Some(value: T)

  /** "pending", "in-progress", "completed", "failed". */
  datatype Status = Pending | InProgress | Completed | Failed {
    predicate IsTerminal() { this == Completed || this == Failed }
  }

  /** What a record's result field may hold: a value the payload returned,
      or the text of the error it raised. */
  datatype Value = Returned(obj: Obj) | Message(text: string)

  /** A job record; a result of None is Python's None, and a queue position
      of None stands both for the missing key and for None. */
  datatype Record = Record(status: Status, result: Option<Value>, queuePosition: Option<nat>)

  /** The record add_task creates. */
  const NewRecord: Record := Record(Pending, None, None)

  /** One dispatch-queue entry: the tuple (func, args, task_id). */
  datatype Entry = Entry(func: Callable, args: seq<Arg>, id: TaskId)

  /** How one payload call ended: it returned (possibly None), or it raised
      an exception whose str() is the message. */
  datatype Outcome = Ok(returned: Option<Obj>) | Err(message: string)

  predicate Distinct<T(==)>(s: seq<T>) {
    forall i, j :: 0 <= i < j < |s| ==> s[i] != s[j]
  }

  /** The task ids of the queue entries, in queue order. */
  function Ids(q: seq<Entry>): (ids: seq<TaskId>)
    ensures |ids| == |q|
    ensures forall i :: 0 <= i < |q| ==> ids[i] == q[i].id
    ensures forall e :: e in q ==> e.id in ids
  {
    if q == [] then [] else [q[0].id] + Ids(q[1..])
  }

  /** The sequence with every occurrence of x taken out, the others kept in
      order: how deleting a key updates the insertion order of the store. */
  function Erase(s: seq<TaskId>, x: TaskId): (r: seq<TaskId>)
    ensures forall y :: y in r <==> y in s && y != x
    ensures x !in s ==> r == s
    ensures Distinct(s) ==> Distinct(r)
    ensures Distinct(s) && x in s ==> |r| == |s| - 1
  {
    if s == [] then []
    else if s[0] == x then Erase(s[1..], x)
    else
      assert Distinct(s) ==> Distinct(s[1..]) && s[0] !in s[1..];
      [s[0]] + Erase(s[1..], x)
  }

  /** The queue rebuilt without the entries of one task, the rest in their
      original order. */
  function Without(q: seq<Entry>, id: TaskId): (r: seq<Entry>)
    ensures forall e :: e in r <==> e in q && e.id != id
    ensures id !in Ids(q) ==> r == q
  {
    if q == [] then []
    else (if q[0].id == id then [] else [q[0]]) + Without(q[1..], id)
  }

  /** First index of x in s (Python's list.index), None where it raises. */
  function IndexOf<T(==)>(s: seq<T>, x: T): (r: Option<nat>)
    ensures r.Some? ==> r.value < |s| && s[r.value] == x
    ensures r.Some? ==> forall j :: 0 <= j < r.value ==> s[j] != x
    ensures r.None? <==> x !in s
  {
    if s == [] then None
    else if s[0] == x then Some(0)
    else match IndexOf(s[1..], x)
      case None => None
      case Some(i) => Some(i + 1)
  }

  /** The ids of queue entries whose record is pending, in queue order: the
      list get_status ranks a pending task in. */
  function PendingIds(q: seq<Entry>, db: map<TaskId, Record>): (ids: seq<TaskId>)
    requires forall e :: e in q ==> e.id in db
    ensures forall x :: x in ids <==> x in Ids(q) && x in db && db[x].status == Pending
  {
    if q == [] then []
    else (if db[q[0].id].status == Pending then [q[0].id] else []) + PendingIds(q[1..], db)
  }

  /** The record as _update_status leaves it: the status set, the result
      replaced only by a given (non-None) one, the queue position kept. */
  function Updated(r: Record, status: Status, result: Option<Value>): (u: Record)
    ensures u.status == status && u.queuePosition == r.queuePosition
    ensures u.result == (if result.None? then r.result else result)
  {
    r.(status := status, result := if result.Some? then result else r.result)
  }

  /** The record once the payload of a dispatched task ended: completed
      with what it returned (a None return leaves the result as it was), or
      failed with the error's text. */
  function Settle(r: Record, outcome: Outcome): (s: Record)
    ensures s.status.IsTerminal() && s.queuePosition == r.queuePosition
    ensures s.status == Failed <==> outcome.Err?
    ensures outcome.Err? ==> s.result == Some(Message(outcome.message))
    ensures outcome.Ok? && outcome.returned.Some? ==> s.result == Some(Returned(outcome.returned.value))
    ensures outcome == Ok(None) ==> s.result == r.result
  {
    match outcome
    case Ok(v) => Updated(r, Completed, if v.Some? then Some(Returned(v.value)) else None)
    case Err(m) => Updated(r, Failed, Some(Message(m)))
  }

  /** A reply of get_status: the record, None for an unknown id, or the
      ValueError that list.index raises when a pending task is not among the
      queue's pending entries. */
  datatype StatusReply = Found(record: Record) | NotFound | NotInQueue

  /** What get_status answers and writes back: the record with its queue
      position set to its 1-based rank among the queue's pending entries, or
      to None when it is not pending. */
  function StatusOf(q: seq<Entry>, db: map<TaskId, Record>, id: TaskId): (reply: StatusReply)
    requires forall e :: e in q ==> e.id in db
    ensures reply == NotFound <==> id !in db
    // Only the queue position of the record differs from the stored one.
    ensures reply.Found? ==>
      && id in db
      && reply.record.status == db[id].status
      && reply.record.result == db[id].result
    ensures id in db && db[id].status != Pending ==> reply.Found? && reply.record.queuePosition == None
    // A pending task missing from the pending entries raises ValueError ...
    ensures id in db && db[id].status == Pending ==>
      (reply == NotInQueue <==> id !in PendingIds(q, db))
    // ... and one among them gets one more than its first index there.
    ensures id in db && db[id].status == Pending && reply.Found? ==>
      && reply.record.queuePosition.Some?
      && var ids, k := PendingIds(q, db), reply.record.queuePosition.value - 1;
      && 0 <= k < |ids| && ids[k] == id
      && forall j :: 0 <= j < k ==> ids[j] != id
  {
    if id !in db then NotFound
    else if db[id].status != Pending then Found(db[id].(queuePosition := None))
    else match IndexOf(PendingIds(q, db), id)
      case None => NotInQueue
      case Some(k) => Found(db[id].(queuePosition := Some(k + 1)))
  }

  /** The pending records of the store, in insertion (submission) order. */
  function PendingOf(order: seq<TaskId>, db: map<TaskId, Record>): (p: seq<TaskId>)
    requires forall x :: x in order ==> x in db
    ensures forall x :: x in p <==> x in order && db[x].status == Pending
    ensures Distinct(order) ==> Distinct(p)
  {
    if order == [] then []
    else (if db[order[0]].status == Pending then [order[0]] else []) + PendingOf(order[1..], db)
  }

  /** Whether status takes one step along the lifecycle
      pending -> in-progress -> completed | failed, or stays. */
  predicate Advance(from: Status, to: Status) {
    from == to || (from == Pending && to == InProgress) || (from == InProgress && to.IsTerminal())
  }

  /** Every record present before and after moved along the lifecycle. */
  ghost predicate Advances(db: map<TaskId, Record>, db': map<TaskId, Record>) {
    forall x :: x in db && x in db' ==> Advance(db[x].status, db'[x].status)
  }

  /** The structure every operation keeps: the store is bounded, its
      insertion order lists each key once, and every queue entry names a
      distinct stored task. */
  ghost predicate WellFormed(maxTask: int, order: seq<TaskId>, db: map<TaskId, Record>, q: seq<Entry>) {
    StoreWellFormed(maxTask, order, db) && QueueWellFormed(q, db)
  }

  /** The store is bounded and its insertion order lists each key once. */
  ghost predicate StoreWellFormed(maxTask: int, order: seq<TaskId>, db: map<TaskId, Record>) {
    && 1 <= maxTask
    && |order| <= maxTask
    && Distinct(order)
    && (forall x :: x in order <==> x in db)
  }

  /** Every queue entry names a distinct stored task. */
  ghost predicate QueueWellFormed(q: seq<Entry>, db: map<TaskId, Record>) {
    && Distinct(Ids(q))
    && (forall e :: e in q ==> e.id in db)
  }

  /** The dispatch discipline: the queue holds exactly the pending records,
      once each, in submission order. */
  ghost predicate Consistent(maxTask: int, order: seq<TaskId>, db: map<TaskId, Record>, q: seq<Entry>) {
    WellFormed(maxTask, order, db, q) && Ids(q) == PendingOf(order, db)
  }

  // ---------------------------------------------------------------------
  // Lemmas about the queue rebuild

  lemma DistinctSnoc(s: seq<TaskId>, x: TaskId)
    requires Distinct(s) && x !in s
    ensures Distinct(s + [x])
  {
    var s' := s + [x];
    forall i, j | 0 <= i < j < |s'| ensures s'[i] != s'[j] {
      if j == |s| { assert s'[i] in s; }
    }
  }

  lemma IdsAppend(a: seq<Entry>, b: seq<Entry>)
    ensures Ids(a + b) == Ids(a) + Ids(b)
  {
  }

  /** The ids left in the rebuilt queue are the old ids with id erased. */
  lemma {:induction false} WithoutIds(q: seq<Entry>, id: TaskId)
    ensures Ids(Without(q, id)) == Erase(Ids(q), id)
  {
    if q != [] {
      WithoutIds(q[1..], id);
      assert Ids(q)[1..] == Ids(q[1..]);
      IdsAppend(if q[0].id == id then [] else [q[0]], Without(q[1..], id));
    }
  }

  // ---------------------------------------------------------------------
  // Lemmas about the pending records in submission order

  lemma {:induction false} PendingOfAppend(a: seq<TaskId>, b: seq<TaskId>, db: map<TaskId, Record>)
    requires forall x :: x in a + b ==> x in db
    ensures PendingOf(a + b, db) == PendingOf(a, db) + PendingOf(b, db)
  {
    if a == [] {
      assert a + b == b;
    } else {
      assert (a + b)[1..] == a[1..] + b;
      PendingOfAppend(a[1..], b, db);
    }
  }

  /** Only which records are pending matters to PendingOf. */
  lemma {:induction false} PendingOfFrame(order: seq<TaskId>, db: map<TaskId, Record>, db': map<TaskId, Record>)
    requires forall x :: x in order ==> x in db && x in db'
    requires forall x :: x in order ==> (db[x].status == Pending <==> db'[x].status == Pending)
    ensures PendingOf(order, db) == PendingOf(order, db')
  {
    if order != [] {
      PendingOfFrame(order[1..], db, db');
    }
  }

  lemma {:induction false} EraseAppend(a: seq<TaskId>, b: seq<TaskId>, x: TaskId)
    ensures Erase(a + b, x) == Erase(a, x) + Erase(b, x)
  {
    if a != [] {
      assert (a + b)[1..] == a[1..] + b;
      EraseAppend(a[1..], b, x);
    } else {
      assert a + b == b;
    }
  }

  /** A record that stops being pending drops out of PendingOf, the rest
      keeping their order. */
  lemma {:induction false} PendingOfDemote(order: seq<TaskId>, db: map<TaskId, Record>, x: TaskId, r: Record)
    requires forall y :: y in order ==> y in db
    requires r.status != Pending
    ensures PendingOf(order, db[x := r]) == Erase(PendingOf(order, db), x)
  {
    if order != [] {
      var head := if db[order[0]].status == Pending then [order[0]] else [];
      PendingOfDemote(order[1..], db, x, r);
      EraseAppend(head, PendingOf(order[1..], db), x);
    }
  }

  /** Deleting a key from the store erases it from PendingOf. */
  lemma {:induction false} PendingOfErase(order: seq<TaskId>, db: map<TaskId, Record>, x: TaskId)
    requires forall y :: y in order ==> y in db
    ensures PendingOf(Erase(order, x), db - {x}) == Erase(PendingOf(order, db), x)
  {
    if order != [] {
      var head := if db[order[0]].status == Pending then [order[0]] else [];
      PendingOfErase(order[1..], db, x);
      EraseAppend(head, PendingOf(order[1..], db), x);
      if order[0] != x {
        assert Erase(order, x) == [order[0]] + Erase(order[1..], x);
        assert Erase(order, x)[1..] == Erase(order[1..], x);
      }
    }
  }

  /** get_status ranks a task among the queue's pending entries
      (scripts/task_manager.py:89); when every entry is pending that list
      is the whole queue. */
  lemma {:induction false} PendingIdsAllPending(q: seq<Entry>, db: map<TaskId, Record>)
    requires forall e :: e in q ==> e.id in db && db[e.id].status == Pending
    ensures PendingIds(q, db) == Ids(q)
  {
    if q != [] {
      PendingIdsAllPending(q[1..], db);
    }
  }

  /** Under the dispatch discipline a pending task has a rank among the
      queue's pending entries (scripts/task_manager.py:89), and that rank
      is both its place in the queue and the number of pending tasks
      submitted at or before it. */
  lemma PendingRank(maxTask: int, order: seq<TaskId>, db: map<TaskId, Record>, q: seq<Entry>, id: TaskId)
    requires Consistent(maxTask, order, db, q)
    requires id in db && db[id].status == Pending
    ensures IndexOf(PendingIds(q, db), id).Some?
    ensures var k := IndexOf(PendingIds(q, db), id).value;
      && k < |q| && q[k].id == id
      && k < |PendingOf(order, db)| && PendingOf(order, db)[k] == id
  {
    forall e | e in q ensures e.id in db && db[e.id].status == Pending {
      assert e.id in PendingOf(order, db);
    }
    PendingIdsAllPending(q, db);
  }

  /** Under the dispatch discipline get_status never raises for a stored
      task, and a pending task's position is its place in the queue, which
      is also its rank among the pending tasks in submission order. Writing
      the answer back keeps the structure and the discipline. */
  lemma StatusOfConsistent(maxTask: int, order: seq<TaskId>, db: map<TaskId, Record>, q: seq<Entry>, id: TaskId)
    requires Consistent(maxTask, order, db, q)
    requires id in db
    ensures StatusOf(q, db, id).Found?
    ensures Consistent(maxTask, order, db[id := StatusOf(q, db, id).record], q)
    ensures db[id].status == Pending ==>
      && StatusOf(q, db, id).record.queuePosition.Some?
      && var k := StatusOf(q, db, id).record.queuePosition.value - 1;
      && 0 <= k < |q| && q[k].id == id
      && k < |PendingOf(order, db)| && PendingOf(order, db)[k] == id
  {
    if db[id].status == Pending {
      PendingRank(maxTask, order, db, q, id);
    }
    Overwrite(maxTask, order, db, q, id, StatusOf(q, db, id).record);
  }

  // ---------------------------------------------------------------------
  // The steps of add_task at the level of values

  /** Evicting the oldest record when it is finished keeps the structure,
      and under the dispatch discipline strips nothing from the queue. */
  lemma EvictOldest(maxTask: int, order: seq<TaskId>, db: map<TaskId, Record>, q: seq<Entry>)
    requires WellFormed(maxTask, order, db, q)
    requires order != [] && db[order[0]].status.IsTerminal()
    ensures WellFormed(maxTask, order[1..], db - {order[0]}, Without(q, order[0]))
    ensures Consistent(maxTask, order, db, q) ==>
      && Without(q, order[0]) == q
      && Consistent(maxTask, order[1..], db - {order[0]}, q)
  {
    var o := order[0];
    WithoutIds(q, o);
    assert Distinct(order[1..]);
    forall x ensures x in order[1..] <==> x in db - {o} {
      if x in order && x != o {
        var i :| 0 <= i < |order| && order[i] == x;
        assert order[1..][i - 1] == x;
      }
    }
    if Consistent(maxTask, order, db, q) {
      assert o !in Ids(q);
      assert PendingOf(order, db) == PendingOf(order[1..], db);
      PendingOfFrame(order[1..], db, db - {o});
    }
  }

  /** A task that is not stored has no queue entry. */
  lemma UnstoredUnqueued(q: seq<Entry>, db: map<TaskId, Record>, x: TaskId)
    requires forall e :: e in q ==> e.id in db
    requires x !in db
    ensures x !in Ids(q)
  {
    forall i | 0 <= i < |q| ensures Ids(q)[i] != x {
      assert q[i] in q;
    }
  }

  /** Inserting a fresh key as the newest keeps the store well formed
      while there is room. */
  lemma StoreInsert(maxTask: int, order: seq<TaskId>, db: map<TaskId, Record>, x: TaskId, r: Record)
    requires StoreWellFormed(maxTask, order, db)
    requires |order| < maxTask && x !in db
    ensures StoreWellFormed(maxTask, order + [x], db[x := r])
  {
    DistinctSnoc(order, x);
  }

  /** Queueing an entry for a task that was not stored, once it is stored,
      keeps the queue well formed. */
  lemma QueueAppend(q: seq<Entry>, db: map<TaskId, Record>, e: Entry, r: Record)
    requires QueueWellFormed(q, db)
    requires e.id !in db
    ensures QueueWellFormed(q + [e], db[e.id := r])
  {
    UnstoredUnqueued(q, db, e.id);
    DistinctSnoc(Ids(q), e.id);
    IdsAppend(q, [e]);
  }

  /** Inserting a fresh pending record as the newest and queueing it last
      keeps the structure. */
  lemma Enqueue(maxTask: int, order: seq<TaskId>, db: map<TaskId, Record>, q: seq<Entry>, e: Entry)
    requires WellFormed(maxTask, order, db, q)
    requires |order| < maxTask && e.id !in db
    ensures WellFormed(maxTask, order + [e.id], db[e.id := NewRecord], q + [e])
  {
    StoreInsert(maxTask, order, db, e.id, NewRecord);
    QueueAppend(q, db, e, NewRecord);
  }

  /** ... and keeps the dispatch discipline: the new task is the last
      pending one, both in the store and in the queue. */
  lemma EnqueueConsistent(maxTask: int, order: seq<TaskId>, db: map<TaskId, Record>, q: seq<Entry>, e: Entry)
    requires Consistent(maxTask, order, db, q)
    requires |order| < maxTask && e.id !in db
    ensures Consistent(maxTask, order + [e.id], db[e.id := NewRecord], q + [e])
  {
    var db' := db[e.id := NewRecord];
    Enqueue(maxTask, order, db, q, e);
    IdsAppend(q, [e]);
    PendingOfFrame(order, db, db');
    PendingOfAppend(order, [e.id], db');
  }

  // ---------------------------------------------------------------------
  // The steps of remove_specific_task, of the worker and of a record
  // overwrite at the level of values

  /** Deleting a pending record and stripping its queue entries keeps the
      structure and the dispatch discipline. */
  lemma RemovePending(maxTask: int, order: seq<TaskId>, db: map<TaskId, Record>, q: seq<Entry>, id: TaskId)
    requires WellFormed(maxTask, order, db, q)
    requires id in db && db[id].status == Pending
    ensures WellFormed(maxTask, Erase(order, id), db - {id}, Without(q, id))
    ensures Consistent(maxTask, order, db, q) ==> Consistent(maxTask, Erase(order, id), db - {id}, Without(q, id))
  {
    WithoutIds(q, id);
    if Consistent(maxTask, order, db, q) {
      PendingOfErase(order, db, id);
    }
  }

  lemma DistinctTail(s: seq<TaskId>)
    requires Distinct(s) && s != []
    ensures Distinct(s[1..]) && s[0] !in s[1..]
  {
  }

  /** Popping the queue head and marking its record with a status other
      than pending keeps the structure. */
  lemma PopHead(maxTask: int, order: seq<TaskId>, db: map<TaskId, Record>, q: seq<Entry>, r: Record)
    requires WellFormed(maxTask, order, db, q)
    requires q != []
    ensures WellFormed(maxTask, order, db, q[1..])
    ensures WellFormed(maxTask, order, db[q[0].id := r], q[1..])
  {
    assert Ids(q[1..]) == Ids(q)[1..];
    DistinctTail(Ids(q));
  }

  /** Under the dispatch discipline the queue head is the oldest pending
      record, and marking it in-progress when popping it keeps the
      discipline. */
  lemma PopHeadConsistent(maxTask: int, order: seq<TaskId>, db: map<TaskId, Record>, q: seq<Entry>, r: Record)
    requires Consistent(maxTask, order, db, q)
    requires q != [] && r.status == InProgress
    ensures db[q[0].id].status == Pending
    ensures PendingOf(order, db) != [] && q[0].id == PendingOf(order, db)[0]
    ensures Consistent(maxTask, order, db[q[0].id := r], q[1..])
    ensures Advances(db, db[q[0].id := r])
  {
    var x := q[0].id;
    PopHead(maxTask, order, db, q, r);
    assert Ids(q) == [x] + Ids(q[1..]);
    DistinctTail(Ids(q));
    assert x in PendingOf(order, db);
    PendingOfDemote(order, db, x, r);
    EraseAppend([x], Ids(q[1..]), x);
  }

  /** The worker pops the queue head under the lock but marks it
      in-progress only after releasing it. In that window the popped task
      is still pending yet no longer queued, so get_status on it raises
      ValueError. */
  lemma UnlockedPopWindow(maxTask: int, order: seq<TaskId>, db: map<TaskId, Record>, q: seq<Entry>)
    requires Consistent(maxTask, order, db, q)
    requires q != []
    ensures q[0].id in db && db[q[0].id].status == Pending
    ensures StatusOf(q[1..], db, q[0].id) == NotInQueue
  {
    var x := q[0].id;
    assert Ids(q)[0] == x;
    assert x in PendingOf(order, db);
    assert Ids(q) == [x] + Ids(q[1..]);
    DistinctTail(Ids(q));
  }

  /** Overwriting a stored record keeps the structure, and keeps the
      dispatch discipline when it does not change whether it is pending. */
  lemma Overwrite(maxTask: int, order: seq<TaskId>, db: map<TaskId, Record>, q: seq<Entry>, x: TaskId, r: Record)
    requires WellFormed(maxTask, order, db, q)
    requires x in db
    ensures WellFormed(maxTask, order, db[x := r], q)
    ensures Consistent(maxTask, order, db, q) && (db[x].status == Pending <==> r.status == Pending) ==>
      Consistent(maxTask, order, db[x := r], q)
  {
    if Consistent(maxTask, order, db, q) && (db[x].status == Pending <==> r.status == Pending) {
      PendingOfFrame(order, db, db[x := r]);
    }
  }

  /** Settling a record keeps the structure; settling the in-progress one
      keeps the dispatch discipline and moves it one step along. */
  lemma SettleKeeps(maxTask: int, order: seq<TaskId>, db: map<TaskId, Record>, q: seq<Entry>, id: TaskId, outcome: Outcome)
    requires WellFormed(maxTask, order, db, q)
    requires id in db
    ensures WellFormed(maxTask, order, db[id := Settle(db[id], outcome)], q)
    ensures Consistent(maxTask, order, db, q) && db[id].status == InProgress ==>
      && Consistent(maxTask, order, db[id := Settle(db[id], outcome)], q)
      && Advances(db, db[id := Settle(db[id], outcome)])
  {
    Overwrite(maxTask, order, db, q, id, Settle(db[id], outcome));
  }
}
