# sd-queue task manager, modelled in Dafny

sd-queue runs image-generation jobs one at a time behind an HTTP API. Its
core is `TaskManager` (scripts/task_manager.py). It has three parts:

- a bounded, insertion-ordered job store (`tasks_db`, an `OrderedDict` from
  task id to a record holding `status`, `result` and `queue_position`);
- a FIFO dispatch queue (`tasks_queue`, a deque of `(func, args, task_id)`);
- a worker that pops the queue head, marks it in-progress, runs the payload
  and marks it completed or failed.

This project models that core in two modules:

- `Tasks` (tasks.dfy) holds the values: records, queue entries, statuses,
  payload outcomes. It also holds the pure computations the methods are
  specified by, and the lemmas about them:
  - `StatusOf` is what `get_status` answers;
  - `Settle` is how a finished payload updates its record;
  - `Without` and `Erase` are the queue and store rebuilds;
  - `PendingOf` lists the pending records in submission order.
- `Manager` (manager.dfy) holds the class `TaskManager`:
  - the fields `order` (the store's keys, oldest first), `records` (the
    store) and `queue` (the deque, head first);
  - one method per operation. Each method is one critical section of the
    source and runs atomically.

Two invariants are proved:

- `WellFormed`/`Valid` (the structure): the store never holds more than
  `maxTask` records, its order lists each key once, and every queue entry
  names a distinct stored task. Every method keeps it.
- `Consistent` (the dispatch discipline): the queue holds exactly the pending
  records, in submission order. Every public operation and both halves of a
  worker iteration keep it. Every record present before and after moves at
  most one step along pending → in-progress → completed | failed
  (`Advances`).

scenarios.dfy replays client runs, most with capacity 2, from the
methods' contracts alone:

- two jobs get queue positions 1 and 2, and a third is refused while the
  store is full of unfinished jobs;
- a finished oldest job is evicted to admit a new one;
- a failing payload records its error text and the worker moves on;
- an unknown id is not found and cannot be removed.

## Model

| member | source | states |
|---|---|---|
| Tasks.Ids | scripts/task_manager.py:42 | the task ids of the queue entries, position by position |
| Tasks.Erase | scripts/task_manager.py:118 | deleting a key from the store's insertion order keeps every other key and drops exactly one from a list without repeats |
| Tasks.Without | scripts/task_manager.py:74 | the rebuilt queue keeps exactly the entries of other tasks, and is the same queue when the task has no entry |
| Tasks.WithoutIds | scripts/task_manager.py:119 | the ids of the rebuilt queue are the old ids with the task erased, order kept |
| Tasks.IndexOf | scripts/task_manager.py:90 | `list.index`: the first index holding the value, and None exactly when the value is absent |
| Tasks.PendingIds | scripts/task_manager.py:89 | the list get_status ranks in holds exactly the queued ids whose record is pending |
| Tasks.PendingOf | scripts/task_manager.py:74-78 | the pending records of the store hold exactly the stored pending ids, without repeats |
| Tasks.Settle | scripts/task_manager.py:43-50 | after the payload runs, the record is terminal; failed iff it raised, with the error text as result; completed with the returned value, or with the old result when it returned None; queue position kept |
| Tasks.StatusOf | scripts/task_manager.py:83-109 | get_status's answer: None for an unknown id; otherwise the stored status and result, with queue position None when not pending, or one more than the first index among the queue's pending ids; ValueError when a pending task is not among them |
| Tasks.PendingRank | scripts/task_manager.py:88-90 | under the discipline, a pending task's rank is defined, and it is both its queue index and its index among pending records in submission order |
| Tasks.StatusOfConsistent | scripts/task_manager.py:84-93 | under the discipline get_status never raises for a stored task, a pending task's position is its 1-based place in the queue, and the write-back keeps the discipline |
| Tasks.PendingIdsAllPending | scripts/task_manager.py:89 | when every queued task is pending, the ranked list is the whole queue |
| Tasks.PendingOfAppend | scripts/task_manager.py:77 | the pending records of a concatenated order are those of each part, in sequence |
| Tasks.PendingOfFrame | scripts/task_manager.py:17-36 | only which records are pending decides the pending list |
| Tasks.PendingOfDemote | scripts/task_manager.py:44 | a record that stops being pending drops out of the pending list, the others keep their order |
| Tasks.PendingOfErase | scripts/task_manager.py:118 | deleting a key from the store erases it from the pending list |
| Tasks.EraseAppend | scripts/task_manager.py:119 | erasing from a concatenation erases from each part |
| Tasks.EvictOldest | scripts/task_manager.py:65-74 | evicting a finished oldest record keeps the structure; under the discipline it had no queue entries, so the rebuild leaves the queue as it was |
| Tasks.UnstoredUnqueued | scripts/task_manager.py:76-78 | a task id that is not stored has no queue entry |
| Tasks.StoreInsert | scripts/task_manager.py:77 | inserting a fresh key as the newest keeps the store bounded and duplicate-free while there is room |
| Tasks.QueueAppend | scripts/task_manager.py:78 | appending the entry of a newly stored task keeps the queue's ids distinct and stored |
| Tasks.Enqueue | scripts/task_manager.py:76-78 | inserting a fresh pending record and queueing it last keeps the structure |
| Tasks.EnqueueConsistent | scripts/task_manager.py:76-78 | ... and keeps the discipline: the new task is last among the pending records and in the queue |
| Tasks.RemovePending | scripts/task_manager.py:117-119 | deleting a pending record and its queue entries keeps the structure and the discipline |
| Tasks.DistinctTail | scripts/task_manager.py:42 | after popping the head of a duplicate-free queue, the rest is duplicate-free and no longer holds the head |
| Tasks.PopHead | scripts/task_manager.py:41-44 | popping the head and rewriting its record keeps the structure |
| Tasks.PopHeadConsistent | scripts/task_manager.py:41-44 | under the discipline the queue head is the oldest pending record; popping it and marking it in-progress keeps the discipline and is one lifecycle step |
| Tasks.UnlockedPopWindow | scripts/task_manager.py:40-44 | in the window between popleft and marking in-progress, the popped task is still pending but not queued, so get_status on it raises |
| Tasks.Updated | scripts/task_manager.py:19-23 | the record write of _update_status: the given status, the given result or the old one when None is given, the queue position kept |
| Tasks.Overwrite | scripts/task_manager.py:17-36 | rewriting a stored record keeps the structure, and keeps the discipline when whether it is pending does not change |
| Tasks.SettleKeeps | scripts/task_manager.py:47-50 | settling a record keeps the structure; settling the in-progress one keeps the discipline and is one lifecycle step |
| Manager.TaskManager.constructor | scripts/task_manager.py:9-12 | starts with an empty store and queue under the given capacity, in the discipline |
| Manager.TaskManager.UpdateStatus | scripts/task_manager.py:17-36 | a known task gets the status, and the result only when one is given; an unknown id changes nothing; the structure is kept |
| Manager.TaskManager.Rejects | scripts/task_manager.py:65-70 | add_task rejects exactly when the store is at capacity and its oldest record is not finished (pending or in-progress) |
| Manager.TaskManager.AddTask | scripts/task_manager.py:63-81 | a full store whose oldest record is pending or in-progress rejects with (None, False) and nothing changes; otherwise the oldest finished record and its entries are evicted when full, and a fresh pending record becomes the newest and its entry is queued last; only that one record can disappear; bounded; the discipline is kept |
| Manager.TaskManager.GetStatus | scripts/task_manager.py:83-109 | answers as StatusOf on the state it starts from and writes the answered record back; the discipline is kept |
| Manager.TaskManager.GetAllTasks | scripts/task_manager.py:111-113 | every stored task with its status, oldest first, each once |
| Manager.TaskManager.RemoveSpecificTask | scripts/task_manager.py:115-124 | removes iff the task is stored and pending, deleting its record, its key and its queue entries; otherwise nothing changes; the discipline is kept |
| Manager.TaskManager.BeginDispatch | scripts/task_manager.py:40-44 | an empty queue changes nothing; otherwise the head is popped and returned and its record marked in-progress; under the discipline it was the oldest pending task (FIFO) and the discipline is kept |
| Manager.TaskManager.FinishDispatch | scripts/task_manager.py:45-51 | the record becomes Settle of its outcome; settling the in-progress task keeps the discipline and is one lifecycle step |
| Scenarios.SubmitAndRank | scripts/task_manager.py:63-109 | two jobs submitted to an empty manager of capacity 2 are both admitted, with queue positions 1 and 2 |
| Scenarios.RejectScenario | scripts/task_manager.py:65-71 | with capacity 2 and two unfinished jobs a third is refused, and the listing still shows the two pending jobs |
| Scenarios.RunFirst | scripts/task_manager.py:40-50 | the worker starts the first job, not the second, and it ends completed or failed as its payload returned or raised |
| Scenarios.EvictScenario | scripts/task_manager.py:65-78 | once the first of two jobs has completed, a third is admitted by evicting it, and the listing shows the second and third as pending |
| Scenarios.StartedNotRemovable | scripts/task_manager.py:115-124 | once the worker has started the queue head it is in-progress, and removing it is refused |
| Scenarios.FailureScenario | scripts/task_manager.py:49-50 | a failed job reports its error text and no position; an unknown id is not found and cannot be removed; the worker then dispatches the next job |

## Left out

- The worker loop itself (lines 38-53) is not one method. One iteration is
  `BeginDispatch` followed by `FinishDispatch`, with the payload's outcome
  passed in. Polling, the 0.1-second wait (line 53), the stop event,
  `_worker_start` and `worker_stop` (lines 55-61) are threading.
- Threads and the lock are left out. Each method is one critical section,
  run atomically. `BeginDispatch` fuses two steps that the source runs
  outside the lock:
  - The gap between `popleft` and the in-progress update. In that gap the
    popped task is still stored and pending but no longer queued, which
    `Tasks.UnlockedPopWindow` states. This has two consequences, both
    listed under Findings. First, get_status on that task raises
    ValueError. Second, `remove_specific_task` passes its pending test at
    line 117, deletes the record and returns True, while the worker still
    runs the payload at line 45. The worker's updates at lines 44 and 47
    then find no record and only log (line 36).
  - The emptiness test `if self.tasks_queue:` at line 40. If a
    `remove_specific_task` empties the queue in that gap, `popleft` at
    line 42 raises IndexError. That line is outside the `try` at line 43,
    so the worker thread dies. In the model the test and the pop form one
    step, so that failure cannot happen.
- `uuid.uuid4()` (line 76) becomes the `freshId` parameter of `AddTask`.
  Its precondition, that the id is not already stored, stands for uuid
  uniqueness.
- Calling `func(*args)` (line 45) is foreign code. Its result or exception
  is the `Outcome` parameter of `FinishDispatch`. Only the exception's
  `str()` is kept. `Err(message)` stands only for an `Exception` whose
  `str()` succeeds. Two other failures escape the `while` loop and end
  the worker thread: a `BaseException` such as `SystemExit`, which the
  `except Exception` at line 49 does not catch, and a `str(e)` at line 50
  that itself raises. The record then stays in-progress for good. Once it
  is the oldest record, every `add_task` on a full store is rejected. The
  model does not capture this.
- Logging is left out, and the model assumes that the logging expressions
  (lines 22-34, 46, 87, 94-106) never raise. In the source they can. If a
  payload returns a dict whose `"images"` value has no length, `len()` at
  line 28 raises inside the completion update at line 47. That happens after
  lines 20 and 23 have stored "completed" and the result. The `except` at
  lines 49-50 then rewrites the record as "failed" with the TypeError's
  text. `Settle` and `Advances` do not allow that completed-to-failed move.
  Likewise, `len()` at line 100 can make get_status raise after line 91 or
  93 has already written the queue position.
- Manager.TaskManager.constructor requires a capacity of at least 1. With
  `max_task <= 0`, `add_task` on an empty store raises `StopIteration` at
  line 67; that path is not modelled.
- A record's `queue_position` uses None for both the missing key (before
  the first `get_status`) and an explicit None.
- `if task:` at line 86 is modelled as "the id is stored". Records are
  never empty dicts, so the two agree.
- Statuses are the code's strings "pending", "in-progress", "completed"
  and "failed" (`Pending`, `InProgress`, `Completed`, `Failed`).
- get_status writes `queue_position` into the stored record (lines 91 and
  93), and `GetStatus` does the same.
- `get_status` returns the live record, which the caller could mutate.
  Here it returns a copy; aliasing is not modelled.
- The HTTP layer (api.py) is not part of this model.

## Findings

| source | as written | input that shows it | evidently intended | confidence | as-written member | corrected member |
|---|---|---|---|---|---|---|
| scripts/task_manager.py:41-44, 89-90 | the worker pops the head under the lock but marks it in-progress only after releasing it | submit one job; while the worker sits between line 42 and line 44, call get_status on that job: it is pending but absent from the pending queue ids, so `pending_tasks.index` raises ValueError | popping the head and marking it in-progress form one critical section, after which get_status on any stored task answers | not executed | Tasks.UnlockedPopWindow | Manager.TaskManager.BeginDispatch (with Tasks.StatusOfConsistent) |
| scripts/task_manager.py:41-44, 115-121 | the worker pops the head under the lock but marks it in-progress only after releasing it | submit one job; while the worker sits between line 42 and line 44, call remove_specific_task on it: the task is stored and pending, so it is deleted and True is returned, yet the worker goes on to run its payload at line 45, and its status updates find no record | a task the worker has taken is in-progress, so removing it is refused | not executed | Tasks.UnlockedPopWindow | Scenarios.StartedNotRemovable (Manager.TaskManager.BeginDispatch with Manager.TaskManager.RemoveSpecificTask) |
