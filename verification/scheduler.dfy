/** The scheduler as the kernel runs it: linked tasks, wait queues and the task table
    updated in place (kernel/core/sched.c, wait.c, syscall.c).  The ghost field `k` is the
    state of the step machine of KernelState that the objects represent; every method says
    which step function it performs on it. */
module Schedulers {
  import opened Seqs
  import opened OpenFileTable
  import opened KernelState
  import opened KernelStages
  import opened SchedObjects
  import KernelInvariant
  import KernelRuns
  import Rings
  import TaskTables
  import OpenFiles
  import Ttys

  /** Which child of which task. */
  datatype Cut = Cut(t: Slot, i: nat)

  class Scheduler {
    const tasks: seq<TaskStruct>
    const ttys: seq<Ttys.TtyStruct>
    const runQueue: RunQueue
    const table: TaskTables.TaskTable
    const vfs: OpenFiles.Vfs
    /** The entries and queues of all tasks and terminals, for frames. */
    const entries: seq<WaitEntry>
    const queues: seq<WaitQueue>
    /** The buffers of all terminals, for frames. */
    const buffers: seq<array<char>>

    var current: TaskStruct?
    var active: Tty
    ghost var k: Kernel

    /** The static storage of a kernel that has not allocated any task. */
    constructor (tasks: seq<TaskStruct>, ttys: seq<Ttys.TtyStruct>, runQueue: RunQueue, table: TaskTables.TaskTable,
                 vfs: OpenFiles.Vfs, entries: seq<WaitEntry>, queues: seq<WaitQueue>, buffers: seq<array<char>>,
                 ghost k: Kernel)
      ensures this.tasks == tasks && this.ttys == ttys && this.runQueue == runQueue && this.table == table
      ensures this.vfs == vfs && this.entries == entries && this.queues == queues && this.buffers == buffers
      ensures this.k == k && current == null && active == 0
    {
      this.tasks, this.ttys, this.runQueue, this.table, this.vfs := tasks, ttys, runQueue, table, vfs;
      this.entries, this.queues, this.buffers := entries, queues, buffers;
      this.k, current, active := k, null, 0;
    }

    // ---------------- which objects there are ----------------

    ghost predicate Shape() {
      && |tasks| == |entries| == MAX_PROCESS_CNT && |ttys| == TTY_COUNT && |buffers| == 2 * TTY_COUNT
      && (forall t: Slot {:trigger tasks[t]} ::
            && tasks[t].slot == t && tasks[t].entry == entries[t]
            && tasks[t].waitExit.id == ExitOf(t) && tasks[t].waitExit in queues
            && tasks[t].waitChild.id == ChildOf(t) && tasks[t].waitChild in queues)
      && (forall t: Slot {:trigger entries[t]} :: entries[t].owner == t)
      && (forall y: Tty {:trigger ttys[y]} ::
            && ttys[y].idx == y && ttys[y].inWait.id == InputOf(y) && ttys[y].inWait in queues
            && ttys[y].inBuf == buffers[2 * y] && ttys[y].outBuf == buffers[2 * y + 1])
      && Distinct(buffers)
      && table.slots == tasks
    }

    ghost function QueueAt(q: Queue): WaitQueue
      requires Shape()
      ensures QueueAt(q).id == q && QueueAt(q) in queues
    {
      match q
      case ExitOf(t) => tasks[t].waitExit
      case ChildOf(t) => tasks[t].waitChild
      case InputOf(y) => ttys[y].inWait
    }

    ghost function TaskAt(t: SlotOrNone): TaskStruct?
      requires Shape()
    {
      if t == NONE then null else tasks[t]
    }

    // ---------------- how they represent `k` ----------------

    ghost predicate TaskOk(t: Slot)
      requires Shape()
      reads this`k, tasks[t]
    {
      var o, m := tasks[t], k.tasks[t];
      && o.state == m.state && o.pid == m.pid && o.parent == TaskAt(m.parent)
      && o.exitStatus == m.exitStatus && o.pending == m.pending && o.cont == m.cont && o.ret == m.ret
    }

    ghost predicate RunqOk()
      requires Shape()
      reads this`k, runQueue, tasks, runQueue.contents
    {
      && runQueue.Valid() && |runQueue.contents| == |k.runq|
      && forall i {:trigger k.runq[i]} {:trigger runQueue.contents[i]} :: 0 <= i < |k.runq| ==> runQueue.contents[i] == tasks[k.runq[i]]
    }

    ghost predicate QueueOk(q: Queue)
      requires Shape()
      reads this`k, QueueAt(q), QueueAt(q).contents
    {
      && QueueAt(q).Valid() && |QueueAt(q).contents| == |Waiters(k, q)|
      && forall i {:trigger Waiters(k, q)[i]} {:trigger QueueAt(q).contents[i]} ::
           0 <= i < |Waiters(k, q)| ==> QueueAt(q).contents[i] == entries[Waiters(k, q)[i]]
    }

    ghost predicate EntryOk(t: Slot)
      requires Shape()
      reads this`k, entries[t]
    {
      var e := entries[t];
      && (k.tasks[t].cont.Sleep? || e.queue != null ==> e.task == tasks[t])
      && (e.queue != null ==> e.queue == QueueAt(e.queue.id) && t in Waiters(k, e.queue.id))
    }

    ghost predicate KidsOk(p: Slot)
      requires Shape()
      reads this`k, tasks
    {
      var kids := k.tasks[p].children;
      && tasks[p].children == (if kids == [] then null else tasks[kids[0]])
      && forall i {:trigger tasks[kids[i]].nextSibling} :: 0 <= i < |kids| ==>
           tasks[kids[i]].nextSibling == if i + 1 < |kids| then tasks[kids[i + 1]] else null
    }

    ghost predicate TableOk()
      reads this`k, table, table.freeRing, table.generation
    {
      table.Valid() && table.free == k.free && table.allocs == k.allocs
    }

    ghost predicate FilesOk()
      reads this`k, vfs, vfs.freeRing, vfs.slots
    {
      vfs.Valid() && vfs.table == k.files && table.generation != vfs.freeRing
    }

    ghost predicate TtyOk(y: Tty)
      requires Shape()
      reads this`k, ttys[y], ttys[y].inBuf, ttys[y].outBuf
    {
      ttys[y].Valid() && ttys[y].input == k.input[y]
    }

    ghost predicate TasksOk()
      requires Shape()
      reads this`k, tasks
    {
      forall t: Slot :: TaskOk(t)
    }

    ghost predicate QueuesOk()
      requires Shape()
      reads *
    {
      (forall q: Queue :: QueueOk(q)) && (forall t: Slot :: EntryOk(t))
    }

    ghost predicate AllKidsOk()
      requires Shape()
      reads this`k, tasks
    {
      forall p: Slot :: KidsOk(p)
    }

    ghost predicate TtysOk()
      requires Shape()
      reads this`k, ttys, buffers
    {
      forall y: Tty :: TtyOk(y)
    }

    ghost predicate Valid()
      reads *
    {
      && Shape()
      && current == TaskAt(k.current) && active == k.active
      && TasksOk() && RunqOk() && QueuesOk() && AllKidsOk() && TableOk() && FilesOk() && TtysOk()
    }

    // ---------------- what a change elsewhere leaves alone ----------------

    twostate lemma KeepTasks()
      requires Shape() && old(TasksOk()) && k.tasks == old(k.tasks)
      requires unchanged(tasks`state, tasks`pid, tasks`parent, tasks`exitStatus, tasks`pending, tasks`cont, tasks`ret)
      ensures TasksOk()
    {
      forall t: Slot ensures TaskOk(t) {
        assert old(TaskOk(t));
      }
    }

    twostate lemma KeepRunq()
      requires Shape() && old(RunqOk()) && k.runq == old(k.runq) && unchanged(runQueue, tasks`next)
      ensures RunqOk()
    {
      forall i | 0 <= i < |runQueue.contents| ensures runQueue.contents[i] in tasks {}
    }

    twostate lemma KeepQueues()
      requires Shape() && old(QueuesOk()) && unchanged(queues, entries)
      requires forall q: Queue :: Waiters(k, q) == old(Waiters(k, q))
      requires forall t: Slot :: k.tasks[t].cont.Sleep? ==> entries[t].task == tasks[t]
      ensures QueuesOk()
    {
      forall q: Queue ensures QueueOk(q) {
        assert old(QueueOk(q));
        forall i | 0 <= i < |QueueAt(q).contents| ensures QueueAt(q).contents[i] in entries {
          assert QueueAt(q).contents[i] == entries[Waiters(k, q)[i]];
        }
      }
      forall t: Slot ensures EntryOk(t) {
        assert old(EntryOk(t)) && entries[t] in entries;
      }
    }

    twostate lemma SleepersHaveEntries()
      requires Shape() && old(QueuesOk()) && unchanged(entries)
      ensures forall t: Slot :: old(k).tasks[t].cont.Sleep? ==> entries[t].task == tasks[t]
    {
      forall t: Slot | old(k).tasks[t].cont.Sleep? ensures entries[t].task == tasks[t] {
        assert old(EntryOk(t)) && entries[t] in entries;
      }
    }

    twostate lemma KeepKids()
      requires Shape() && old(AllKidsOk()) && unchanged(tasks`children, tasks`nextSibling)
      requires forall t: Slot :: k.tasks[t].children == old(k).tasks[t].children
      ensures AllKidsOk()
    {
      forall p: Slot ensures KidsOk(p) {
        assert old(KidsOk(p));
      }
    }

    twostate lemma KeepTable()
      requires old(TableOk()) && unchanged(table, table.freeRing, table.generation)
      requires k.free == old(k.free) && k.allocs == old(k.allocs)
      ensures TableOk()
    {
    }

    twostate lemma KeepFiles()
      requires old(FilesOk()) && unchanged(vfs, vfs.freeRing, vfs.slots) && k.files == old(k.files)
      ensures FilesOk()
    {
    }

    twostate lemma KeepTtys()
      requires Shape() && old(TtysOk()) && unchanged(ttys, buffers) && k.input == old(k.input)
      ensures TtysOk()
    {
      forall y: Tty ensures TtyOk(y) {
        assert old(TtyOk(y)) && ttys[y] in ttys && ttys[y].inBuf in buffers && ttys[y].outBuf in buffers;
      }
    }

    // ---------------- one part changed, the rest kept ----------------

    twostate lemma OnlyRunq()
      requires old(Valid()) && k == old(k).(runq := k.runq, ticks := k.ticks) && RunqOk()
      requires unchanged(this`current, this`active, queues, entries, ttys, buffers)
      requires unchanged(tasks`state, tasks`pid, tasks`parent, tasks`exitStatus, tasks`pending, tasks`cont, tasks`ret)
      requires unchanged(tasks`children, tasks`nextSibling)
      requires unchanged(table, table.freeRing, table.generation, vfs, vfs.freeRing, vfs.slots)
      ensures Valid()
    {
      KeepTasks();
      SleepersHaveEntries();
      KeepQueues();
      KeepKids();
      KeepTable();
      KeepFiles();
      KeepTtys();
    }

    twostate lemma OnlyTasks()
      requires old(Valid()) && k == old(k).(tasks := k.tasks, current := k.current) && TasksOk()
      requires forall t: Slot :: k.tasks[t].children == old(k).tasks[t].children
      requires forall t: Slot :: k.tasks[t].cont.Sleep? ==> old(k).tasks[t].cont.Sleep? || entries[t].task == tasks[t]
      requires current == TaskAt(k.current)
      requires unchanged(this`active, runQueue, tasks`next, queues, entries, ttys, buffers)
      requires unchanged(tasks`children, tasks`nextSibling)
      requires unchanged(table, table.freeRing, table.generation, vfs, vfs.freeRing, vfs.slots)
      ensures Valid()
    {
      KeepRunq();
      SleepersHaveEntries();
      KeepQueues();
      KeepKids();
      KeepTable();
      KeepFiles();
      KeepTtys();
    }

    /** Only scalar fields of one task, and what `k` says about it. */
    twostate lemma OnlyTask(task: TaskStruct)
      requires old(Valid()) && task == tasks[task.slot] && TaskOk(task.slot)
      requires k == Put(old(k), task.slot, k.tasks[task.slot])
      requires k.tasks[task.slot].children == old(k).tasks[task.slot].children
      requires k.tasks[task.slot].cont.Sleep? ==> old(k).tasks[task.slot].cont.Sleep? || task.entry.task == task
      requires forall t: Slot :: t != task.slot ==> unchanged(tasks[t])
      requires unchanged(this`current, this`active, runQueue, task`next, queues, entries, ttys, buffers)
      requires unchanged(task`children, task`nextSibling)
      requires unchanged(table, table.freeRing, table.generation, vfs, vfs.freeRing, vfs.slots)
      ensures Valid()
    {
      forall t: Slot ensures TaskOk(t) {
        assert old(TaskOk(t));
      }
      forall i | 0 <= i < |tasks| && tasks[i] != task ensures unchanged(tasks[i]) {
        assert tasks[i].slot == i;
      }
      OnlyTasks();
    }

    twostate lemma OnlyFiles()
      requires old(Valid()) && k == old(k).(files := k.files) && FilesOk()
      requires unchanged(this`current, this`active, tasks, runQueue, queues, entries, ttys, buffers)
      requires unchanged(table, table.freeRing, table.generation)
      ensures Valid()
    {
      KeepTasks();
      KeepRunq();
      SleepersHaveEntries();
      KeepQueues();
      KeepKids();
      KeepTable();
      KeepTtys();
    }

    twostate lemma OnlyTtys()
      requires old(Valid()) && k == old(k).(input := k.input, active := k.active) && TtysOk() && active == k.active
      requires unchanged(this`current, tasks, runQueue, queues, entries)
      requires unchanged(table, table.freeRing, table.generation, vfs, vfs.freeRing, vfs.slots)
      ensures Valid()
    {
      KeepTasks();
      KeepRunq();
      SleepersHaveEntries();
      KeepQueues();
      KeepKids();
      KeepTable();
      KeepFiles();
    }

    twostate lemma OnlyQueues()
      requires old(Valid()) && k == old(k).(waitq := k.waitq) && QueuesOk()
      requires unchanged(this`current, this`active, runQueue, tasks, ttys, buffers)
      requires unchanged(table, table.freeRing, table.generation, vfs, vfs.freeRing, vfs.slots)
      ensures Valid()
    {
      KeepTasks();
      KeepRunq();
      KeepKids();
      KeepTable();
      KeepFiles();
      KeepTtys();
    }

    // ---------------- run queue ----------------

    /** The queue is one of the tasks. */
    lemma QueuedAreTasks()
      requires Shape() && RunqOk()
      ensures forall i :: 0 <= i < |runQueue.contents| ==> runQueue.contents[i] in tasks && runQueue.contents[i].slot == k.runq[i]
    {
      forall i | 0 <= i < |runQueue.contents| ensures runQueue.contents[i] in tasks && runQueue.contents[i].slot == k.runq[i] {
        assert runQueue.contents[i] == tasks[k.runq[i]];
      }
    }

    lemma QueuedIn(task: TaskStruct)
      requires Shape() && RunqOk() && task == tasks[task.slot]
      ensures task in runQueue.contents <==> task.slot in k.runq
    {
      QueuedAreTasks();
      if i :| 0 <= i < |k.runq| && k.runq[i] == task.slot {
        assert runQueue.contents[i] == task;
      }
    }

    /** run_queue_push of a task that may be queued already. */
    method PushRunq(task: TaskStruct)
      requires Shape() && RunqOk() && task == tasks[task.slot]
      modifies this`k, runQueue, tasks`next
      ensures k == KernelState.Enqueue(old(k), task.slot)
      ensures task.slot !in old(k).runq ==> RunqOk()
      ensures task.slot in old(k).runq ==> forall c :: !runQueue.Represents(c)
    {
      QueuedAreTasks();
      QueuedIn(task);
      runQueue.Push(task);
      k := KernelState.Enqueue(k, task.slot);
    }

    /** sched_enqueue. */
    method Enqueue(task: TaskStruct)
      requires Valid() && task == tasks[task.slot] && task.slot !in k.runq
      modifies this`k, runQueue, tasks`next
      ensures Valid() && k == KernelState.Enqueue(old(k), task.slot)
    {
      PushRunq(task);
      OnlyRunq();
    }

    method PollRunq() returns (next: TaskStruct?)
      requires Shape() && RunqOk()
      modifies this`k, runQueue, tasks`next
      ensures RunqOk()
      ensures next == if old(k).runq == [] then null else tasks[old(k).runq[0]]
      ensures k == Polled(old(k))
    {
      QueuedAreTasks();
      TailsMatch(runQueue.contents, k.runq);
      next := runQueue.Poll();
      k := Polled(k);
    }

    lemma TailsMatch(contents: seq<TaskStruct>, runq: seq<Slot>)
      requires Shape() && |contents| == |runq| && forall i :: 0 <= i < |runq| ==> contents[i] == tasks[runq[i]]
      ensures contents != [] ==> |contents[1..]| == |runq[1..]|
      ensures contents != [] ==> forall i :: 0 <= i < |runq[1..]| ==> contents[1..][i] == tasks[runq[1..][i]]
    {
    }

    /** The poll at the head of sched_schedule. */
    method Poll() returns (next: TaskStruct?)
      requires Valid()
      modifies this`k, runQueue, tasks`next
      ensures Valid()
      ensures next == if old(k).runq == [] then null else tasks[old(k).runq[0]]
      ensures k == Polled(old(k))
    {
      next := PollRunq();
      OnlyRunq();
    }

    // ---------------- fields of one task ----------------

    method SetState(task: TaskStruct, state: State)
      requires Valid() && task == tasks[task.slot]
      modifies this`k, task`state
      ensures Valid() && k == Put(old(k), task.slot, old(k).tasks[task.slot].(state := state))
    {
      assert TaskOk(task.slot);
      task.state := state;
      k := Put(k, task.slot, k.tasks[task.slot].(state := state));
      OnlyTask(task);
    }

    /** Going back to user mode with a result, or into another part of the kernel. */
    method SetReturn(task: TaskStruct, ret: int)
      requires Valid() && task == tasks[task.slot]
      modifies this`k, task`cont, task`ret
      ensures Valid() && k == Put(old(k), task.slot, old(k).tasks[task.slot].(cont := User, ret := ret))
    {
      assert TaskOk(task.slot);
      task.cont := User;
      task.ret := ret;
      k := Put(k, task.slot, k.tasks[task.slot].(cont := User, ret := ret));
      OnlyTask(task);
    }

    method SetCont(task: TaskStruct, cont: Cont)
      requires Valid() && task == tasks[task.slot] && (cont.Sleep? ==> task.entry.task == task)
      modifies this`k, task`cont
      ensures Valid() && k == Put(old(k), task.slot, old(k).tasks[task.slot].(cont := cont))
    {
      assert TaskOk(task.slot);
      task.cont := cont;
      k := Put(k, task.slot, k.tasks[task.slot].(cont := cont));
      OnlyTask(task);
    }

    method SetPending(task: TaskStruct, pending: set<int>)
      requires Valid() && task == tasks[task.slot]
      modifies this`k, task`pending
      ensures Valid() && k == Put(old(k), task.slot, old(k).tasks[task.slot].(pending := pending))
    {
      assert TaskOk(task.slot);
      task.pending := pending;
      k := Put(k, task.slot, k.tasks[task.slot].(pending := pending));
      OnlyTask(task);
    }

    method SetExitStatus(task: TaskStruct, status: int)
      requires Valid() && task == tasks[task.slot]
      modifies this`k, task`exitStatus
      ensures Valid() && k == Put(old(k), task.slot, old(k).tasks[task.slot].(exitStatus := status))
    {
      assert TaskOk(task.slot);
      task.exitStatus := status;
      k := Put(k, task.slot, k.tasks[task.slot].(exitStatus := status));
      OnlyTask(task);
    }

    method SetCurrent(task: TaskStruct?)
      requires Valid() && (task != null ==> task == tasks[task.slot])
      modifies this`k, this`current
      ensures Valid() && k == old(k).(current := if task == null then NONE else task.slot)
    {
      current := task;
      k := k.(current := if task == null then NONE else task.slot);
      KeepTasks();
      OnlyTasks();
    }

    /** What sched_schedule does with the task that leaves the processor. */
    method LeaveProcessor(prev: TaskStruct?)
      requires Valid() && prev == current && (k.current != NONE ==> k.current !in k.runq)
      modifies this`k, runQueue, tasks`next, tasks`state
      ensures Valid() && k == Left(old(k))
    {
      if prev != null {
        assert TaskOk(prev.slot) && prev.slot == k.current;
        if prev.state != Interruptible && prev.state != Uninterruptible {
          PutBack(prev);
        }
      }
    }

    /** A task that stays runnable goes to the end of the run queue, unless it is the swapper. */
    method PutBack(task: TaskStruct)
      requires Valid() && task == tasks[task.slot] && task.slot !in k.runq
      modifies this`k, runQueue, tasks`next, tasks`state
      ensures Valid()
      ensures var queued := Put(old(k), task.slot, old(k).tasks[task.slot].(state := Queued));
        k == if task.slot == SWAPPER then queued else KernelState.Enqueue(queued, task.slot)
    {
      SetState(task, Queued);
      assert task == tasks[SWAPPER] <==> task.slot == SWAPPER;
      if task != tasks[SWAPPER] {
        Enqueue(task);
      }
    }

    /** The end of sched_schedule: `next` gets the processor. */
    method Dispatch(next: TaskStruct)
      requires Valid() && next == tasks[next.slot]
      modifies this`k, this`current, tasks`state
      ensures Valid()
      ensures k == Put(old(k), next.slot, old(k).tasks[next.slot].(state := Running)).(current := next.slot)
    {
      SetState(next, Running);
      SetCurrent(next);
    }

    /** sched_schedule after the poll. */
    method SwitchTo(next: TaskStruct)
      requires Valid() && next == tasks[next.slot] && (k.current != NONE ==> k.current !in k.runq)
      modifies this`k, this`current, runQueue, tasks`next, tasks`state
      ensures Valid() && k == KernelState.SwitchTo(old(k), next.slot)
    {
      var prev := current;
      if prev != null && next == tasks[SWAPPER] {
        assert TaskOk(prev.slot);
        if prev.state == Running {
          return;
        }
      }
      LeaveProcessor(prev);
      Dispatch(next);
    }

    /** sched_schedule. */
    method Schedule()
      requires Valid() && Distinct(k.runq) && (k.current != NONE ==> k.current !in k.runq)
      modifies this`k, this`current, runQueue, tasks`next, tasks`state
      ensures Valid() && k == KernelState.Schedule(old(k))
    {
      var next := Poll();
      if next == null {
        next := tasks[SWAPPER];
      }
      SwitchTo(next);
    }

    // ---------------- wait queues ----------------

    /** The entries of a queue are entries of the table, each where its task waits. */
    lemma QueuedEntries(q: Queue)
      requires Shape() && QueuesOk()
      ensures QueueOk(q)
      ensures forall i :: 0 <= i < |QueueAt(q).contents| ==>
        QueueAt(q).contents[i] in entries && QueueAt(q).contents[i].queue == QueueAt(q)
    {
      assert QueueOk(q);
      forall i | 0 <= i < |QueueAt(q).contents| ensures QueueAt(q).contents[i] in entries {
        assert QueueAt(q).contents[i] == entries[Waiters(k, q)[i]];
      }
    }

    /** An entry is linked exactly when its task is among the waiters. */
    lemma LinkedIffWaiting(t: Slot)
      requires Shape() && QueuesOk()
      ensures entries[t].queue != null ==> entries[t].queue == QueueAt(entries[t].queue.id) && t in Waiters(k, entries[t].queue.id)
      ensures forall q: Queue :: t in Waiters(k, q) ==> entries[t].queue == QueueAt(q)
    {
      assert EntryOk(t);
      forall q: Queue | t in Waiters(k, q) ensures entries[t].queue == QueueAt(q) {
        assert QueueOk(q);
        var i :| 0 <= i < |Waiters(k, q)| && Waiters(k, q)[i] == t;
        assert QueueAt(q).contents[i] == entries[t];
      }
    }

    /** wait_queue_entry_init at the head of wait_event. */
    method InitEntry(task: TaskStruct)
      requires Valid() && task == tasks[task.slot] && forall q: Queue :: task.slot !in Waiters(k, q)
      modifies task.entry
      ensures Valid() && task.entry.task == task
    {
      LinkedIffWaiting(task.slot);
      forall q: Queue ensures task.entry !in QueueAt(q).contents {
        QueuedEntries(q);
        assert QueueOk(q);
      }
      task.entry.Init(task);
      forall q: Queue ensures QueueOk(q) {
        assert old(QueueOk(q));
      }
      forall t: Slot ensures EntryOk(t) {
        assert old(EntryOk(t));
      }
      OnlyQueues();
    }

    /** A queue whose waiters and entries have not changed. */
    twostate lemma OtherQueueKept(p: Queue)
      requires Shape() && old(QueuesOk()) && Waiters(k, p) == old(Waiters(k, p)) && unchanged(QueueAt(p))
      requires forall t: Slot :: old(entries[t].queue) == QueueAt(p) ==> unchanged(entries[t])
      ensures QueueOk(p)
    {
      QueuedEntriesWere(p);
      forall i | 0 <= i < |QueueAt(p).contents| ensures unchanged(QueueAt(p).contents[i]) {
        assert QueueAt(p).contents[i] == entries[Waiters(k, p)[i]];
      }
    }

    twostate lemma QueuedEntriesWere(q: Queue)
      requires Shape() && old(QueuesOk())
      ensures old(QueueOk(q))
      ensures forall i :: 0 <= i < |old(QueueAt(q).contents)| ==> old(QueueAt(q).contents[i].queue) == QueueAt(q)
    {
      assert old(QueueOk(q));
    }

    method LinkEntry(entry: WaitEntry, ghost q: Queue, queue: WaitQueue)
      requires Shape() && QueuesOk() && queue == QueueAt(q) && entry in entries && entry.queue == null
      modifies queue, entries
      ensures queue.Valid() && queue.contents == old(queue.contents) + [entry]
      ensures entry.queue == queue && entry.task == old(entry.task)
      ensures forall t: Slot :: t != entry.owner ==> Relinked(entries[t], queue)
    {
      QueuedEntries(q);
      queue.Add(entry);
    }

    /** wait_queue_add of the entry of `task`, which is in no queue. */
    method AddWaiter(task: TaskStruct, ghost q: Queue, queue: WaitQueue)
      requires Valid() && task == tasks[task.slot] && task.entry.task == task && queue == QueueAt(q)
      requires forall p: Queue :: task.slot !in Waiters(k, p)
      modifies this`k, queue, entries
      ensures Valid() && k == SetWaiters(old(k), q, Waiters(old(k), q) + [task.slot])
    {
      LinkedIffWaiting(task.slot);
      LinkEntry(task.entry, q, queue);
      k := SetWaiters(k, q, Waiters(k, q) + [task.slot]);
      AddedOk(task.slot);
    }

    /** At most links within `queue` have changed. */
    twostate predicate Relinked(e: WaitEntry, queue: WaitQueue)
      reads e
    {
      e.task == old(e.task) && e.queue == old(e.queue) && (old(e.queue) != queue ==> unchanged(e))
    }

    /** The queues after AddWaiter. */
    twostate lemma AddedOk(added: Slot)
      requires old(Valid()) && entries[added].queue != null && entries[added].task == tasks[added]
      requires var q := entries[added].queue.id;
        && entries[added].queue == QueueAt(q) && old(entries[added].queue) == null
        && k == SetWaiters(old(k), q, Waiters(old(k), q) + [added])
        && QueueAt(q).Valid() && QueueAt(q).contents == old(QueueAt(q).contents) + [entries[added]]
        && (forall t: Slot :: t != added ==> Relinked(entries[t], QueueAt(q)))
        && (forall p: Queue :: p != q ==> unchanged(QueueAt(p)))
      requires unchanged(this`current, this`active, runQueue, tasks, ttys, buffers)
      requires unchanged(table, table.freeRing, table.generation, vfs, vfs.freeRing, vfs.slots)
      ensures Valid()
    {
      var q := entries[added].queue.id;
      forall p: Queue ensures QueueOk(p) {
        if p != q {
          OtherQueueKept(p);
        } else {
          assert old(QueueOk(q));
        }
      }
      forall t: Slot ensures EntryOk(t) {
        assert old(EntryOk(t));
      }
      OnlyQueues();
    }

    twostate lemma SameWaitersOk()
      requires old(Valid()) && k == old(k).(waitq := k.waitq) && forall q: Queue :: Waiters(k, q) == old(Waiters(k, q))
      requires unchanged(this`current, this`active, runQueue, tasks, queues, entries, ttys, buffers)
      requires unchanged(table, table.freeRing, table.generation, vfs, vfs.freeRing, vfs.slots)
      ensures Valid()
    {
      SleepersHaveEntries();
      KeepQueues();
      OnlyQueues();
    }

    /** wait_queue_remove after the sleep.  Whoever queued the task for a run has detached
        its entry before, so there is nothing left to unlink. */
    method RemoveWaiter(task: TaskStruct, ghost q: Queue)
      requires Valid() && task == tasks[task.slot] && forall p: Queue :: task.slot !in Waiters(k, p)
      modifies this`k, task.entry
      ensures Valid() && k == SetWaiters(old(k), q, Without<Slot>(Waiters(old(k), q), task.slot))
      ensures task.entry.task == old(task.entry.task)
    {
      LinkedIffWaiting(task.slot);
      ghost var _ := task.entry.Remove();
      WithoutAbsent(Waiters(k, q), task.slot);
      k := SetWaiters(k, q, Waiters(k, q));
      SameWaitersOk();
    }

    ghost function TasksOf(ts: seq<Slot>): (r: seq<TaskStruct>)
      requires Shape()
      ensures |r| == |ts| && forall i {:trigger r[i]} {:trigger ts[i]} :: 0 <= i < |ts| ==> r[i] == tasks[ts[i]]
    {
      seq(|ts|, i requires 0 <= i < |ts| => tasks[ts[i]])
    }

    /** The sleepers of `q` are tasks of the table, asleep, and not queued for a run. */
    lemma WaitersCanBeQueued(q: Queue)
      requires Shape() && TasksOk() && RunqOk() && QueuesOk() && KernelInvariant.QueuesOk(k)
      ensures |QueueAt(q).contents| == |Waiters(k, q)|
      ensures forall i {:trigger QueueAt(q).contents[i].task} :: 0 <= i < |QueueAt(q).contents| ==>
        && QueueAt(q).contents[i].task == TasksOf(Waiters(k, q))[i]
        && TasksOf(Waiters(k, q))[i] in tasks && TasksOf(Waiters(k, q))[i] !in runQueue.contents
        && TasksOf(Waiters(k, q))[i].IsAsleep()
      ensures Distinct(TasksOf(Waiters(k, q)))
    {
      QueuedEntries(q);
      QueuedAreTasks();
      var ws, ts := Waiters(k, q), TasksOf(Waiters(k, q));
      forall i | 0 <= i < |ws|
        ensures QueueAt(q).contents[i].task == ts[i] && ts[i] in tasks && ts[i] !in runQueue.contents && ts[i].IsAsleep()
      {
        assert QueueAt(q).contents[i] == entries[ws[i]];
        assert EntryOk(ws[i]) && TaskOk(ws[i]) && KernelInvariant.WaitsIn(k, ws[i], q);
      }
      forall i, j | 0 <= i < j < |ts| ensures ts[i] != ts[j] {
        assert ts[i].slot == ws[i] && ts[j].slot == ws[j];
      }
    }

    /** The objects of wakeup: the queue is emptied and its tasks join the run queue. */
    method WakeObjects(queue: WaitQueue, ghost q: Queue)
      requires Shape() && TasksOk() && RunqOk() && QueuesOk() && queue == QueueAt(q) && KernelInvariant.QueuesOk(k)
      modifies queue, queue.contents`prev, queue.contents`next, queue.contents`queue, runQueue, tasks`next
      ensures queue.Valid() && queue.contents == [] && runQueue.Valid()
      ensures runQueue.contents == old(runQueue.contents) + TasksOf(Waiters(k, q))
      ensures forall i {:trigger old(queue.contents)[i]} :: 0 <= i < |old(queue.contents)| ==> old(queue.contents)[i].queue == null
    {
      WaitersCanBeQueued(q);
      QueuedEntries(q);
      QueuedAreTasks();
      ghost var es, ts := queue.contents, TasksOf(Waiters(k, q));
      forall i | 0 <= i < |es| ensures es[i].task == ts[i] && ts[i].IsAsleep() {
        assert QueueAt(q).contents[i].task == ts[i];
      }
      AllBehind(es, ts, |es|);
      assert ts[..|es|] == ts;
      WakeAll(queue, runQueue, tasks);
    }

    twostate lemma WokenRunqOk(q: Queue)
      requires Shape() && old(RunqOk()) && k.runq == old(k).runq + Waiters(old(k), q)
      requires runQueue.Valid() && runQueue.contents == old(runQueue.contents) + TasksOf(Waiters(old(k), q))
      ensures RunqOk()
    {
    }

    twostate lemma WokenQueuesOk(q: Queue)
      requires Shape() && old(QueuesOk()) && k == SetWaiters(old(k).(runq := k.runq), q, [])
      requires QueueAt(q).Valid() && QueueAt(q).contents == []
      requires forall e :: e in old(QueueAt(q).contents) ==> e.queue == null && e.task == old(e.task)
      requires forall e :: e in entries && e !in old(QueueAt(q).contents) ==> unchanged(e)
      requires forall p: Queue :: p != q ==> unchanged(QueueAt(p))
      ensures QueuesOk()
    {
      QueuedEntriesWere(q);
      forall p: Queue ensures QueueOk(p) {
        if p != q {
          forall t: Slot | old(entries[t].queue) == QueueAt(p) ensures unchanged(entries[t]) {
            assert entries[t] in entries;
          }
          OtherQueueKept(p);
        }
      }
      forall t: Slot ensures EntryOk(t) {
        assert old(EntryOk(t)) && entries[t] in entries;
        if t in Waiters(old(k), q) {
          var i :| 0 <= i < |Waiters(old(k), q)| && Waiters(old(k), q)[i] == t;
          assert old(QueueAt(q).contents)[i] == entries[t];
        }
      }
    }

    /** wakeup, as far as the run queue and the wait queues go. */
    method WakeQueues(queue: WaitQueue, ghost q: Queue)
      requires Shape() && TasksOk() && RunqOk() && QueuesOk() && queue == QueueAt(q) && KernelInvariant.QueuesOk(k)
      modifies this`k, queue, queue.contents`prev, queue.contents`next, queue.contents`queue, runQueue, tasks`next
      ensures RunqOk() && QueuesOk()
      ensures k == SetWaiters(old(k).(runq := old(k).runq + Waiters(old(k), q)), q, [])
    {
      WakeObjects(queue, q);
      k := SetWaiters(k.(runq := k.runq + Waiters(k, q)), q, []);
      WokenRunqOk(q);
      WokenQueuesOk(q);
    }

    /** wakeup, as far as the tasks go. */
    method WakeTasks(queue: WaitQueue, ghost q: Queue)
      requires Shape() && TasksOk() && RunqOk() && QueuesOk() && AllKidsOk() && queue == QueueAt(q) && KernelInvariant.QueuesOk(k)
      modifies this`k, queue, queue.contents`prev, queue.contents`next, queue.contents`queue, runQueue, tasks`next
      ensures RunqOk() && QueuesOk() && TasksOk() && AllKidsOk()
      ensures k == SetWaiters(old(k).(runq := old(k).runq + Waiters(old(k), q)), q, [])
    {
      WakeQueues(queue, q);
      KeepTasks();
      KeepKids();
    }

    /** wakeup. */
    method Wake(queue: WaitQueue, ghost q: Queue)
      requires Valid() && queue == QueueAt(q) && KernelInvariant.QueuesOk(k)
      modifies this`k, queue, queue.contents`prev, queue.contents`next, queue.contents`queue, runQueue, tasks`next
      ensures Valid() && k == Wakeup(old(k), q)
    {
      WakeTasks(queue, q);
      KeepTable();
      KeepFiles();
      KeepTtys();
      KernelInvariant.WakeupMoves(old(k), q);
    }

    // ---------------- children ----------------

    /** find_zombie_child. */
    method FindZombieChild(parent: TaskStruct) returns (r: TaskStruct?)
      requires Valid() && parent == tasks[parent.slot]
      ensures r == TaskAt(FindZombie(k.tasks, k.tasks[parent.slot].children))
    {
      ghost var kids := k.tasks[parent.slot].children;
      assert KidsOk(parent.slot);
      var child := parent.children;
      ghost var i := 0;
      while child != null
        invariant i <= |kids| && child == if i < |kids| then tasks[kids[i]] else null
        invariant FindZombie(k.tasks, kids) == FindZombie(k.tasks, kids[i..])
        decreases |kids| - i
      {
        assert TaskOk(kids[i]);
        if child.state == Zombie {
          return child;
        }
        assert kids[i..][1..] == kids[i + 1..];
        child := child.nextSibling;
        i := i + 1;
      }
      return null;
    }

    /** find_child_by_pid. */
    method FindChildByPid(parent: TaskStruct, pid: int) returns (r: TaskStruct?)
      requires Valid() && parent == tasks[parent.slot]
      ensures r == TaskAt(FindPid(k.tasks, k.tasks[parent.slot].children, pid))
    {
      ghost var kids := k.tasks[parent.slot].children;
      assert KidsOk(parent.slot);
      var child := parent.children;
      ghost var i := 0;
      while child != null
        invariant i <= |kids| && child == if i < |kids| then tasks[kids[i]] else null
        invariant FindPid(k.tasks, kids, pid) == FindPid(k.tasks, kids[i..], pid)
        decreases |kids| - i
      {
        assert TaskOk(kids[i]);
        if child.pid == pid {
          return child;
        }
        assert kids[i..][1..] == kids[i + 1..];
        child := child.nextSibling;
        i := i + 1;
      }
      return null;
    }

    twostate lemma OnlyKids()
      requires old(Valid()) && k == old(k).(tasks := k.tasks) && TasksOk() && AllKidsOk()
      requires forall t: Slot :: k.tasks[t].cont == old(k).tasks[t].cont
      requires unchanged(this`current, this`active, runQueue, tasks`next, queues, entries, ttys, buffers)
      requires unchanged(table, table.freeRing, table.generation, vfs, vfs.freeRing, vfs.slots)
      ensures Valid()
    {
      KeepRunq();
      SleepersHaveEntries();
      KeepQueues();
      KeepTable();
      KeepFiles();
      KeepTtys();
    }

    /** The links of the loop in sched_waitpid: cut `child` out of its parent's list. */
    method CutChild(parent: TaskStruct, child: TaskStruct, ghost i: nat)
      requires Shape() && parent == tasks[parent.slot] && KidsOk(parent.slot)
      requires Distinct(k.tasks[parent.slot].children) && parent.slot !in k.tasks[parent.slot].children
      requires i < |k.tasks[parent.slot].children| && child == tasks[k.tasks[parent.slot].children[i]]
      modifies parent`children, tasks`nextSibling
      ensures LinksCut(Cut(parent.slot, i))
    {
      ghost var kids := k.tasks[parent.slot].children;
      var prev: TaskStruct? := null;
      var node := parent.children;
      ghost var j := 0;
      while node != null
        invariant j <= i && node == tasks[kids[j]]
        invariant prev == if j == 0 then null else tasks[kids[j - 1]]
        invariant parent.children == old(parent.children)
        invariant forall t: Slot :: tasks[t].nextSibling == old(tasks[t].nextSibling)
        decreases i - j
      {
        if node == child {
          assert kids[j] == kids[i] by { assert tasks[kids[j]].slot == tasks[kids[i]].slot; }
          CloseLink(parent, prev, child, i);
          return;
        }
        prev := node;
        node := node.nextSibling;
        j := j + 1;
      }
    }

    /** The assignment through the pointer that the loop has found. */
    method CloseLink(parent: TaskStruct, prev: TaskStruct?, child: TaskStruct, ghost i: nat)
      requires Shape() && parent == tasks[parent.slot] && i < |k.tasks[parent.slot].children|
      requires child == tasks[k.tasks[parent.slot].children[i]]
      requires prev == if i == 0 then null else tasks[k.tasks[parent.slot].children[i - 1]]
      modifies parent`children, tasks`nextSibling
      ensures LinksCut(Cut(parent.slot, i))
    {
      OtherTasks(parent);
      if prev == null {
        parent.children := child.nextSibling;
      } else {
        OtherTasks(prev);
        prev.nextSibling := child.nextSibling;
      }
    }

    method CutOwnChild(parent: TaskStruct, child: TaskStruct) returns (ghost i: nat)
      requires Shape() && KidsOk(parent.slot) && parent == tasks[parent.slot] && child == tasks[child.slot]
      requires Distinct(k.tasks[parent.slot].children) && parent.slot !in k.tasks[parent.slot].children
      requires child.slot in k.tasks[parent.slot].children
      modifies this`k, parent`children, tasks`nextSibling
      ensures IsCut(Cut(parent.slot, i))
      ensures var t := parent.slot;
        k == Put(old(k), t, old(k).tasks[t].(children := Without<Slot>(old(k).tasks[t].children, child.slot)))
    {
      ghost var t, c, kids := parent.slot, child.slot, k.tasks[parent.slot].children;
      i :| 0 <= i < |kids| && kids[i] == c;
      CutChild(parent, child, i);
      k := Put(k, t, k.tasks[t].(children := Without<Slot>(kids, c)));
    }

    lemma OtherTasks(task: TaskStruct)
      requires Shape() && task == tasks[task.slot]
      ensures forall u: Slot :: u != task.slot ==> tasks[u] != task
    {
      forall u: Slot | u != task.slot ensures tasks[u] != task {
        assert tasks[u].slot == u;
      }
    }

    lemma OwnListOk(t: Slot)
      requires Shape() && AllKidsOk() && KernelInvariant.ChildrenOk(k)
      ensures KidsOk(t) && Distinct(k.tasks[t].children) && t !in k.tasks[t].children
    {
      KernelInvariant.NotOwnChild(k, t);
    }

    method CutFromList(parent: TaskStruct, child: TaskStruct) returns (ghost i: nat)
      requires Shape() && AllKidsOk() && parent == tasks[parent.slot] && child == tasks[child.slot]
      requires KernelInvariant.ChildrenOk(k) && child.slot in k.tasks[parent.slot].children
      modifies this`k, parent`children, tasks`nextSibling
      ensures IsCut(Cut(parent.slot, i))
      ensures var t := parent.slot;
        k == Put(old(k), t, old(k).tasks[t].(children := Without<Slot>(old(k).tasks[t].children, child.slot)))
    {
      OwnListOk(parent.slot);
      i := CutOwnChild(parent, child);
    }

    /** Cutting `child` out of its parent's list; no other list has it. */
    method Unlink(parent: TaskStruct, child: TaskStruct)
      requires Valid() && parent == tasks[parent.slot] && child == tasks[child.slot]
      requires KernelInvariant.ChildrenOk(k) && child.slot in k.tasks[parent.slot].children
      modifies this`k, parent`children, tasks`nextSibling
      ensures Valid()
      ensures var t := parent.slot;
        k == Put(old(k), t, old(k).tasks[t].(children := Without<Slot>(old(k).tasks[t].children, child.slot)))
    {
      UnlinkInLists(parent, child);
      OnlyKids();
    }

    method UnlinkInLists(parent: TaskStruct, child: TaskStruct)
      requires Shape() && TasksOk() && AllKidsOk() && parent == tasks[parent.slot] && child == tasks[child.slot]
      requires KernelInvariant.ChildrenOk(k) && child.slot in k.tasks[parent.slot].children
      modifies this`k, parent`children, tasks`nextSibling
      ensures TasksOk() && AllKidsOk()
      ensures var t := parent.slot;
        k == Put(old(k), t, old(k).tasks[t].(children := Without<Slot>(old(k).tasks[t].children, child.slot)))
    {
      ghost var i := CutFromList(parent, child);
      CutTasksOk(Cut(parent.slot, i));
      CutListsOk(Cut(parent.slot, i));
    }

    /** The links around child `i` of task `t` have been closed. */
    twostate predicate LinksCut(cut: Cut)
      requires Shape()
      reads tasks
    {
      var t, i, kids := cut.t, cut.i, old(k).tasks[cut.t].children;
      && i < |kids|
      && tasks[t].children == (if i == 0 then old(tasks[kids[i]].nextSibling) else old(tasks[t].children))
      && (forall u: Slot :: tasks[u].nextSibling == (if i > 0 && u == kids[i - 1] then old(tasks[kids[i]].nextSibling) else old(tasks[u].nextSibling)))
      && (forall u: Slot :: u != t ==> tasks[u].children == old(tasks[u].children))
    }

    /** Child `i` of task `t` has been cut out. */
    twostate predicate IsCut(cut: Cut)
      requires Shape()
      reads this`k, tasks
    {
      var t, kids := cut.t, old(k).tasks[cut.t].children;
      LinksCut(cut) && k == Put(old(k), t, old(k).tasks[t].(children := Without<Slot>(kids, kids[cut.i])))
    }

    twostate lemma CutTasksOk(cut: Cut)
      requires Shape() && old(TasksOk()) && IsCut(cut)
      requires unchanged(tasks`state, tasks`pid, tasks`parent, tasks`exitStatus, tasks`pending, tasks`cont, tasks`ret)
      ensures TasksOk()
    {
      forall u: Slot ensures TaskOk(u) {
        assert old(TaskOk(u));
      }
    }

    twostate lemma CutListsOk(cut: Cut)
      requires Shape() && old(AllKidsOk()) && IsCut(cut) && KernelInvariant.ChildrenOk(old(k))
      ensures AllKidsOk()
    {
      KernelInvariant.NotOwnChild(old(k), cut.t);
      forall p: Slot ensures KidsOk(p) {
        assert old(KidsOk(p));
        if p != cut.t {
          UncutKidsOk((cut, p));
        } else {
          CutKidsOk(cut);
        }
      }
    }

    twostate lemma CutKidsOk(cut: Cut)
      requires Shape() && IsCut(cut) && old(KidsOk(cut.t)) && Distinct(old(k).tasks[cut.t].children)
      ensures KidsOk(cut.t)
    {
      var kids, rest := old(k).tasks[cut.t].children, k.tasks[cut.t].children;
      CutIndices(kids, cut.i, rest);
      forall j: nat | j < |rest| ensures tasks[rest[j]].nextSibling == TaskAt(NextSlot(rest, j)) {
        NextAfterCut((cut, j));
      }
      assert rest != [] ==> rest[0] == kids[if cut.i > 0 then 0 else 1];
      assert old(tasks[kids[cut.i]].nextSibling) == TaskAt(NextSlot(kids, cut.i));
    }

    /** The sibling behind child `c.1` of the shorter list. */
    twostate lemma NextAfterCut(c: (Cut, nat))
      requires Shape() && IsCut(c.0) && old(KidsOk(c.0.t)) && Distinct(old(k).tasks[c.0.t].children)
      requires c.1 < |k.tasks[c.0.t].children|
      ensures var rest := k.tasks[c.0.t].children; tasks[rest[c.1]].nextSibling == TaskAt(NextSlot(rest, c.1))
    {
      var kids, rest, i := old(k).tasks[c.0.t].children, k.tasks[c.0.t].children, c.0.i;
      var u := rest[c.1];
      CutIndices(kids, i, rest);
      var at := NextInRest(kids, i, rest, c.1);
      assert old(tasks[kids[i]].nextSibling) == TaskAt(NextSlot(kids, i));
      assert old(tasks[kids[at]].nextSibling) == TaskAt(NextSlot(kids, at));
    }

    twostate lemma UncutKidsOk(cutAndList: (Cut, Slot))
      requires Shape() && IsCut(cutAndList.0) && old(KidsOk(cutAndList.1)) && KernelInvariant.ChildrenOk(old(k))
      requires cutAndList.1 != cutAndList.0.t
      ensures KidsOk(cutAndList.1)
    {
      var (cut, p) := cutAndList;
      var kids, others := old(k).tasks[cut.t].children, old(k).tasks[p].children;
      forall j | 0 <= j < |others| ensures tasks[others[j]].nextSibling == old(tasks[others[j]].nextSibling) {
        KernelInvariant.NoCommonChild(old(k), cut.t, p);
      }
    }

    // ---------------- slots ----------------

    twostate lemma OnlyTableAndTasks()
      requires old(Valid()) && k == old(k).(tasks := k.tasks, free := k.free, allocs := k.allocs)
      requires TasksOk() && AllKidsOk() && TableOk() && table.generation != vfs.freeRing
      requires forall t: Slot :: k.tasks[t].cont == old(k).tasks[t].cont
      requires unchanged(this`current, this`active, runQueue, tasks`next, queues, entries, ttys, buffers)
      requires unchanged(vfs, vfs.freeRing, vfs.slots)
      ensures Valid()
    {
      KeepRunq();
      SleepersHaveEntries();
      KeepQueues();
      KeepFiles();
      KeepTtys();
    }

    /** task_table_free. */
    method FreeTask(task: TaskStruct)
      requires Valid() && task == tasks[task.slot] && |k.free| < MAX_PROCESS_CNT
      requires k.tasks[task.slot].pid >= 0 && k.tasks[task.slot].pid % MAX_PROCESS_CNT == task.slot
      requires forall p: Slot :: task.slot !in k.tasks[p].children
      modifies this`k, table, table.freeRing
      modifies task`pid, task`state, task`children, task`parent, task`nextSibling
      ensures Valid()
      ensures var c := task.slot;
        k == Put(old(k), c, old(k).tasks[c].(state := Pooled, pid := -1, children := [], parent := NONE))
          .(free := old(k).free + [c])
    {
      ghost var c := task.slot;
      assert TaskOk(c);
      table.Free(task);
      k := Put(k, c, k.tasks[c].(state := Pooled, pid := -1, children := [], parent := NONE)).(free := k.free + [c]);
      FreedTasksOk(task);
      FreedKidsOk(task);
      OnlyTableAndTasks();
    }

    twostate lemma FreedTasksOk(task: TaskStruct)
      requires Shape() && old(TasksOk()) && task == tasks[task.slot]
      requires k.tasks == old(k).tasks[task.slot := old(k).tasks[task.slot].(state := Pooled, pid := -1, children := [], parent := NONE)]
      requires task.state == Pooled && task.pid == -1 && task.parent == null
      requires unchanged(task`exitStatus, task`pending, task`cont, task`ret)
      requires forall t: Slot :: tasks[t] != task ==> unchanged(tasks[t])
      ensures TasksOk()
    {
      forall t: Slot ensures TaskOk(t) {
        assert old(TaskOk(t));
      }
    }

    twostate lemma FreedKidsOk(task: TaskStruct)
      requires Shape() && old(AllKidsOk()) && task == tasks[task.slot] && task.children == null
      requires k.tasks == old(k).tasks[task.slot := k.tasks[task.slot]] && k.tasks[task.slot].children == []
      requires forall p: Slot :: task.slot !in k.tasks[p].children
      requires forall t: Slot :: tasks[t] != task ==> unchanged(tasks[t])
      ensures AllKidsOk()
    {
      forall p: Slot ensures KidsOk(p) {
        assert old(KidsOk(p));
        forall i | 0 <= i < |k.tasks[p].children| ensures tasks[k.tasks[p].children[i]] != task {
          assert k.tasks[p].children[i] in k.tasks[p].children;
        }
      }
    }

    /** Pids as `k` has them, and nothing else of the tasks. */
    twostate lemma PidsOk()
      requires Shape() && old(TasksOk()) && old(AllKidsOk())
      requires forall t: Slot :: k.tasks[t] == old(k).tasks[t].(pid := tasks[t].pid)
      requires unchanged(tasks`state, tasks`parent, tasks`exitStatus, tasks`pending, tasks`cont, tasks`ret)
      requires unchanged(tasks`children, tasks`nextSibling)
      ensures TasksOk() && AllKidsOk()
    {
      forall t: Slot ensures TaskOk(t) {
        assert old(TaskOk(t));
      }
      KeepKids();
    }

    method TakeSlot() returns (task: TaskStruct?)
      requires Shape() && TasksOk() && AllKidsOk() && TableOk()
      modifies this`k, table, table.generation, tasks`pid
      ensures TasksOk() && AllKidsOk() && TableOk()
      ensures old(k).free == [] ==> task == null && k == old(k)
      ensures old(k).free != [] ==> task == tasks[old(k).free[0]] && k == Allocated(old(k))
    {
      task := TakeFromTable();
      forall t: Slot ensures k.tasks[t] == old(k).tasks[t].(pid := tasks[t].pid) {
        assert old(TaskOk(t));
      }
      PidsOk();
    }

    method TakeFromTable() returns (task: TaskStruct?)
      requires Shape() && TableOk()
      modifies this`k, table, table.generation, tasks`pid
      ensures TableOk()
      ensures old(k).free == [] ==> task == null && k == old(k) && forall t: Slot :: tasks[t].pid == old(tasks[t].pid)
      ensures old(k).free != [] ==> var c := old(k).free[0];
        && task == tasks[c] && k == Allocated(old(k)) && task.pid == k.tasks[c].pid
        && forall t: Slot :: t != c ==> tasks[t].pid == old(tasks[t].pid)
    {
      task := table.Alloc();
      if task != null {
        k := Allocated(k);
      }
    }

    /** task_table_alloc. */
    method AllocTask() returns (task: TaskStruct?)
      requires Valid()
      modifies this`k, table, table.generation, tasks`pid
      ensures Valid()
      ensures old(k).free == [] ==> task == null && k == old(k)
      ensures old(k).free != [] ==> task == tasks[old(k).free[0]] && k == Allocated(old(k))
    {
      task := TakeSlot();
      OnlyTableAndTasks();
    }

    /** The scalar fields that sched_fork gives the child; a fresh slot stands for process
        number `n` of its slot. */
    method InitChild(child: TaskStruct, parent: TaskStruct, ghost n: nat)
      requires Valid() && child == tasks[child.slot] && parent == tasks[parent.slot]
      modifies this`k, child`state, child`parent, child`exitStatus, child`pending, child`cont, child`ret
      ensures Valid()
      ensures var c := child.slot;
        k == Put(old(k), c, Task(Queued, old(k).tasks[c].pid, parent.slot, old(k).tasks[c].children, 0, {}, User, 0, n))
    {
      ghost var c := child.slot;
      assert TaskOk(c);
      child.BecomeChildOf(parent);
      k := Put(k, c, Task(Queued, k.tasks[c].pid, parent.slot, k.tasks[c].children, 0, {}, User, 0, n));
      OnlyTask(child);
    }

    /** The child becomes the first in its parent's list. */
    method LinkChild(parent: TaskStruct, child: TaskStruct)
      requires Valid() && parent == tasks[parent.slot] && child == tasks[child.slot]
      requires forall p: Slot :: child.slot !in k.tasks[p].children
      modifies this`k, child`nextSibling, parent`children
      ensures Valid()
      ensures k == Put(old(k), parent.slot, old(k).tasks[parent.slot].(children := [child.slot] + old(k).tasks[parent.slot].children))
    {
      LinkInLists(parent, child);
      OnlyKids();
    }

    method LinkInLists(parent: TaskStruct, child: TaskStruct)
      requires Shape() && TasksOk() && AllKidsOk() && parent == tasks[parent.slot] && child == tasks[child.slot]
      requires forall p: Slot :: child.slot !in k.tasks[p].children
      modifies this`k, child`nextSibling, parent`children
      ensures TasksOk() && AllKidsOk()
      ensures k == Put(old(k), parent.slot, old(k).tasks[parent.slot].(children := [child.slot] + old(k).tasks[parent.slot].children))
    {
      ghost var t, c := parent.slot, child.slot;
      parent.PushChild(child);
      k := Put(k, t, k.tasks[t].(children := [c] + k.tasks[t].children));
      LinkedOk(Cut(t, c));
    }

    twostate lemma LinkedOk(link: Cut)
      requires Shape() && old(TasksOk()) && old(AllKidsOk()) && link.i < MAX_PROCESS_CNT
      requires var t, c := link.t, link.i;
        && (forall p: Slot :: c !in old(k).tasks[p].children)
        && k == Put(old(k), t, old(k).tasks[t].(children := [c] + old(k).tasks[t].children))
        && tasks[c].nextSibling == old(tasks[t].children) && tasks[t].children == tasks[c]
        && (forall u: Slot :: tasks[u] != tasks[c] ==> tasks[u].nextSibling == old(tasks[u].nextSibling))
        && (forall u: Slot :: tasks[u] != tasks[t] ==> tasks[u].children == old(tasks[u].children))
      requires unchanged(tasks`state, tasks`pid, tasks`parent, tasks`exitStatus, tasks`pending, tasks`cont, tasks`ret)
      ensures TasksOk() && AllKidsOk()
    {
      forall u: Slot ensures TaskOk(u) {
        assert old(TaskOk(u));
      }
      forall u: Slot ensures (u != link.i ==> tasks[u] != tasks[link.i]) && (u != link.t ==> tasks[u] != tasks[link.t]) {
        assert tasks[u].slot == u && tasks[link.i].slot == link.i && tasks[link.t].slot == link.t;
      }
      forall p: Slot ensures KidsOk(p) {
        assert old(KidsOk(p));
        LinkedKidsOk((link, p));
      }
    }

    /** List `l.1` after `l.0.i` has become the first child of `l.0.t`. */
    twostate lemma LinkedKidsOk(l: (Cut, Slot))
      requires Shape() && old(KidsOk(l.1)) && l.0.i < MAX_PROCESS_CNT
      requires var t, c := l.0.t, l.0.i;
        && (forall p: Slot :: c !in old(k).tasks[p].children)
        && (forall p: Slot :: k.tasks[p].children == if p == t then [c] + old(k).tasks[t].children else old(k).tasks[p].children)
        && tasks[c].nextSibling == old(tasks[t].children) && tasks[t].children == tasks[c]
        && (forall u: Slot :: u != c ==> tasks[u].nextSibling == old(tasks[u].nextSibling))
        && (forall u: Slot :: u != t ==> tasks[u].children == old(tasks[u].children))
      ensures KidsOk(l.1)
    {
      var p, was, kids := l.1, old(k).tasks[l.1].children, k.tasks[l.1].children;
      forall i | 0 <= i < |was| ensures tasks[was[i]].nextSibling == if i + 1 < |was| then tasks[was[i + 1]] else null {
        assert was[i] in was;
        assert old(tasks[was[i]].nextSibling) == if i + 1 < |was| then tasks[was[i + 1]] else null;
      }
      if p == l.0.t {
        forall i | 0 <= i < |kids| ensures tasks[kids[i]].nextSibling == if i + 1 < |kids| then tasks[kids[i + 1]] else null {
          assert i > 0 ==> kids[i] == was[i - 1];
          assert i + 1 < |kids| ==> kids[i + 1] == was[i];
        }
      }
    }

    /** signal_init of a task whose queues nobody waits in. */
    method InitSignal(task: TaskStruct)
      requires Valid() && task == tasks[task.slot]
      requires Waiters(k, ExitOf(task.slot)) == [] && Waiters(k, ChildOf(task.slot)) == []
      modifies this`k, task.waitExit`head, task.waitExit`tail, task.waitChild`head, task.waitChild`tail
      ensures Valid()
      ensures k == SetWaiters(SetWaiters(old(k), ExitOf(task.slot), []), ChildOf(task.slot), [])
    {
      assert QueueOk(ExitOf(task.slot)) && QueueOk(ChildOf(task.slot));
      task.waitExit.Init();
      task.waitChild.Init();
      k := SetWaiters(SetWaiters(k, ExitOf(task.slot), []), ChildOf(task.slot), []);
      SameWaitersOk();
    }

    // ---------------- open files and terminals ----------------

    method OpenFile(t: Slot, lookup: Lookup) returns (fd: int)
      requires Valid()
      modifies this`k, vfs, vfs.freeRing, vfs.slots[t], vfs.files
      ensures Valid() && k == old(k).(files := OpenFileTable.Open(old(k).files, t, lookup).0)
      ensures fd == OpenFileTable.Open(old(k).files, t, lookup).1
    {
      fd := OpenVfs(t, lookup);
      OnlyFiles();
    }

    method OpenVfs(t: Slot, lookup: Lookup) returns (fd: int)
      requires FilesOk()
      modifies this`k, vfs, vfs.freeRing, vfs.slots[t], vfs.files
      ensures FilesOk() && k == old(k).(files := OpenFileTable.Open(old(k).files, t, lookup).0)
      ensures fd == OpenFileTable.Open(old(k).files, t, lookup).1
    {
      fd := vfs.Open(t, lookup);
      k := k.(files := vfs.table);
    }

    method CloseFile(t: Slot, fd: int) returns (r: int)
      requires Valid() && Partition(k.files)
      modifies this`k, vfs, vfs.freeRing, vfs.slots[t], vfs.files
      ensures Valid() && k == old(k).(files := OpenFileTable.Close(old(k).files, t, fd).0)
      ensures r == OpenFileTable.Close(old(k).files, t, fd).1
    {
      if 0 <= fd < RLIMIT_NOFILE && FileOf(vfs.table, t, fd) != -1 {
        OpenMeansRoom(vfs.table, t, fd);
      }
      r := CloseVfs(t, fd);
      OnlyFiles();
    }

    method CloseVfs(t: Slot, fd: int) returns (r: int)
      requires FilesOk() && (0 <= fd < RLIMIT_NOFILE && FileOf(vfs.table, t, fd) != -1 ==> |vfs.table.free| < MAX_FILE_CNT)
      modifies this`k, vfs, vfs.freeRing, vfs.slots[t], vfs.files
      ensures FilesOk() && k == old(k).(files := OpenFileTable.Close(old(k).files, t, fd).0)
      ensures r == OpenFileTable.Close(old(k).files, t, fd).1
    {
      r := vfs.Close(t, fd);
      k := k.(files := vfs.table);
    }

    method CloseFiles(t: Slot)
      requires Valid() && Partition(k.files)
      modifies this`k, vfs, vfs.freeRing, vfs.slots[t], vfs.files
      ensures Valid() && k == old(k).(files := CloseFrom(old(k).files, t, 0))
    {
      CloseAllVfs(t);
      OnlyFiles();
    }

    method CloseAllVfs(t: Slot)
      requires FilesOk() && Partition(k.files)
      modifies this`k, vfs, vfs.freeRing, vfs.slots[t], vfs.files
      ensures FilesOk() && k == old(k).(files := CloseFrom(old(k).files, t, 0))
    {
      vfs.CloseAll(t);
      k := k.(files := vfs.table);
    }

    /** The ring part of tty_input_put on the active terminal. */
    method PutInput(c: char) returns (stored: bool)
      requires Valid()
      modifies this`k, ttys[active], ttys[active].inBuf
      ensures Valid() && stored == (|old(k).input[old(k).active]| < TTY_INPUT_BUF_SIZE)
      ensures var y := old(k).active;
        k == if stored then old(k).(input := old(k).input[y := old(k).input[y] + [c]]) else old(k)
    {
      stored := FeedTty(c);
      OnlyTtys();
    }

    method FeedTty(c: char) returns (stored: bool)
      requires Shape() && TtysOk() && active == k.active
      modifies this`k, ttys[active], ttys[active].inBuf
      ensures TtysOk() && stored == (|old(k).input[active]| < TTY_INPUT_BUF_SIZE)
      ensures k == if stored then old(k).(input := old(k).input[active := old(k).input[active] + [c]]) else old(k)
    {
      ghost var y := active;
      assert TtyOk(y);
      stored := ttys[active].InputPut(c);
      k := k.(input := k.input[y := ttys[y].input]);
      OneTtyOk(y);
    }

    /** The tail of tty_read. */
    method TakeInput(y: Tty, count: nat) returns (bytes: seq<char>)
      requires Valid()
      modifies this`k, ttys[y]
      ensures Valid() && |bytes| == (if |old(k).input[y]| > count then count else |old(k).input[y]|)
      ensures bytes == old(k).input[y][..|bytes|]
      ensures k == old(k).(input := old(k).input[y := old(k).input[y][|bytes|..]])
    {
      assert TtyOk(y);
      var taken, available := ttys[y].InputTake(count);
      bytes := taken[..];
      k := k.(input := k.input[y := ttys[y].input]);
      OneTtyOk(y);
      OnlyTtys();
    }

    /** At most terminal `y` has changed. */
    twostate lemma OneTtyOk(y: Tty)
      requires Shape() && old(TtysOk()) && ttys[y].Valid()
      requires k.input == old(k).input[y := ttys[y].input]
      requires forall z: Tty :: z != y ==> unchanged(ttys[z], ttys[z].inBuf, ttys[z].outBuf)
      ensures TtysOk()
    {
      forall z: Tty ensures TtyOk(z) {
        assert old(TtyOk(z));
      }
    }

    // ---------------- process lifecycle ----------------

    /** The body of wakeup with the frame that its callers have. */
    method WakeUp(queue: WaitQueue, ghost q: Queue)
      requires Valid() && queue == QueueAt(q) && KernelInvariant.QueuesOk(k)
      modifies this`k, queue, entries, runQueue, tasks`next
      ensures Valid() && k == Wakeup(old(k), q)
    {
      QueuedEntries(q);
      Wake(queue, q);
    }

    /** sched_exit up to the point where the task is a zombie. */
    method Die(task: TaskStruct, status: int)
      requires Valid() && task == tasks[task.slot] && Partition(k.files)
      modifies this`k, vfs, vfs.freeRing, vfs.slots[task.slot], vfs.files, task`exitStatus, task`state
      ensures Valid()
      ensures var t := task.slot;
        k == Put(old(k), t, old(k).tasks[t].(exitStatus := status, state := Zombie))
          .(files := CloseFrom(old(k).files, t, 0), trace := old(k).trace + [Exited(ProcessAt(old(k), t), status)])
    {
      ghost var event := Exited(ProcessAt(k, task.slot), status);
      CloseFiles(task.slot);
      MarkDead(task, status);
      Record(event);
    }

    method MarkDead(task: TaskStruct, status: int)
      requires Valid() && task == tasks[task.slot]
      modifies this`k, task`exitStatus, task`state
      ensures Valid()
      ensures k == Put(old(k), task.slot, old(k).tasks[task.slot].(exitStatus := status, state := Zombie))
    {
      SetExitStatus(task, status);
      SetState(task, Zombie);
    }

    /** The run so far is longer by one event. */
    ghost method Record(event: Event)
      requires Valid()
      modifies this`k
      ensures Valid() && k == old(k).(trace := old(k).trace + [event])
    {
      k := k.(trace := k.trace + [event]);
      SameButTrace();
    }

    twostate lemma SameButTrace()
      requires old(Valid()) && k == old(k).(trace := k.trace)
      requires unchanged(this`current, this`active, runQueue, tasks, queues, entries, ttys, buffers)
      requires unchanged(table, table.freeRing, table.generation, vfs, vfs.freeRing, vfs.slots)
      ensures Valid()
    {
      KeepTasks();
      KeepRunq();
      SleepersHaveEntries();
      KeepQueues();
      KeepKids();
      KeepTable();
      KeepFiles();
      KeepTtys();
    }

    /** The wakeups of sched_exit: whoever waits for this task, and its parent. */
    method NotifyDeath(task: TaskStruct)
      requires Valid() && task == tasks[task.slot] && k.tasks[task.slot].parent != NONE
      requires KernelInvariant.QueuesOk(k) && KernelInvariant.QueuesOk(Wakeup(k, ExitOf(task.slot)))
      modifies this`k, queues, entries, runQueue, tasks`next
      ensures Valid()
      ensures var woken, parent := Wakeup(old(k), ExitOf(task.slot)), old(k).tasks[task.slot].parent;
        k == if parent == task.slot then woken else Wakeup(woken, ChildOf(parent))
    {
      assert TaskOk(task.slot);
      WakeUp(task.waitExit, ExitOf(task.slot));
      var parent := task.parent;
      assert parent == tasks[k.tasks[task.slot].parent];
      assert parent.slot == k.tasks[task.slot].parent;
      if parent != task {
        WakeUp(parent.waitChild, ChildOf(parent.slot));
      }
    }

    /** sched_exit up to its sched_schedule. */
    method Perish(status: int)
      requires Valid() && KernelInvariant.Inv(k) && k.current != SWAPPER
      modifies this`k, this`current, tasks, queues, entries, runQueue, vfs, vfs.freeRing, vfs.slots, vfs.files
      ensures Valid() && k == KernelInvariant.Bury(old(k), status)
    {
      var task := current;
      KernelInvariant.ExitStages(k, status);
      KernelInvariant.LivingHasParent(k);
      ghost var after := BuryOf(k, status);
      Die(task, status);
      NotifyDeath(task);
      SetCurrent(null);
      assert k == after;
    }

    /** sched_exit. */
    method Exit(status: int)
      requires Valid() && KernelInvariant.Inv(k) && k.current != SWAPPER
      modifies this`k, this`current, tasks, queues, entries, runQueue, vfs, vfs.freeRing, vfs.slots, vfs.files
      ensures Valid() && k == DoExit(old(k), status)
    {
      KernelInvariant.BuryOk(k, status);
      KernelInvariant.BuryIsExit(k, status);
      Perish(status);
      Schedule();
    }

    /** The tail of sched_waitpid: hand over the exit status, unlink the zombie, free its
        slot, return its pid. */
    method ReapChild(child: TaskStruct) returns (output: Output)
      requires Valid() && child == tasks[child.slot] && KernelInvariant.Inv(k) && KernelRuns.MayReap(k, child.slot)
      modifies this`k, tasks, table, table.freeRing
      ensures Valid() && k == Reap(old(k), child.slot)
      ensures output == Status(old(k).tasks[child.slot].exitStatus)
    {
      var task := current;
      assert TaskOk(child.slot);
      output := Status(child.exitStatus);
      ghost var event := Reaped(ProcessAt(k, task.slot), ProcessAt(k, child.slot), k.tasks[child.slot].exitStatus, k.tasks[child.slot].pid);
      assert TaskOk(child.slot);
      ReapIsAllowed(child.slot);
      Unlink(task, child);
      var result := child.pid;
      assert TaskOk(child.slot);
      FreeTask(child);
      Record(event);
      SetReturn(task, result);
    }

    /** The child is in nobody else's list, and its pid names its slot. */
    lemma ReapIsAllowed(c: Slot)
      requires KernelInvariant.Inv(k) && KernelRuns.MayReap(k, c)
      ensures c != k.current && |k.free| < MAX_PROCESS_CNT
      ensures k.tasks[c].pid >= 0 && k.tasks[c].pid % MAX_PROCESS_CNT == c
      ensures forall p: Slot :: p != k.current ==> c !in k.tasks[p].children
      ensures c !in Without<Slot>(k.tasks[k.current].children, c)
    {
      var t := k.current;
      var i :| 0 <= i < |k.tasks[t].children| && k.tasks[t].children[i] == c;
      assert KernelInvariant.ChildOk(k, t, k.tasks[t].children[i]);
      forall p: Slot | p != t ensures c !in k.tasks[p].children {
        KernelInvariant.NoCommonChild(k, t, p);
      }
      WithoutMember<Slot>(k.tasks[t].children, c, c);
      KernelInvariant.RoomWhileAlive(k, c);
    }

    // ---------------- waiting ----------------

    /** The condition functions given to wait_event. */
    method CheckCondition(w: Wait) returns (b: bool)
      requires Valid() && k.current != NONE
      ensures b == Holds(k, k.current, w)
    {
      match w
      case ForChild(c) =>
        assert TaskOk(c);
        return tasks[c].state == Zombie;
      case ForAnyChild =>
        var z := FindZombieChild(current);
        return z != null;
      case ForInput(y, _) =>
        assert TtyOk(y);
        return (ttys[y].inHead - ttys[y].inTail) % Rings.U32 != 0;
    }

    /** The wait queue that a wait goes to. */
    method QueueFor(w: Wait) returns (queue: WaitQueue)
      requires Valid() && k.current != NONE
      ensures queue == QueueAt(QueueOf(k.current, w))
    {
      match w
      case ForChild(c) => return tasks[c].waitExit;
      case ForAnyChild => return current.waitChild;
      case ForInput(y, _) => return ttys[y].inWait;
    }

    /** The fields of a task about to sleep. */
    method SetAsleep(task: TaskStruct, w: Wait)
      requires Valid() && task == tasks[task.slot] && task.entry.task == task
      modifies this`k, task`state, task`cont
      ensures Valid()
      ensures k == Put(old(k), task.slot, old(k).tasks[task.slot].(state := Interruptible, cont := Sleep(w)))
    {
      SetState(task, Interruptible);
      SetCont(task, Sleep(w));
    }

    /** wait_event putting the current task to sleep, up to its sched_schedule. */
    method FallAsleep(queue: WaitQueue, w: Wait)
      requires Valid() && current != null && (forall q: Queue :: k.current !in Waiters(k, q)) && current.entry.task == current
      requires queue == QueueAt(QueueOf(k.current, w))
      modifies this`k, current`state, current`cont, queue, entries
      ensures Valid() && k == KernelInvariant.Doze(old(k), w).(current := old(k).current)
    {
      var task := current;
      assert task.slot == k.current;
      SetAsleep(task, w);
      assert forall q: Queue :: Waiters(k, q) == old(Waiters(k, q));
      AddWaiter(task, QueueOf(k.current, w), queue);
    }

    /** The loop of wait_event from its head to the next switch, and what its callers do
        once the condition holds. */
    method WaitLoop(queue: WaitQueue, w: Wait) returns (output: Output)
      requires Valid() && KernelInvariant.Inv(k) && KernelInvariant.MayWait(k, w) && current.entry.task == current
      requires queue == QueueAt(QueueOf(k.current, w))
      modifies this`k, this`current, tasks, queue, entries, runQueue, table, table.freeRing, ttys
      ensures Valid() && k == KernelState.WaitLoop(old(k), w)
      ensures output == WaitOutput(old(k), w)
    {
      output := Silent;
      var holds := CheckCondition(w);
      if holds {
        output := AfterWait(w);
      } else {
        KernelInvariant.RunningIsUnqueued(k);
        KernelInvariant.DozeIsSchedule(k, w);
        FallAsleep(queue, w);
        Schedule();
      }
    }

    /** What follows wait_event in sched_waitpid for one child. */
    method AfterChildWait(c: Slot) returns (output: Output)
      requires Valid() && KernelInvariant.Inv(k) && KernelInvariant.MayWait(k, ForChild(c))
      modifies this`k, tasks, table, table.freeRing
      ensures Valid() && k == KernelState.AfterWait(old(k), ForChild(c))
      ensures output == WaitOutput(old(k), ForChild(c))
    {
      output := Silent;
      assert TaskOk(c);
      if tasks[c].state != Zombie {
        SetReturn(current, -EINTR);
      } else {
        output := ReapChild(tasks[c]);
      }
    }

    /** What follows wait_event in sched_waitpid for any child. */
    method AfterAnyWait() returns (output: Output)
      requires Valid() && KernelInvariant.Inv(k) && k.current != SWAPPER
      modifies this`k, tasks, table, table.freeRing
      ensures Valid() && k == KernelState.AfterWait(old(k), ForAnyChild)
      ensures output == WaitOutput(old(k), ForAnyChild)
    {
      output := Silent;
      var child := FindZombieChild(current);
      if child == null {
        SetReturn(current, -EINTR);
      } else {
        output := ReapChild(child);
      }
    }

    /** What follows wait_event in sched_waitpid and tty_read. */
    method AfterWait(w: Wait) returns (output: Output)
      requires Valid() && KernelInvariant.Inv(k) && KernelInvariant.MayWait(k, w) && Holds(k, k.current, w)
      modifies this`k, tasks, table, table.freeRing, ttys
      ensures Valid() && k == KernelState.AfterWait(old(k), w)
      ensures output == WaitOutput(old(k), w)
    {
      output := Silent;
      match w
      case ForChild(c) => output := AfterChildWait(c);
      case ForAnyChild => output := AfterAnyWait();
      case ForInput(y, count) => output := ReadInput(y, count);
    }

    /** What follows wait_event in tty_read: the bytes that are there go to the caller. */
    method ReadInput(y: Tty, count: nat) returns (output: Output)
      requires Valid() && k.current != NONE && k.input[y] != []
      modifies this`k, tasks`cont, tasks`ret, ttys[y]
      ensures Valid() && k == KernelState.AfterWait(old(k), ForInput(y, count))
      ensures output == WaitOutput(old(k), ForInput(y, count))
    {
      var bytes := TakeInput(y, count);
      SetReturn(current, |bytes|);
      output := Bytes(y, bytes);
    }

    /** wait_event. */
    method WaitEvent(queue: WaitQueue, w: Wait) returns (output: Output)
      requires Valid() && KernelInvariant.Inv(k) && KernelInvariant.MayWait(k, w)
      requires queue == QueueAt(QueueOf(k.current, w))
      modifies this`k, this`current, tasks, queue, entries, runQueue, table, table.freeRing, ttys
      ensures Valid() && k == KernelState.WaitLoop(old(k), w)
      ensures output == WaitOutput(old(k), w)
    {
      KernelInvariant.RunningIsUnqueued(k);
      assert current.entry in entries;
      InitEntry(current);
      output := WaitLoop(queue, w);
    }

    /** The removal from the wait queue at the head of that part of wait_event. */
    method LeaveQueue(task: TaskStruct, w: Wait)
      requires Valid() && KernelInvariant.Inv(k) && task == current && k.tasks[k.current].cont == Sleep(w)
      modifies this`k, task.entry
      ensures Valid() && k == SetWaiters(old(k), QueueOf(k.current, w), Without<Slot>(Waiters(old(k), QueueOf(k.current, w)), k.current))
      ensures KernelInvariant.Inv(k) && KernelInvariant.MayWait(k, w) && task.entry.task == task
    {
      KernelInvariant.RunningIsUnqueued(k);
      KernelRuns.LeftOk(k, w);
      assert TaskOk(task.slot) && EntryOk(task.slot);
      assert task.entry in entries;
      RemoveWaiter(task, QueueOf(k.current, w));
    }

    /** wait_event after its sched_schedule returned. */
    method ResumeWait(queue: WaitQueue, w: Wait) returns (output: Output)
      requires Valid() && KernelInvariant.Inv(k) && k.tasks[k.current].cont == Sleep(w)
      requires queue == QueueAt(QueueOf(k.current, w))
      modifies this`k, this`current, tasks, queues, entries, runQueue, table, table.freeRing, ttys
      modifies vfs, vfs.freeRing, vfs.slots, vfs.files
      ensures Valid() && k == KernelState.ResumeWait(old(k), w)
      ensures output == ResumeOutput(old(k), w)
    {
      output := Silent;
      var task := current;
      ghost var left, after, told := ResumeCases(k, w);
      assert task.entry in entries;
      LeaveQueue(task, w);
      assert TaskOk(task.slot);
      if task.pending != {} {
        Exit(-1);
      } else {
        output := WaitLoop(queue, w);
      }
      assert k == after && output == told;
    }

    // ---------------- system calls ----------------

    /** sched_waitpid for one child. */
    method WaitForPid(pid: int, options: int) returns (output: Output)
      requires Valid() && KernelInvariant.Inv(k) && k.current != SWAPPER
      requires pid > 0 && (options == 0 || options == WNOHANG)
      modifies this`k, this`current, tasks, queues, entries, runQueue, table, table.freeRing, ttys
      ensures Valid()
      ensures var c := FindPid(old(k).tasks, old(k).tasks[old(k).current].children, pid);
        && (c == NONE ==> k == Return(old(k), -ECHILD) && output == Silent)
        && (c != NONE ==> k == ChildFound(old(k), c, options) && output == WaitOutput(old(k), ForChild(c)))
    {
      output := Silent;
      var child := FindChildByPid(current, pid);
      if child == null {
        SetReturn(current, -ECHILD);
      } else {
        output := WaitForChild(child, options);
      }
    }

    /** sched_waitpid after find_child_by_pid. */
    method WaitForChild(child: TaskStruct, options: int) returns (output: Output)
      requires Valid() && KernelInvariant.Inv(k) && k.current != SWAPPER
      requires child == tasks[child.slot] && child.slot in k.tasks[k.current].children
      modifies this`k, this`current, tasks, queues, entries, runQueue, table, table.freeRing, ttys
      ensures Valid() && k == ChildFound(old(k), child.slot, options)
      ensures output == WaitOutput(old(k), ForChild(child.slot))
    {
      output := Silent;
      assert TaskOk(child.slot);
      if child.state == Zombie {
        output := ReapChild(child);
      } else if options == WNOHANG {
        SetReturn(current, 0);
      } else {
        output := WaitEvent(child.waitExit, ForChild(child.slot));
      }
    }

    /** sched_waitpid for any child. */
    method WaitForAny(options: int) returns (output: Output)
      requires Valid() && KernelInvariant.Inv(k) && k.current != SWAPPER
      requires options == 0 || options == WNOHANG
      modifies this`k, this`current, tasks, queues, entries, runQueue, table, table.freeRing, ttys
      ensures Valid()
      ensures var z := FindZombie(old(k).tasks, old(k).tasks[old(k).current].children);
        && (z != NONE ==> k == Reap(old(k), z) && output == Status(old(k).tasks[z].exitStatus))
        && (z == NONE ==> k == NoneDead(old(k), options) && output == Silent)
    {
      var child := FindZombieChild(current);
      if child != null {
        output := ReapChild(child);
      } else {
        output := WaitForDeath(options);
      }
    }

    /** sched_waitpid for any child when none is dead yet. */
    method WaitForDeath(options: int) returns (output: Output)
      requires Valid() && KernelInvariant.Inv(k) && k.current != SWAPPER
      requires FindZombie(k.tasks, k.tasks[k.current].children) == NONE
      modifies this`k, this`current, tasks, queues, entries, runQueue, table, table.freeRing, ttys
      ensures Valid()
      ensures k == NoneDead(old(k), options) && output == Silent
    {
      output := Silent;
      assert KidsOk(k.current);
      if current.children == null {
        SetReturn(current, -ECHILD);
      } else if options == WNOHANG {
        SetReturn(current, 0);
      } else {
        output := WaitEvent(current.waitChild, ForAnyChild);
      }
    }

    /** sched_waitpid. */
    method WaitPid(pid: int, options: int) returns (output: Output)
      requires Valid() && KernelInvariant.Inv(k) && k.current != SWAPPER
      modifies this`k, this`current, tasks, queues, entries, runQueue, table, table.freeRing, ttys
      ensures Valid() && k == DoWaitPid(old(k), pid, options)
      ensures output == WaitPidOutput(old(k), pid, options)
    {
      ghost var after, told := WaitPidCases(k, pid, options);
      output := Silent;
      if options != 0 && options != WNOHANG {
        SetReturn(current, -EINVAL);
      } else if pid > 0 {
        output := WaitForPid(pid, options);
      } else if pid == -1 {
        output := WaitForAny(options);
      } else {
        SetReturn(current, -EINVAL);
      }
      assert k == after && output == told;
    }

    /** What sched_execve and its dispatcher case set in the task. */
    method ResetTask(task: TaskStruct)
      requires Valid() && task == tasks[task.slot]
      modifies this`k, task`state, task`pending, task`cont
      ensures Valid() && k == Put(old(k), task.slot, old(k).tasks[task.slot].(pending := {}, state := Queued, cont := User))
    {
      SetPending(task, {});
      SetState(task, Queued);
      SetCont(task, User);
    }

    /** sched_execve of an image that loads. */
    method StartImage(task: TaskStruct)
      requires Valid() && task == tasks[task.slot] && current == task && KernelInvariant.Inv(k) && k.current != SWAPPER
      modifies this`k, this`current, tasks`state, tasks`pending, tasks`cont, tasks`next, runQueue
      ensures Valid() && k == DoExec(old(k), Loaded)
    {
      KernelInvariant.RunningIsUnqueued(k);
      ghost var after := LoadedOf(k);
      Requeue(task);
      DistinctAppend(old(k).runq, task.slot);
      Schedule();
      assert k == after;
    }

    /** The dispatcher takes the current task off the processor and queues it. */
    method Requeue(task: TaskStruct)
      requires Valid() && task == tasks[task.slot] && task.slot !in k.runq
      modifies this`k, this`current, tasks`state, tasks`pending, tasks`cont, tasks`next, runQueue
      ensures Valid()
      ensures var reset := Put(old(k), task.slot, old(k).tasks[task.slot].(pending := {}, state := Queued, cont := User));
        k == KernelState.Enqueue(reset, task.slot).(current := NONE)
    {
      ResetTask(task);
      Enqueue(task);
      SetCurrent(null);
    }

    /** The execve case of the dispatcher. */
    method Exec(result: ExecResult)
      requires Valid() && KernelInvariant.Inv(k) && k.current != SWAPPER
      modifies this`k, this`current, tasks, queues, entries, runQueue, vfs, vfs.freeRing, vfs.slots, vfs.files
      ensures Valid() && k == DoExec(old(k), result)
    {
      match result
      case NotFound => SetReturn(current, -ENOENT);
      case LoadFailed => Exit(-1);
      case Loaded => StartImage(current);
    }

    /** The part of sched_kill that marks the target, and the result of the call. */
    method Signal(task: TaskStruct, sig: int)
      requires Valid() && task == tasks[task.slot] && k.current != NONE
      modifies this`k, tasks`pending, tasks`cont, tasks`ret
      ensures Valid()
      ensures var marked := Put(old(k), task.slot, old(k).tasks[task.slot].(pending := old(k).tasks[task.slot].pending + {sig}));
        k == Return(marked, 0)
    {
      assert TaskOk(task.slot);
      SetPending(task, task.pending + {sig});
      SetReturn(current, 0);
    }

    /** The sched_enqueue of sched_kill, for a task that may be queued already. */
    method EnqueueAgain(task: TaskStruct)
      requires Valid() && task == tasks[task.slot]
      modifies this`k, runQueue, tasks`next
      ensures k == KernelState.Enqueue(old(k), task.slot)
      ensures task.slot !in old(k).runq ==> Valid()
      ensures task.slot in old(k).runq ==> forall c :: !runQueue.Represents(c)
    {
      PushRunq(task);
      if task.slot !in old(k).runq {
        OnlyRunq();
      }
    }

    /** sched_kill of a task that is there. */
    method KillTask(task: TaskStruct, sig: int)
      requires Valid() && task == tasks[task.slot] && k.current != NONE
      modifies this`k, runQueue, tasks`next, tasks`pending, tasks`cont, tasks`ret
      ensures k == Killed(old(k), task.slot, sig)
      ensures var again := old(k).tasks[task.slot].state == Interruptible && task.slot in old(k).runq;
        && (!again ==> Valid())
        && (again ==> forall c :: !runQueue.Represents(c))
    {
      assert TaskOk(task.slot);
      var asleep := task.state == Interruptible;
      Signal(task, sig);
      if asleep {
        EnqueueAgain(task);
      }
    }

    /** sched_kill.  The kill of a sleeper that is queued already destroys the run queue. */
    method Kill(pid: int, sig: int)
      requires Valid() && KernelInvariant.Inv(k)
      modifies this`k, runQueue, tasks`next, tasks`pending, tasks`cont, tasks`ret
      ensures k == DoKill(old(k), pid, sig)
      ensures !KernelRuns.KillsQueued(old(k), pid, sig) ==> Valid()
      ensures KernelRuns.KillsQueued(old(k), pid, sig) ==> forall c :: !runQueue.Represents(c)
    {
      if sig <= 0 || sig > MAX_SIGNALS {
        SetReturn(current, -1);
        return;
      }
      var task := FindTask(pid);
      if task == null {
        SetReturn(current, -1);
      } else {
        KillTask(task, sig);
      }
    }

    /** task_table_find_task_by_pid. */
    method FindTask(pid: int) returns (task: TaskStruct?)
      requires Valid() && KernelInvariant.Inv(k)
      ensures task == TaskAt(KernelState.Find(k, pid))
    {
      PidsAreInPlace();
      task := table.Find(pid);
      if pid >= 0 {
        assert TaskOk(pid % MAX_PROCESS_CNT);
      }
    }

    lemma PidsAreInPlace()
      requires Valid() && KernelInvariant.TableOk(k)
      ensures table.PidsInPlace()
    {
      forall t: Slot | tasks[t].pid >= 0 ensures tasks[t].pid % MAX_PROCESS_CNT == t {
        assert TaskOk(t);
        TaskTables.PidInRange(t, k.tasks[t].inst);
      }
    }

    // ---------------- fork ----------------

    /** A newborn task before it is linked. */
    method Conceive(parent: TaskStruct) returns (child: TaskStruct?)
      requires Valid() && parent == tasks[parent.slot]
      modifies this`k, table, table.generation
      modifies tasks`pid, tasks`state, tasks`parent, tasks`exitStatus, tasks`pending, tasks`cont, tasks`ret
      ensures Valid()
      ensures old(k).free == [] ==> child == null && k == old(k)
      ensures old(k).free != [] ==> child == tasks[old(k).free[0]] && k == Born(old(k), parent.slot)
    {
      ghost var n := if k.free == [] then 0 else k.allocs[k.free[0]];
      child := AllocTask();
      if child != null {
        InitChild(child, parent, n);
      }
    }

    /** The links and the wait queues of a newborn. */
    method Adopt(parent: TaskStruct, child: TaskStruct)
      requires Valid() && parent == tasks[parent.slot] && child == tasks[child.slot]
      requires forall p: Slot :: child.slot !in k.tasks[p].children
      requires Waiters(k, ExitOf(child.slot)) == [] && Waiters(k, ChildOf(child.slot)) == []
      modifies this`k, child`nextSibling, parent`children
      modifies child.waitExit`head, child.waitExit`tail, child.waitChild`head, child.waitChild`tail
      ensures Valid()
      ensures k == Adopted(old(k), parent.slot, child.slot)
    {
      LinkChild(parent, child);
      InitSignal(child);
    }

    /** sched_fork. */
    method Fork()
      requires Valid() && KernelInvariant.Inv(k)
      modifies this`k, tasks, queues, runQueue, table, table.generation
      ensures Valid() && k == DoFork(old(k))
    {
      var parent := current;
      if k.free != [] {
        FreshSlot(k);
        ForkIsAdoption(k);
      }
      var child := Conceive(parent);
      if child == null {
        SetReturn(parent, -ENOMEM);
        return;
      }
      Raise(parent, child);
    }

    /** sched_fork from the links of the newborn on. */
    method Raise(parent: TaskStruct, child: TaskStruct)
      requires Valid() && parent == tasks[parent.slot] && child == tasks[child.slot] && parent.slot == k.current
      requires child.slot !in k.runq && forall p: Slot :: child.slot !in k.tasks[p].children
      requires Waiters(k, ExitOf(child.slot)) == [] && Waiters(k, ChildOf(child.slot)) == []
      modifies this`k, tasks, queues, runQueue
      ensures Valid() && k == Raised(old(k), parent.slot, child.slot)
    {
      Adopt(parent, child);
      Record(Forked(ProcessAt(old(k), parent.slot), ProcessAt(old(k), child.slot)));
      Enqueue(child);
      assert TaskOk(child.slot);
      SetReturn(parent, child.pid);
    }

    // ---------------- the dispatcher and the keyboard ----------------

    /** tty_input_put on the active terminal. */
    method KeyPress(c: char)
      requires Valid() && KernelInvariant.Inv(k)
      modifies this`k, ttys[active], ttys[active].inBuf, queues, entries, runQueue, tasks`next
      ensures Valid() && k == KernelState.KeyPress(old(k), c)
    {
      ghost var was := k;
      var stored := PutInput(c);
      if stored {
        KernelRuns.FedQueuesOk(was, k);
        WakeReaders();
      }
    }

    /** The wakeup at the end of tty_input_put. */
    method WakeReaders()
      requires Valid() && KernelInvariant.QueuesOk(k)
      modifies this`k, queues, entries, runQueue, tasks`next
      ensures Valid() && k == Wakeup(old(k), InputOf(old(k).active))
    {
      WakeUp(ttys[active].inWait, InputOf(active));
    }

    /** tty_activate, as far as input goes. */
    method Activate(y: Tty)
      requires Valid()
      modifies this`k, this`active
      ensures Valid() && k == old(k).(active := y)
    {
      active := y;
      k := k.(active := y);
      KeepTtys();
      OnlyTtys();
    }

    /** vfs_open by the current task, as a system call. */
    method OpenCall(lookup: Lookup)
      requires Valid() && k.current != NONE
      modifies this`k, tasks`cont, tasks`ret, vfs, vfs.freeRing, vfs.slots[k.current], vfs.files
      ensures Valid() && k == KernelState.PlainBody(old(k), Open(lookup))
    {
      var fd := OpenFile(current.slot, lookup);
      SetReturn(current, fd);
    }

    /** vfs_close by the current task, as a system call. */
    method CloseCall(fd: int)
      requires Valid() && Partition(k.files) && k.current != NONE
      modifies this`k, tasks`cont, tasks`ret, vfs, vfs.freeRing, vfs.slots[k.current], vfs.files
      ensures Valid() && k == KernelState.PlainBody(old(k), Close(fd))
    {
      var r := CloseFile(current.slot, fd);
      SetReturn(current, r);
    }

    /** The descriptor that vfs_chdir uses. */
    method OpenAndClose(t: Slot, lookup: Lookup) returns (fd: int)
      requires Valid() && Partition(k.files)
      modifies this`k, vfs, vfs.freeRing, vfs.slots[t], vfs.files
      ensures Valid()
      ensures var (mid, found) := OpenFileTable.Open(old(k).files, t, lookup);
        fd == found && k == old(k).(files := OpenFileTable.Close(mid, t, fd).0)
    {
      OpenKeepsPartition(k.files, t, lookup);
      fd := OpenFile(t, lookup);
      var _ := CloseFile(t, fd);
    }

    /** vfs_chdir opens the directory, looks at it, and closes it again. */
    method ChangeDirectory(lookup: Lookup, listed: int)
      requires Valid() && Partition(k.files) && k.current != NONE
      modifies this`k, tasks`cont, tasks`ret, vfs, vfs.freeRing, vfs.slots[k.current], vfs.files
      ensures Valid() && k == KernelState.PlainBody(old(k), Chdir(lookup, listed))
    {
      ghost var after := ChdirOf(k, lookup, listed);
      var fd := OpenAndClose(current.slot, lookup);
      SetReturn(current, if fd < 0 then fd else if listed < 0 then listed else 0);
      assert k == after;
    }

    /** The calls that touch only open files. */
    method PlainBody(call: Call)
      requires Valid() && Partition(k.files) && k.current != NONE && IsPlain(call)
      modifies this`k, tasks`cont, tasks`ret, vfs, vfs.freeRing, vfs.slots, vfs.files
      ensures Valid() && k == KernelState.PlainBody(old(k), call)
    {
      if call.Open? || call.OpenStd? {
        OpenCall(call.lookup);
      } else if call.Close? {
        CloseCall(call.fd);
      } else if call.Chdir? {
        ChangeDirectory(call.lookup, call.listed);
      } else {
        SetReturn(current, 0);
      }
    }

    /** A switch in the middle of a system call. */
    method Suspend(cont: Cont)
      requires Valid() && KernelInvariant.Inv(k) && !cont.Sleep?
      modifies this`k, this`current, runQueue, tasks`next, tasks`state, tasks`cont
      ensures Valid() && k == KernelState.Schedule(KernelState.Suspend(old(k), cont))
    {
      KernelInvariant.RunningIsUnqueued(k);
      SetCont(current, cont);
      Schedule();
    }

    /** The calls about processes. */
    method Lifecycle(call: Call) returns (output: Output)
      requires Valid() && KernelInvariant.Inv(k) && k.current != SWAPPER
      requires call.Fork? || call.Exec? || call.Exit? || call.WaitPid?
      modifies this`k, this`current, tasks, queues, entries, runQueue, table, table.freeRing, table.generation, ttys
      modifies vfs, vfs.freeRing, vfs.slots, vfs.files
      ensures Valid() && k == KernelState.Body(old(k), call)
      ensures output == CallOutput(old(k), call)
    {
      output := Silent;
      ghost var after := LifecycleOf(k, call);
      if call.Fork? {
        Fork();
      } else if call.Exec? {
        Exec(call.result);
      } else if call.Exit? {
        Exit(call.status);
      } else {
        output := WaitPid(call.pid, call.options);
      }
      assert k == after;
    }

    /** The body of a call's case of the dispatcher. */
    method Body(call: Call) returns (output: Output)
      requires Valid() && KernelInvariant.Inv(k) && MayCall(k, call)
      requires call.Kill? ==> !KernelRuns.KillsQueued(k, call.pid, call.sig)
      modifies this`k, this`current, tasks, queues, entries, runQueue, table, table.freeRing, table.generation, ttys
      modifies vfs, vfs.freeRing, vfs.slots, vfs.files
      ensures Valid() && k == KernelState.Body(old(k), call)
      ensures output == CallOutput(old(k), call)
    {
      output := Silent;
      if IsPlain(call) {
        PlainBody(call);
      } else if call.Read? {
        Suspend(ReadAgain(call.tty, call.count));
      } else if call.Kill? {
        Kill(call.pid, call.sig);
      } else {
        output := Lifecycle(call);
      }
    }

    /** sys_enter_dispatch_c up to the first switch. */
    method Enter(call: Call) returns (output: Output)
      requires Valid() && KernelInvariant.Inv(k) && MayCall(k, call)
      requires call.Kill? ==> !KernelRuns.KillsQueued(k, call.pid, call.sig)
      modifies this`k, this`current, tasks, queues, entries, runQueue, table, table.freeRing, table.generation, ttys
      modifies vfs, vfs.freeRing, vfs.slots, vfs.files
      ensures Valid() && k == KernelState.Enter(old(k), call)
      ensures output == if YieldsFirst(call) then Silent else CallOutput(old(k), call)
    {
      output := Silent;
      if YieldsFirst(call) {
        Suspend(Yielded(call));
      } else {
        output := Body(call);
      }
    }

    /** The current task returns from the sched_schedule it was suspended in. */
    method Continue() returns (output: Output)
      requires Valid() && KernelInvariant.Inv(k)
      modifies this`k, this`current, tasks, queues, entries, runQueue, table, table.freeRing, table.generation, ttys
      modifies vfs, vfs.freeRing, vfs.slots, vfs.files
      ensures Valid() && k == KernelState.Continue(old(k))
      ensures output == ContinueOutput(old(k))
    {
      output := Silent;
      assert TaskOk(k.current) && KernelInvariant.TaskOk(k, k.current);
      match current.cont
      case User =>
      case Yielded(call) => output := Body(call);
      case ReadAgain(y, count) =>
        if count == 0 {
          SetReturn(current, 0);
        } else {
          output := WaitEvent(ttys[y].inWait, ForInput(y, count));
        }
      case Sleep(w) =>
        var queue := QueueFor(w);
        output := ResumeWait(queue, w);
    }

    /** One step of the machine, done by the objects: they still represent its state, what
        the step writes for its task is what the machine says, and
        the state satisfies the invariant unless a sleeper was killed.  Only the kill of a
        sleeper that is queued already is beyond the objects (Kill says what it does). */
    method Perform(l: Label) returns (output: Output)
      requires Valid() && KernelInvariant.Inv(k) && Enabled(k, l)
      requires l.Syscall? && l.call.Kill? ==> !KernelRuns.KillsQueued(k, l.call.pid, l.call.sig)
      modifies this, tasks, queues, entries, runQueue, table, table.freeRing, table.generation, ttys, buffers
      modifies vfs, vfs.freeRing, vfs.slots, vfs.files
      ensures Valid() && k == Step(old(k), l) && output == OutputOf(old(k), l)
      ensures KernelInvariant.Inv(k) <==> KernelRuns.Allowed(old(k), l)
    {
      output := Silent;
      KernelRuns.StepOkExactly(k, l);
      match l
      case Syscall(call) => output := Enter(call);
      case Resume => output := Continue();
      case Key(c) => KeyPress(c);
      case Activate(y) => Activate(y);
    }

    // ---------------- boot ----------------

    /** Zeroed storage represents the kernel before sched_init. */
    lemma ZeroedOk()
      requires Shape() && k == Zeroed() && current == null && active == 0
      requires forall t: Slot {:trigger tasks[t]} :: tasks[t].IsUnused()
      requires forall t: Slot {:trigger entries[t]} :: entries[t].queue == null
      requires forall q: Queue {:trigger QueueAt(q)} :: QueueAt(q).Valid() && QueueAt(q).contents == []
      requires forall y: Tty {:trigger ttys[y]} :: ttys[y].Valid() && ttys[y].input == []
      requires runQueue.Valid() && runQueue.contents == []
      requires table.Valid() && table.free == Zeroed().free && table.allocs == Zeroed().allocs
      requires vfs.Valid() && vfs.table == OpenFileTable.Initial() && table.generation != vfs.freeRing
      ensures Valid()
    {
    }

    /** task_kernel_exec of a program that is there and loads. */
    method KernelExec()
      returns (task: TaskStruct)
      requires Valid() && k.free != [] && (forall p: Slot :: k.tasks[p].children == [])
      requires k.tasks[k.free[0]] == UNUSED && k.waitq == map[]
      modifies this`k, table, table.generation
      modifies tasks`pid, tasks`state, tasks`parent, tasks`exitStatus, tasks`pending, tasks`cont, tasks`ret
      ensures Valid() && task == tasks[old(k).free[0]] && k == Born(old(k), old(k).free[0])
    {
      ghost var n := k.allocs[k.free[0]];
      task := AllocTask();
      InitChild(task, task, n);
    }

    /** sched_init, sched_kernel_exec of init, and the first sched_schedule. */
    method Boot()
      requires Valid() && k == Zeroed()
      modifies this`k, this`current, runQueue, tasks, table, table.generation
      ensures Valid() && k == KernelState.Boot()
    {
      var swapper := KernelExec();
      BornTwice();
      var init := KernelExec();
      assert init.slot == INIT;
      Enqueue(init);
      Schedule();
    }
  }
}
