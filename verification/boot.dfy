/** From zeroed storage to the first process: the objects that Schedulers needs exist, and
    booting them gives the state that every run starts from. */
module Booting {
  import opened Seqs
  import opened OpenFileTable
  import opened KernelState
  import opened SchedObjects
  import opened Schedulers
  import KernelInvariant
  import KernelRuns
  import TaskTables
  import OpenFiles
  import Ttys

  /** The open-file tables. */
  method NewVfs() returns (vfs: OpenFiles.Vfs)
    ensures fresh(vfs) && fresh(vfs.freeRing) && vfs.Valid() && vfs.table == OpenFileTable.Initial()
  {
    var files: seq<OpenFiles.FileStruct> := [];
    while |files| < MAX_FILE_CNT
      invariant |files| <= MAX_FILE_CNT && forall x {:trigger files[x]} :: 0 <= x < |files| ==> files[x].idx == x
    {
      var file := new OpenFiles.FileStruct(|files|);
      files := files + [file];
    }
    var slots: seq<array<OpenFiles.FileStruct?>> := [];
    while |slots| < MAX_PROCESS_CNT
      invariant |slots| <= MAX_PROCESS_CNT
      invariant forall t {:trigger slots[t]} :: 0 <= t < |slots| ==>
        slots[t].Length == RLIMIT_NOFILE && forall fd: Descriptor :: slots[t][fd] == null
      invariant Distinct(slots)
    {
      var table := new OpenFiles.FileStruct?[RLIMIT_NOFILE](_ => null);
      slots := slots + [table];
    }
    vfs := new OpenFiles.Vfs(files, slots);
  }

  /** The queues and the wait entry of the task slots. */
  ghost predicate TasksNew(tasks: seq<TaskStruct>, entries: seq<WaitEntry>, queues: seq<WaitQueue>)
    reads tasks, entries, queues
  {
    && |entries| == |tasks| && |queues| == 2 * |tasks| <= 2 * MAX_PROCESS_CNT
    && forall t {:trigger tasks[t]} {:trigger entries[t]} :: 0 <= t < |tasks| ==>
      && tasks[t].slot == t && tasks[t].IsUnused()
      && tasks[t].entry == entries[t] && entries[t].owner == t && entries[t].queue == null
      && tasks[t].waitExit == queues[2 * t] && queues[2 * t].id == ExitOf(t)
      && tasks[t].waitChild == queues[2 * t + 1] && queues[2 * t + 1].id == ChildOf(t)
  }

  ghost predicate QueuesNew(queues: seq<WaitQueue>)
    reads queues, set q, e | q in queues && e in q.contents :: e
  {
    forall i {:trigger queues[i]} :: 0 <= i < |queues| ==> queues[i].contents == [] && queues[i].Valid()
  }

  /** The objects of one task slot. */
  method NewSlot(t: Slot) returns (task: TaskStruct, exit: WaitQueue, child: WaitQueue)
    ensures fresh(task) && fresh(task.entry) && fresh(exit) && fresh(child) && exit != child
    ensures task.slot == t && task.IsUnused() && task.entry.owner == t && task.entry.queue == null
    ensures task.waitExit == exit && exit.id == ExitOf(t) && exit.contents == [] && exit.Valid()
    ensures task.waitChild == child && child.id == ChildOf(t) && child.contents == [] && child.Valid()
  {
    exit := new WaitQueue(ExitOf(t));
    child := new WaitQueue(ChildOf(t));
    var entry := new WaitEntry(t);
    task := new TaskStruct(t, exit, child, entry);
  }

  method NewTasks() returns (tasks: seq<TaskStruct>, entries: seq<WaitEntry>, queues: seq<WaitQueue>)
    ensures |tasks| == MAX_PROCESS_CNT && TasksNew(tasks, entries, queues) && QueuesNew(queues)
    ensures forall t :: 0 <= t < |tasks| ==> fresh(tasks[t])
  {
    tasks, entries, queues := [], [], [];
    while |tasks| < MAX_PROCESS_CNT
      invariant |tasks| <= MAX_PROCESS_CNT && TasksNew(tasks, entries, queues) && QueuesNew(queues)
      invariant forall t :: 0 <= t < |tasks| ==> fresh(tasks[t])
    {
      var task, exit, child := NewSlot(|tasks|);
      tasks, entries, queues := tasks + [task], entries + [task.entry], queues + [exit, child];
    }
  }

  ghost predicate TtysNew(ttys: seq<Ttys.TtyStruct>, queues: seq<WaitQueue>, buffers: seq<array<char>>)
    reads ttys, queues, buffers
  {
    && |queues| == |ttys| <= TTY_COUNT && |buffers| == 2 * |ttys| && Distinct(buffers)
    && forall y {:trigger ttys[y]} :: 0 <= y < |ttys| ==>
      && ttys[y].idx == y && ttys[y].inWait == queues[y] && queues[y].id == InputOf(y)
      && ttys[y].inBuf == buffers[2 * y] && ttys[y].outBuf == buffers[2 * y + 1]
      && ttys[y].Valid() && ttys[y].input == []
  }

  method NewTtys() returns (ttys: seq<Ttys.TtyStruct>, queues: seq<WaitQueue>, buffers: seq<array<char>>)
    ensures |ttys| == TTY_COUNT && TtysNew(ttys, queues, buffers) && QueuesNew(queues)
  {
    ttys, queues, buffers := [], [], [];
    while |ttys| < TTY_COUNT
      invariant |ttys| <= TTY_COUNT && TtysNew(ttys, queues, buffers) && QueuesNew(queues)
    {
      var queue := new WaitQueue(InputOf(|ttys|));
      var tty := new Ttys.TtyStruct(|ttys|, queue);
      ttys, queues, buffers := ttys + [tty], queues + [queue], buffers + [tty.inBuf, tty.outBuf];
    }
  }

  /** The storage of the kernel, zeroed. */
  method NewKernel() returns (s: Scheduler)
    ensures fresh(s) && fresh(s.runQueue) && fresh(s.table) && fresh(s.table.generation)
    ensures forall t :: 0 <= t < |s.tasks| ==> fresh(s.tasks[t])
    ensures s.Valid() && s.k == Zeroed()
  {
    var tasks, entries, ofTasks := NewTasks();
    var ttys, ofTtys, buffers := NewTtys();
    var runQueue := new RunQueue();
    var table := new TaskTables.TaskTable(tasks);
    var vfs := NewVfs();
    s := new Scheduler(tasks, ttys, runQueue, table, vfs, entries, ofTasks + ofTtys, buffers, Zeroed());
    s.ZeroedOk();
  }

  /** Power on, boot, and the kernel is in the state from which all runs start. */
  method PowerOn() returns (s: Scheduler)
    ensures fresh(s) && s.Valid() && s.k == Boot() && KernelInvariant.Inv(s.k)
  {
    s := NewKernel();
    s.Boot();
    KernelRuns.BootOk();
  }
}
