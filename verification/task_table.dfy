/** The task table with its ring of free slots and its pid generations
    (kernel/core/task_table.c).  `x & (n - 1)` of the source is written `x % n`, and the
    32-bit ring counters wrap explicitly. */
module TaskTables {
  import opened Rings
  import opened Seqs
  import opened OpenFileTable
  import opened KernelState
  import opened SchedObjects

  class TaskTable {
    const slots: seq<TaskStruct>
    const freeRing: array<Slot>
    const generation: array<nat>
    var freeHead: nat
    var freeTail: nat

    /** The free slots in the order in which they will be handed out. */
    ghost var free: seq<Slot>
    /** How often each slot has been allocated. */
    ghost var allocs: seq<nat>

    ghost predicate RingOk()
      reads this, freeRing
    {
      && freeRing.Length == MAX_PROCESS_CNT && freeHead < U32 && freeTail < U32
      && |free| <= MAX_PROCESS_CNT && Used(freeHead, freeTail) == |free|
      && (forall i {:trigger free[i]} :: 0 <= i < |free| ==> free[i] == freeRing[Index(freeHead, i, MAX_PROCESS_CNT)])
    }

    ghost predicate Valid()
      reads this, freeRing, generation
    {
      && RingOk() && |slots| == generation.Length == |allocs| == MAX_PROCESS_CNT
      && (forall t: Slot :: generation[t] == allocs[t] % GENERATIONS)
      && (forall t: Slot :: slots[t].slot == t)
    }

    /** Every pid names the slot that it is in. */
    ghost predicate PidsInPlace()
      requires |slots| == MAX_PROCESS_CNT
      reads slots`pid
    {
      forall t: Slot :: slots[t].pid >= 0 ==> slots[t].pid % MAX_PROCESS_CNT == t
    }

    /** task_table_init, for slots that are zeroed. */
    constructor (slots: seq<TaskStruct>)
      requires |slots| == MAX_PROCESS_CNT && forall t: Slot :: slots[t].slot == t
      ensures Valid() && fresh(freeRing) && fresh(generation) && this.slots == slots
      ensures free == seq(MAX_PROCESS_CNT, i => i) && allocs == seq(MAX_PROCESS_CNT, _ => 0)
    {
      this.slots := slots;
      freeRing := new Slot[MAX_PROCESS_CNT](i => if i < MAX_PROCESS_CNT then i else 0);
      generation := new nat[MAX_PROCESS_CNT](_ => 0);
      freeHead, freeTail := 0, MAX_PROCESS_CNT;
      free, allocs := seq(MAX_PROCESS_CNT, i => i), seq(MAX_PROCESS_CNT, _ => 0);
    }

    /** task_table_find_task_by_pid: the one task with the pid, or null when there is none. */
    method Find(pid: int) returns (r: TaskStruct?)
      requires Valid() && PidsInPlace()
      ensures r == null <==> pid < 0 || forall t: Slot :: slots[t].pid != pid
      ensures pid >= 0 ==> forall t: Slot :: r == slots[t] <==> slots[t].pid == pid
    {
      if pid < 0 {
        return null;
      }
      var task := slots[pid % MAX_PROCESS_CNT];
      if task.pid != pid {
        return null;
      } else {
        return task;
      }
    }

    /** The head of the ring of free slots. */
    method TakeFree() returns (slotIdx: Slot)
      requires RingOk() && free != []
      modifies this`freeHead, this`free
      ensures RingOk() && slotIdx == old(free)[0] && free == old(free)[1..]
    {
      var freeRingIdx := freeHead % MAX_PROCESS_CNT;
      slotIdx := freeRing[freeRingIdx];
      assert slotIdx == free[0];
      HeadMoves(freeHead, freeTail, 1);
      RestOfRing(free, freeRing[..], freeHead);
      freeHead := (freeHead + 1) % U32;
      free := free[1..];
    }

    /** The pid of the slot's next generation, which is counted. */
    method NextPid(slotIdx: Slot) returns (pid: int)
      requires generation.Length == |allocs| == MAX_PROCESS_CNT && generation[slotIdx] == allocs[slotIdx] % GENERATIONS
      modifies generation
      ensures pid == PidOf(slotIdx, allocs[slotIdx]) >= 0 && pid % MAX_PROCESS_CNT == slotIdx
      ensures generation[slotIdx] == (allocs[slotIdx] + 1) % GENERATIONS
      ensures forall t: Slot :: t != slotIdx ==> generation[t] == old(generation[t])
    {
      pid := generation[slotIdx] * MAX_PROCESS_CNT + slotIdx;
      PidInRange(slotIdx, allocs[slotIdx]);
      generation[slotIdx] := (generation[slotIdx] + 1) % GENERATIONS;
    }

    /** task_table_alloc: the oldest free slot, under the pid of its next generation. */
    method Alloc() returns (task: TaskStruct?)
      requires Valid()
      modifies this, generation, slots`pid
      ensures Valid() && (old(PidsInPlace()) ==> PidsInPlace())
      ensures old(free) == [] ==> task == null && free == [] && allocs == old(allocs)
      ensures old(free) == [] ==> forall t: Slot :: slots[t].pid == old(slots[t].pid)
      ensures old(free) != [] ==> var t := old(free)[0];
        && task == slots[t] && task.pid == PidOf(t, old(allocs)[t])
        && free == old(free)[1..] && allocs == old(allocs)[t := old(allocs)[t] + 1]
        && forall u: Slot :: u != t ==> slots[u].pid == old(slots[u].pid)
    {
      if freeHead == freeTail {
        return null;
      }
      var slotIdx := TakeFree();
      task := slots[slotIdx];
      task.pid := NextPid(slotIdx);
      allocs := allocs[slotIdx := allocs[slotIdx] + 1];
    }

    /** task_table_free.  The source panics unless the ring has room and the task is the
        one its pid names. */
    method Free(task: TaskStruct)
      requires Valid()
      requires |free| < MAX_PROCESS_CNT
      requires task.pid >= 0 && slots[task.pid % MAX_PROCESS_CNT] == task
      modifies this, freeRing
      modifies task`pid, task`state, task`children, task`parent, task`nextSibling
      ensures Valid() && free == old(free) + [task.slot] && allocs == old(allocs)
      ensures old(PidsInPlace()) ==> PidsInPlace()
      ensures task.pid == -1 && task.state == Pooled
      ensures task.children == null && task.parent == null && task.nextSibling == null
    {
      assert Used(freeHead, freeTail) != MAX_PROCESS_CNT;
      var slotIdx := task.pid % MAX_PROCESS_CNT;
      var freeRingIdx := freeTail % MAX_PROCESS_CNT;
      TailMoves(freeHead, freeTail, MAX_PROCESS_CNT);
      freeRing[freeRingIdx] := slotIdx;
      freeTail := (freeTail + 1) % U32;
      task.pid := -1;
      task.state := Pooled;
      task.children := null;
      task.parent := null;
      task.nextSibling := null;
      free := free + [slotIdx];
    }
  }

  /** A pid of the table is a non-negative int that names its slot. */
  lemma PidInRange(t: Slot, n: nat)
    ensures 0 <= PidOf(t, n) <= 0x7fff_ffff && PidOf(t, n) % MAX_PROCESS_CNT == t
  {
  }

  /** Two allocations get the same pid only when they are of the same slot and a multiple
      of 2^25 allocations of it apart. */
  lemma PidReuse(t: Slot, n: nat, u: Slot, m: nat)
    ensures PidOf(t, n) == PidOf(u, m) <==> t == u && (n - m) % GENERATIONS == 0
  {
    assert PidOf(t, n) % MAX_PROCESS_CNT == t && PidOf(u, m) % MAX_PROCESS_CNT == u;
    var q, r := n / GENERATIONS, m / GENERATIONS;
    assert n - m == (q - r) * GENERATIONS + (n % GENERATIONS - m % GENERATIONS);
    assert (n - m) % GENERATIONS == 0 <==> n % GENERATIONS == m % GENERATIONS;
  }
}
