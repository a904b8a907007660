/** The linked structures of the scheduler: the singly linked run queue through the tasks
    and the doubly linked wait queues through entries on the sleepers' kernel stacks
    (kernel/core/sched.c:15-55, kernel/core/wait.c). */
module SchedObjects {
  import opened Seqs
  import opened OpenFileTable
  import opened KernelState

  /** struct task, as far as the scheduler uses it.  `cont` and `entry` are the parts of
      the saved kernel stack that matter: where sched_schedule will return to, and the
      wait queue entry of wait_event. */
  class TaskStruct {
    const slot: Slot
    const waitExit: WaitQueue
    const waitChild: WaitQueue
    const entry: WaitEntry

    var state: State
    var pid: int
    var next: TaskStruct?
    var parent: TaskStruct?
    var children: TaskStruct?
    var nextSibling: TaskStruct?
    var exitStatus: int
    var pending: set<int>
    var cont: Cont
    var ret: int

    /** A zeroed slot of the task table. */
    constructor (slot: Slot, waitExit: WaitQueue, waitChild: WaitQueue, entry: WaitEntry)
      ensures this.slot == slot && this.waitExit == waitExit && this.waitChild == waitChild && this.entry == entry
      ensures IsUnused() && next == null
    {
      this.slot, this.waitExit, this.waitChild, this.entry := slot, waitExit, waitChild, entry;
      state, pid, next, parent, children, nextSibling := Pooled, -1, null, null, null, null;
      exitStatus, pending, cont, ret := 0, {}, User, 0;
    }

    predicate IsUnused()
      reads this
    {
      && state == Pooled && pid == -1 && parent == null && children == null && nextSibling == null
      && exitStatus == 0 && pending == {} && cont == User && ret == 0
    }

    /** The scalar fields that sched_fork gives a child. */
    method BecomeChildOf(parent: TaskStruct)
      modifies this`state, this`parent, this`exitStatus, this`pending, this`cont, this`ret
      ensures this.parent == parent && state == Queued && exitStatus == 0 && pending == {} && cont == User && ret == 0
    {
      this.parent := parent;
      exitStatus := 0;
      pending := {};
      cont, ret := User, 0;
      state := Queued;
    }

    /** The links that sched_fork makes. */
    method PushChild(child: TaskStruct)
      modifies child`nextSibling, this`children
      ensures child.nextSibling == old(children) && children == child
    {
      child.nextSibling := children;
      children := child;
    }

    predicate IsAsleep()
      reads this
    {
      state == Interruptible || state == Uninterruptible
    }
  }

  /** struct run_queue. */
  class RunQueue {
    var first: TaskStruct?
    var last: TaskStruct?
    var len: nat
    ghost var contents: seq<TaskStruct>

    /** The links are those of the queue `c`. */
    ghost predicate Represents(c: seq<TaskStruct>)
      reads this, c
    {
      && Distinct(c)
      && len == |c|
      && first == (if c == [] then null else c[0])
      && last == (if c == [] then null else c[|c| - 1])
      && forall i {:trigger c[i].next} :: 0 <= i < |c| ==> c[i].next == if i + 1 < |c| then c[i + 1] else null
    }

    ghost predicate Valid()
      reads this, contents
    {
      Represents(contents)
    }

    constructor ()
      ensures Valid() && contents == []
    {
      len, first, last, contents := 0, null, null, [];
    }

    /** run_queue_push.  A task that is queued already cuts the list behind it or ties it to
        itself, and then the links are those of no queue at all. */
    method Push(task: TaskStruct)
      requires Valid()
      modifies this, task`next, contents`next
      ensures task !in old(contents) ==> Valid() && contents == old(contents) + [task]
      ensures task in old(contents) ==> forall c :: !Represents(c)
    {
      ghost var was := contents;
      task.next := null;
      if len == 0 {
        first, last := task, task;
      } else {
        last.next := task;
        last := task;
      }
      len := len + 1;
      contents := contents + [task];
      if task in was {
        ghost var i :| 0 <= i < |was| && was[i] == task;
        forall c ensures !Represents(c) {
          RepresentsNothing(was, i, c);
        }
      }
    }

    /** The links follow `was` up to index `i` and stop or stay there, but count one more. */
    lemma RepresentsNothing(was: seq<TaskStruct>, i: nat, c: seq<TaskStruct>)
      requires i < |was| && len == |was| + 1 && first == was[0]
      requires forall j :: 0 <= j < i ==> was[j].next == was[j + 1]
      requires was[i].next == null || was[i].next == was[i]
      ensures !Represents(c)
    {
      if Represents(c) {
        SameStart(was, i, c);
      }
    }

    lemma {:induction false} SameStart(was: seq<TaskStruct>, i: nat, c: seq<TaskStruct>)
      requires i < |was| && len == |was| + 1 && first == was[0] && Represents(c)
      requires forall j :: 0 <= j < i ==> was[j].next == was[j + 1]
      ensures c[i] == was[i]
    {
      if i > 0 {
        SameStart(was, i - 1, c);
        assert c[i - 1].next == c[i];
      }
    }

    /** run_queue_poll. */
    method Poll() returns (t: TaskStruct?)
      requires Valid()
      modifies this, contents`next
      ensures Valid()
      ensures old(contents) == [] ==> t == null && contents == []
      ensures old(contents) != [] ==> t == old(contents)[0] && contents == old(contents)[1..] && t.next == null
    {
      if len == 0 {
        return null;
      }
      t := first;
      assert t == contents[0];
      first := t.next;
      len := len - 1;
      if len == 0 {
        last := null;
      }
      t.next := null;
      contents := contents[1..];
    }
  }

  /** struct wait_queue_entry. */
  class WaitEntry {
    const owner: Slot
    var task: TaskStruct?
    var prev: WaitEntry?
    var next: WaitEntry?
    var queue: WaitQueue?

    constructor (owner: Slot)
      ensures this.owner == owner && task == null && prev == null && next == null && queue == null
    {
      this.owner := owner;
      task, prev, next, queue := null, null, null, null;
    }

    /** wait_queue_entry_init. */
    method Init(task: TaskStruct)
      modifies this
      ensures this.task == task && prev == null && next == null && queue == null
    {
      this.task, prev, next, queue := task, null, null, null;
    }

    /** wait_queue_remove: unlink from whatever queue this entry is in.  `i` is where it was. */
    method Remove() returns (ghost i: nat)
      requires queue != null ==> queue.Valid() && this in queue.contents
      modifies this`prev, this`next, this`queue, queue
      modifies (if queue == null then [] else queue.contents)`prev, (if queue == null then [] else queue.contents)`next
      ensures queue == null && (old(queue) != null ==> prev == null && next == null)
      ensures old(queue) == null ==> unchanged(this)
      ensures old(queue) != null ==>
        && old(queue).Valid()
        && i < |old(queue.contents)| && old(queue.contents)[i] == this
        && old(queue).contents == old(queue.contents)[..i] + old(queue.contents)[i + 1..]
    {
      i := 0;
      var q := queue;
      if q == null {
        return;
      }
      i :| 0 <= i < |q.contents| && q.contents[i] == this;
      ghost var was := q.contents;
      assert prev == if i > 0 then was[i - 1] else null;
      assert next == if i + 1 < |was| then was[i + 1] else null;
      if prev != null {
        prev.next := next;
      } else {
        q.head := next;
      }
      if next != null {
        next.prev := prev;
      } else {
        q.tail := prev;
      }
      prev := null;
      next := null;
      queue := null;
      q.contents := was[..i] + was[i + 1..];
      q.CutOut(i);
    }
  }

  /** struct wait_queue.  `id` says which of the kernel's queues this one is. */
  class WaitQueue {
    ghost const id: Queue
    var head: WaitEntry?
    var tail: WaitEntry?
    ghost var contents: seq<WaitEntry>

    ghost predicate Valid()
      reads this, contents
    {
      && Distinct(contents)
      && head == (if contents == [] then null else contents[0])
      && tail == (if contents == [] then null else contents[|contents| - 1])
      && (forall i {:trigger contents[i].queue} :: 0 <= i < |contents| ==> contents[i].queue == this)
      && (forall i {:trigger contents[i].prev} :: 0 <= i < |contents| ==>
            contents[i].prev == if i > 0 then contents[i - 1] else null)
      && (forall i {:trigger contents[i].next} :: 0 <= i < |contents| ==>
            contents[i].next == if i + 1 < |contents| then contents[i + 1] else null)
    }

    /** wait_queue_init of a queue that is empty already. */
    method Init()
      requires Valid() && contents == []
      modifies this`head, this`tail
      ensures unchanged(this)
    {
      head := null;
      tail := null;
    }

    /** Bridging the entry at index `i` leaves a well-formed queue without it. */
    twostate lemma CutOut(i: nat)
      requires old(Valid()) && i < |old(contents)|
      requires contents == old(contents)[..i] + old(contents)[i + 1..]
      requires head == if i == 0 then old(contents[i].next) else old(head)
      requires tail == if i + 1 == |old(contents)| then old(contents[i].prev) else old(tail)
      requires forall j {:trigger old(contents)[j].next} :: 0 <= j < |old(contents)| && j != i ==>
        old(contents)[j].next == if j + 1 == i then old(contents[i].next) else old(contents[j].next)
      requires forall j {:trigger old(contents)[j].prev} :: 0 <= j < |old(contents)| && j != i ==>
        old(contents)[j].prev == if j == i + 1 then old(contents[i].prev) else old(contents[j].prev)
      requires forall j {:trigger old(contents)[j].queue} :: 0 <= j < |old(contents)| && j != i ==>
        old(contents)[j].queue == this
      ensures Valid()
    {
      var was := old(contents);
      assert forall j :: 0 <= j < |contents| ==> contents[j] == was[if j < i then j else j + 1];
    }

    constructor (ghost id: Queue)
      ensures this.id == id && Valid() && contents == []
    {
      this.id := id;
      head, tail, contents := null, null, [];
    }

    /** wait_queue_add: append, unless the entry is in a queue already. */
    method Add(entry: WaitEntry)
      requires Valid() && entry !in contents
      modifies this, entry`prev, entry`next, entry`queue, contents`next
      ensures Valid()
      ensures contents == if old(entry.queue) == null then old(contents) + [entry] else old(contents)
      ensures old(entry.queue) == null ==> entry.queue == this
      ensures old(entry.queue) != null ==> unchanged(entry)
    {
      if entry.queue != null {
        return;
      }
      entry.queue := this;
      entry.prev := tail;
      entry.next := null;
      if tail != null {
        tail.next := entry;
      } else {
        head := entry;
      }
      tail := entry;
      contents := contents + [entry];
      assert forall i :: 0 <= i < |contents| - 1 ==> contents[i] == old(contents)[i];
    }
  }

  ghost function AsleepOf(t: TaskStruct?): seq<TaskStruct>
    reads t
  {
    if t != null && t.IsAsleep() then [t] else []
  }

  /** The sleeping tasks behind the first `n` of `es`, in order. */
  ghost function AsleepBehind(es: seq<WaitEntry>, n: nat): seq<TaskStruct>
    requires n <= |es|
    reads es, set e: WaitEntry | e in es && e.task != null :: e.task
  {
    if n == 0 then [] else AsleepBehind(es, n - 1) + AsleepOf(es[n - 1].task)
  }

  lemma {:induction false} AllBehind(es: seq<WaitEntry>, ts: seq<TaskStruct>, n: nat)
    requires |ts| == |es| && n <= |es|
    requires forall i :: 0 <= i < |es| ==> es[i].task == ts[i] && ts[i].IsAsleep()
    ensures AsleepBehind(es, n) == ts[..n]
  {
    if n > 0 {
      AllBehind(es, ts, n - 1);
    }
  }

  /** The loop body of wakeup: detach one entry and queue its task for a run. */
  method WakeEntry(entry: WaitEntry, rq: RunQueue, ghost tasks: seq<TaskStruct>) returns (next: WaitEntry?)
    requires rq.Valid() && forall i :: 0 <= i < |rq.contents| ==> rq.contents[i] in tasks
    requires entry.task != null ==> entry.task in tasks && entry.task !in rq.contents
    modifies entry`prev, entry`next, entry`queue, rq, tasks`next
    ensures next == old(entry.next)
    ensures entry.prev == null && entry.next == null && entry.queue == null
    ensures rq.Valid() && rq.contents == old(rq.contents) + AsleepOf(entry.task)
    ensures forall i :: 0 <= i < |rq.contents| ==> rq.contents[i] in tasks
  {
    next := entry.next;
    var task := entry.task;
    entry.prev := null;
    entry.next := null;
    entry.queue := null;
    if task != null && task.IsAsleep() {
      rq.Push(task);
    }
  }

  /** The loop of wakeup over the detached chain `es` from `entry` on. */
  method WakeChain(first: WaitEntry?, rq: RunQueue, ghost es: seq<WaitEntry>, ghost tasks: seq<TaskStruct>)
    requires Distinct(es) && first == if es == [] then null else es[0]
    requires forall i {:trigger es[i].next} :: 0 <= i < |es| ==> es[i].next == if i + 1 < |es| then es[i + 1] else null
    requires rq.Valid() && forall i :: 0 <= i < |rq.contents| ==> rq.contents[i] in tasks
    requires forall i {:trigger es[i].task} :: 0 <= i < |es| && es[i].task != null ==>
      es[i].task in tasks && es[i].task !in rq.contents
    requires forall i, j {:trigger es[i].task, es[j].task} :: 0 <= i < j < |es| && es[i].task != null ==> es[i].task != es[j].task
    modifies es`prev, es`next, es`queue, rq, tasks`next
    ensures forall i {:trigger es[i].queue} :: 0 <= i < |es| ==> es[i].queue == null
    ensures rq.Valid() && rq.contents == old(rq.contents) + old(AsleepBehind(es, |es|))
  {
    var entry := first;
    ghost var j := 0;
    while entry != null
      invariant j <= |es| && (entry == if j < |es| then es[j] else null)
      invariant forall i {:trigger es[i].next} :: j <= i < |es| ==> es[i].next == if i + 1 < |es| then es[i + 1] else null
      invariant forall i {:trigger es[i].queue} :: 0 <= i < j ==> es[i].queue == null
      invariant rq.Valid() && rq.contents == old(rq.contents) + old(AsleepBehind(es, j))
      invariant forall i :: 0 <= i < |rq.contents| ==> rq.contents[i] in tasks
      invariant forall i {:trigger es[i].task} :: j <= i < |es| && es[i].task != null ==> es[i].task !in rq.contents
      decreases |es| - j
    {
      entry := WakeEntry(entry, rq, tasks);
      j := j + 1;
    }
  }

  /** wakeup: detach the whole list, then each entry, and queue the sleepers for a run.
      The tasks must be different and not be queued for a run already; all of them are in
      the task table `tasks`. */
  method WakeAll(queue: WaitQueue, rq: RunQueue, ghost tasks: seq<TaskStruct>)
    requires queue.Valid() && rq.Valid() && forall i :: 0 <= i < |rq.contents| ==> rq.contents[i] in tasks
    requires forall i {:trigger queue.contents[i].task} :: 0 <= i < |queue.contents| && queue.contents[i].task != null ==>
      queue.contents[i].task in tasks && queue.contents[i].task !in rq.contents
    requires forall i, j {:trigger queue.contents[i].task, queue.contents[j].task} ::
      0 <= i < j < |queue.contents| && queue.contents[i].task != null ==> queue.contents[i].task != queue.contents[j].task
    modifies queue, queue.contents`prev, queue.contents`next, queue.contents`queue
    modifies rq, tasks`next
    ensures queue.Valid() && queue.contents == []
    ensures forall i {:trigger old(queue.contents)[i].queue} :: 0 <= i < |old(queue.contents)| ==>
      old(queue.contents)[i].queue == null
    ensures rq.Valid() && rq.contents == old(rq.contents) + old(AsleepBehind(queue.contents, |queue.contents|))
  {
    var entry := queue.head;
    ghost var es := queue.contents;
    queue.head := null;
    queue.tail := null;
    queue.contents := [];
    WakeChain(entry, rq, es, tasks);
  }
}
