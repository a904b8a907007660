/** The address spaces of the kernel and of the 64 task slots (arch/x86/mm.c:406-560,
    kernel/core/task_table.c:15-46). */
module AddressSpaces {
  import opened Paging

  const MAX_PROCESS_CNT := 64
  const MAX_VMAS_TOTAL := 1024
  const MB := 0x10_0000
  const PROCESS_VA_BASE := 4 * MB
  const PROCESS_VA_SIZE := MB
  const PROCESS_PA_START := 5 * MB
  const VGA_TEXT_BUFFER := 0xB8000
  const VGA_TEXT_SIZE := 0x1000
  /** The directory entry of the user region, and the one of the copy window. */
  const USER_PDE := 1
  const COPY_PDE := 1020

  datatype VmaKind = VgaVma | ProcessVma

  datatype Vma = Vma(kind: VmaKind, va: nat, pa: nat, length: nat)

  /** struct mm with its directory. */
  class Mm {
    const pd: array<Pde>
    /** The regions, the latest first. */
    var vmas: seq<Vma>

    constructor (pd: array<Pde>)
      ensures this.pd == pd && vmas == []
    {
      this.pd := pd;
      vmas := [];
    }
  }

  /** mm_find_vma_by_type: the latest region of a kind. */
  method FindVma(mm: Mm, kind: VmaKind) returns (i: int)
    ensures i == -1 ==> forall k :: 0 <= k < |mm.vmas| ==> mm.vmas[k].kind != kind
    ensures i != -1 ==> 0 <= i < |mm.vmas| && mm.vmas[i].kind == kind && forall k :: 0 <= k < i ==> mm.vmas[k].kind != kind
  {
    i := 0;
    while i < |mm.vmas|
      invariant 0 <= i <= |mm.vmas| && forall k :: 0 <= k < i ==> mm.vmas[k].kind != kind
    {
      if mm.vmas[i].kind == kind {
        return;
      }
      i := i + 1;
    }
    return -1;
  }

  /** The kernel's directory as the boot code leaves it: one table for the low 4 MB and one
      for the high window. */
  ghost predicate BootDirectory(pd: array<Pde>)
    reads pd
  {
    DirOk(pd) && forall i {:trigger pd[i]} :: 0 <= i < ENTRIES ==> (pd[i].present <==> i == 0 || i == 512)
  }

  /** A directory that has the kernel's entries everywhere but in the user region. */
  ghost predicate SharesKernel(pd: array<Pde>, kernel: array<Pde>)
    reads pd, kernel
  {
    && DirOk(pd) && DirOk(kernel)
    && forall i {:trigger pd[i]} {:trigger kernel[i]} :: 0 <= i < ENTRIES && i != USER_PDE ==>
         if kernel[i].present then pd[i] == kernel[i] else !pd[i].present
  }

  predicate IsUser(a: Va) {
    PROCESS_VA_BASE <= a < PROCESS_VA_BASE + PROCESS_VA_SIZE
  }

  /** Every address outside the user region, also in the same directory entry, is translated
      as in the kernel's directory. */
  ghost predicate KernelOutside(pd: array<Pde>, kernel: array<Pde>)
    requires DirOk(pd) && DirOk(kernel)
    reads pd, Tables(pd), kernel, Tables(kernel)
  {
    forall a: Va {:trigger Translate(pd, a)} :: !IsUser(a) ==> Translate(pd, a) == Translate(kernel, a)
  }

  /** The user region of task slot `t` lies at its own megabyte of physical memory, open to
      user mode. */
  ghost predicate UserMapped(pd: array<Pde>, t: nat)
    requires DirOk(pd)
    reads pd, Tables(pd)
  {
    && (forall a: Va {:trigger Translate(pd, a)} :: PROCESS_VA_BASE <= a < PROCESS_VA_BASE + PROCESS_VA_SIZE ==>
          Translate(pd, a) == Mapped(PROCESS_PA_START + t * PROCESS_VA_SIZE + (a - PROCESS_VA_BASE)))
    && (forall a: Va {:trigger UserMayAccess(pd, a)} :: PROCESS_VA_BASE <= a < PROCESS_VA_BASE + PROCESS_VA_SIZE ==> UserMayAccess(pd, a))
  }

  ghost predicate UserUnmapped(pd: array<Pde>)
    requires DirOk(pd)
    reads pd, Tables(pd)
  {
    forall a: Va {:trigger Translate(pd, a)} :: PROCESS_VA_BASE <= a < PROCESS_VA_BASE + PROCESS_VA_SIZE ==> Translate(pd, a) == Unmapped
  }

  /** No two slots have a byte of physical memory in common. */
  lemma UserMemoryDisjoint(pd: array<Pde>, t: nat, pd': array<Pde>, t': nat, a: Va, a': Va)
    requires DirOk(pd) && DirOk(pd') && UserMapped(pd, t) && UserMapped(pd', t') && t != t'
    requires PROCESS_VA_BASE <= a < PROCESS_VA_BASE + PROCESS_VA_SIZE
    requires PROCESS_VA_BASE <= a' < PROCESS_VA_BASE + PROCESS_VA_SIZE
    ensures Translate(pd, a).Mapped? && Translate(pd', a').Mapped? && Translate(pd, a).at != Translate(pd', a').at
    ensures Translate(pd, a).at >= PROCESS_PA_START
  {
  }

  class Memory {
    const pool: Pool
    const kernel: Mm
    var mmNext: nat
    var vmaNext: nat
    var copyPt: array?<Pte>

    constructor (kernelPd: array<Pde>)
      ensures fresh(pool) && fresh(kernel) && kernel.pd == kernelPd && kernel.vmas == []
      ensures pool.next == 0 && mmNext == 0 && vmaNext == 0 && copyPt == null
    {
      pool := new Pool();
      kernel := new Mm(kernelPd);
      mmNext, vmaNext, copyPt := 0, 0, null;
    }

    /** mm_add_vma: the region is recorded even when its pages cannot all be mapped. */
    method AddVma(mm: Mm, kind: VmaKind, va: nat, size: nat, pa: nat) returns (mapped: nat)
      requires DirOk(mm.pd) && va + size <= VA_LIMIT && size % PAGE_SIZE == 0 && pool.next <= POOL_PAGES
      requires va % PAGE_SIZE == 0 && pa % PAGE_SIZE == 0
      modifies this`vmaNext, mm`vmas, pool, mm.pd
      modifies TablesIn(mm.pd, DirStart(va / PAGE_SIZE), DirEnd(va / PAGE_SIZE, size / PAGE_SIZE))
      ensures DirOk(mm.pd) && pool.next <= POOL_PAGES && mapped <= size / PAGE_SIZE
      ensures old(vmaNext) >= MAX_VMAS_TOTAL ==> mapped == 0 && mm.vmas == old(mm.vmas) && vmaNext == old(vmaNext)
      ensures old(vmaNext) >= MAX_VMAS_TOTAL ==> Overlaid(mm.pd, va / PAGE_SIZE, 0, pa / PAGE_SIZE)
      ensures old(vmaNext) < MAX_VMAS_TOTAL ==>
        && mm.vmas == [Vma(kind, va, pa, size)] + old(mm.vmas) && vmaNext == old(vmaNext) + 1
        && Overlaid(mm.pd, va / PAGE_SIZE, mapped, pa / PAGE_SIZE)
        && va / PAGE_SIZE + mapped <= PAGES && UserDirs(mm.pd, va / PAGE_SIZE, mapped)
        && Extended(mm.pd, DirStart(va / PAGE_SIZE), DirEnd(va / PAGE_SIZE, size / PAGE_SIZE))
        && var needed := old(Missing(mm.pd[..], DirStart(va / PAGE_SIZE), DirEnd(va / PAGE_SIZE, size / PAGE_SIZE)));
           && (mapped == size / PAGE_SIZE <==> old(pool.next) + needed <= POOL_PAGES)
           && (mapped == size / PAGE_SIZE ==> pool.next == old(pool.next) + needed)
           && (mapped == size / PAGE_SIZE ==> Remapped(mm.pd, va, size, pa))
           && (mapped < size / PAGE_SIZE ==> pool.next == POOL_PAGES && !mm.pd[(va / PAGE_SIZE + mapped) / ENTRIES].present)
    {
      if vmaNext >= MAX_VMAS_TOTAL {
        return 0;
      }
      vmaNext := vmaNext + 1;
      mm.vmas := [Vma(kind, va, pa, size)] + mm.vmas;
      mapped := Map(mm.pd, pool, va, pa, size);
    }

    /** mm_init, for the pages `from` to `to` of the boot code. */
    method Init(premain: nat, premainSize: nat)
      requires BootDirectory(kernel.pd) && pool.next == 0 && vmaNext == 0 && kernel.vmas == []
      requires premain % PAGE_SIZE == 0 && premainSize % PAGE_SIZE == 0 && premain + premainSize <= VA_LIMIT
      modifies this, kernel, pool, kernel.pd, Tables(kernel.pd)
      ensures DirOk(kernel.pd) && pool.next == 1 && vmaNext == 1 && mmNext == old(mmNext)
      ensures kernel.vmas == [Vma(VgaVma, VGA_TEXT_BUFFER, VGA_TEXT_BUFFER, VGA_TEXT_SIZE)]
      ensures WindowOk() && forall i :: 0 <= i < ENTRIES ==> copyPt[i] == NO_PTE
      ensures !kernel.pd[USER_PDE].present
      ensures Translate(kernel.pd, VGA_TEXT_BUFFER) == Mapped(VGA_TEXT_BUFFER)
    {
      Unmap(kernel.pd, premain, premainSize);
      assert kernel.pd[0].present;
      NoneMissing(kernel.pd[..], 0, 1);
      var mapped := AddVma(kernel, VgaVma, VGA_TEXT_BUFFER, VGA_TEXT_SIZE, VGA_TEXT_BUFFER);
      assert mapped == 1 && Translate(kernel.pd, VGA_TEXT_BUFFER) == Mapped(VGA_TEXT_BUFFER);
      copyPt := pool.AllocTable();
      kernel.pd[COPY_PDE] := Pde(true, true, false, copyPt);
    }

    /** The copy window is a table of its own that the kernel's directory refers to. */
    ghost predicate WindowOk()
      reads this, kernel, kernel.pd
    {
      && DirOk(kernel.pd) && copyPt != null && copyPt.Length == ENTRIES
      && kernel.pd[COPY_PDE].present && kernel.pd[COPY_PDE].table == copyPt
    }

    /** mm_fork_kernel: a directory with the kernel's entries, and the kernel's regions. */
    method ForkKernel() returns (mm: Mm?)
      requires DirOk(kernel.pd) && pool.next <= POOL_PAGES && vmaNext <= MAX_VMAS_TOTAL
      modifies this`mmNext, this`vmaNext, pool
      ensures mm != null <==>
        old(mmNext) < MAX_PROCESS_CNT && old(pool.next) < POOL_PAGES && old(vmaNext) + |kernel.vmas| <= MAX_VMAS_TOTAL
      ensures mm != null ==>
        && fresh(mm) && fresh(mm.pd) && DirOk(mm.pd) && |mm.vmas| == |kernel.vmas|
        && (forall i :: 0 <= i < |mm.vmas| ==> mm.vmas[i] == kernel.vmas[|mm.vmas| - 1 - i])
        && (forall i :: 0 <= i < ENTRIES ==> mm.pd[i] == if kernel.pd[i].present then kernel.pd[i] else NO_PDE)
        && pool.next == old(pool.next) + 1 && mmNext == old(mmNext) + 1 && vmaNext == old(vmaNext) + |kernel.vmas|
    {
      if mmNext >= MAX_PROCESS_CNT {
        return null;
      }
      mmNext := mmNext + 1;
      var pd := pool.AllocDirectory();
      if pd == null {
        return null;
      }
      for i := 0 to ENTRIES
        invariant forall k :: 0 <= k < ENTRIES ==> pd[k] == if k < i && kernel.pd[k].present then kernel.pd[k] else NO_PDE
        invariant pool.next == old(pool.next) + 1 && vmaNext == old(vmaNext) && mmNext == old(mmNext) + 1
      {
        if kernel.pd[i].present {
          pd[i] := kernel.pd[i];
        }
      }
      mm := new Mm(pd);
      var kv := kernel.vmas;
      for i := 0 to |kv|
        invariant pool.next == old(pool.next) + 1 && mmNext == old(mmNext) + 1
        invariant forall k :: 0 <= k < ENTRIES ==> pd[k] == if kernel.pd[k].present then kernel.pd[k] else NO_PDE
        invariant mm.pd == pd && |mm.vmas| == i && vmaNext == old(vmaNext) + i <= MAX_VMAS_TOTAL
        invariant forall k :: 0 <= k < i ==> mm.vmas[k] == kv[i - 1 - k]
      {
        if vmaNext >= MAX_VMAS_TOTAL {
          return null;
        }
        vmaNext := vmaNext + 1;
        mm.vmas := [kv[i]] + mm.vmas;
      }
    }

    /** What task_table_init makes of slot `t`: the slot whose table was not there any more
        has its region recorded, but nothing mapped. */
    ghost predicate SlotOk(mm: Mm, t: nat)
      reads this, kernel, kernel.pd, mm, mm.pd
      reads if DirOk(mm.pd) then Tables(mm.pd) else {}, if DirOk(kernel.pd) then Tables(kernel.pd) else {}
    {
      && SharesKernel(mm.pd, kernel.pd) && KernelOutside(mm.pd, kernel.pd)
      && mm.vmas == [Vma(ProcessVma, PROCESS_VA_BASE, PROCESS_PA_START + t * PROCESS_VA_SIZE, PROCESS_VA_SIZE)] + kernel.vmas
      && if t < MAX_PROCESS_CNT - 1 then UserMapped(mm.pd, t) else UserUnmapped(mm.pd)
    }

    /** An address outside the user region is translated alike in all address spaces. */
    lemma KernelTranslation(mm: Mm, t: nat, mm': Mm, t': nat, a: Va)
      requires SlotOk(mm, t) && SlotOk(mm', t') && !IsUser(a)
      ensures Translate(mm.pd, a) == Translate(kernel.pd, a) == Translate(mm'.pd, a)
    {
    }

    /** The user region of a directory that has no table for it. */
    lemma NoUserTable(pd: array<Pde>)
      requires DirOk(pd) && !pd[USER_PDE].present
      ensures Missing(pd[..], USER_PDE, USER_PDE + 1) == 1
      ensures UserUnmapped(pd)
    {
      assert Missing(pd[..], USER_PDE + 1, USER_PDE + 1) == 0;
    }

    /** The part of a slot's turn after mm_fork_kernel. */
    method AddUserRegion(mm: Mm, t: nat)
      requires DirOk(mm.pd) && !mm.pd[USER_PDE].present && pool.next <= POOL_PAGES && vmaNext < MAX_VMAS_TOTAL
      modifies this`vmaNext, mm`vmas, pool, mm.pd
      ensures DirOk(mm.pd) && vmaNext == old(vmaNext) + 1
      ensures forall i :: 0 <= i < ENTRIES && i != USER_PDE ==> mm.pd[i] == old(mm.pd[i])
      ensures mm.pd[USER_PDE].present ==> fresh(mm.pd[USER_PDE].table)
      ensures mm.vmas == [Vma(ProcessVma, PROCESS_VA_BASE, PROCESS_PA_START + t * PROCESS_VA_SIZE, PROCESS_VA_SIZE)] + old(mm.vmas)
      ensures if old(pool.next) < POOL_PAGES then UserMapped(mm.pd, t) && pool.next == old(pool.next) + 1
              else UserUnmapped(mm.pd) && pool.next == POOL_PAGES
      ensures forall a: Va :: !IsUser(a) ==> Translate(mm.pd, a) == old(Translate(mm.pd, a))
    {
      NoUserTable(mm.pd);
      assert DirStart(PROCESS_VA_BASE / PAGE_SIZE) == USER_PDE;
      assert DirEnd(PROCESS_VA_BASE / PAGE_SIZE, PROCESS_VA_SIZE / PAGE_SIZE) == USER_PDE + 1;
      var pa := PROCESS_PA_START + t * PROCESS_VA_SIZE;
      var mapped := AddVma(mm, ProcessVma, PROCESS_VA_BASE, PROCESS_VA_SIZE, pa);
      forall a: Va | !IsUser(a) ensures Translate(mm.pd, a) == old(Translate(mm.pd, a)) {
        ByteInRange(PROCESS_VA_BASE, PROCESS_VA_SIZE, a);
        assert EntryAt(mm.pd, a / PAGE_SIZE) == old(EntryAt(mm.pd, a / PAGE_SIZE));
      }
      forall a: Va | mapped == PROCESS_VA_SIZE / PAGE_SIZE && IsUser(a) ensures UserMayAccess(mm.pd, a) {
        ByteInRange(PROCESS_VA_BASE, PROCESS_VA_SIZE, a);
        assert EntryAt(mm.pd, a / PAGE_SIZE).user;
      }
      if old(pool.next) >= POOL_PAGES {
        assert mapped < PROCESS_VA_SIZE / PAGE_SIZE;
        assert (PROCESS_VA_BASE / PAGE_SIZE + mapped) / ENTRIES == USER_PDE;
        NoUserTable(mm.pd);
      }
    }

    /** One turn of the loop of task_table_init. */
    method InitSlot(t: nat) returns (mm: Mm)
      requires DirOk(kernel.pd) && !kernel.pd[USER_PDE].present && |kernel.vmas| == 1
      requires t < MAX_PROCESS_CNT && mmNext == t && vmaNext == 1 + 2 * t && pool.next == 1 + 2 * t
      modifies this`mmNext, this`vmaNext, pool
      ensures fresh(mm) && fresh(mm.pd) && SlotOk(mm, t)
      ensures mm.pd[USER_PDE].present ==> fresh(mm.pd[USER_PDE].table)
      ensures mmNext == t + 1 && vmaNext == 3 + 2 * t && pool.next == if t < MAX_PROCESS_CNT - 1 then 3 + 2 * t else POOL_PAGES
    {
      mm := ForkKernel();
      assert mm.vmas == kernel.vmas;
      assert KernelOutside(mm.pd, kernel.pd);
      AddUserRegion(mm, t);
    }

    /** What task_table_init does to the address spaces: 63 of the 64 slots get their own
        megabyte; the copy window has taken the page that the last slot's table needs. */
    method InitSlots() returns (mms: seq<Mm>)
      requires DirOk(kernel.pd) && !kernel.pd[USER_PDE].present && |kernel.vmas| == 1
      requires mmNext == 0 && vmaNext == 1 && pool.next == 1
      modifies this`mmNext, this`vmaNext, pool
      ensures |mms| == MAX_PROCESS_CNT && forall t :: 0 <= t < MAX_PROCESS_CNT ==> SlotOk(mms[t], t)
      ensures forall t, u :: 0 <= t < u < MAX_PROCESS_CNT ==> mms[t] != mms[u] && mms[t].pd != mms[u].pd
      ensures pool.next == POOL_PAGES
    {
      mms := [];
      while |mms| < MAX_PROCESS_CNT
        invariant |mms| <= MAX_PROCESS_CNT && mmNext == |mms| && vmaNext == 1 + 2 * |mms|
        invariant pool.next == if |mms| < MAX_PROCESS_CNT then 1 + 2 * |mms| else POOL_PAGES
        invariant forall t :: 0 <= t < |mms| ==> fresh(mms[t]) && fresh(mms[t].pd) && SlotOk(mms[t], t)
        invariant forall t, u :: 0 <= t < u < |mms| ==> mms[t] != mms[u] && mms[t].pd != mms[u].pd
      {
        var mm := InitSlot(|mms|);
        mms := mms + [mm];
      }
    }

    /** mm_init and task_table_init, one after the other. */
    method SetUp(premain: nat, premainSize: nat) returns (mms: seq<Mm>)
      requires BootDirectory(kernel.pd) && pool.next == 0 && mmNext == 0 && vmaNext == 0 && kernel.vmas == []
      requires premain % PAGE_SIZE == 0 && premainSize % PAGE_SIZE == 0 && premain + premainSize <= VA_LIMIT
      modifies this, kernel, pool, kernel.pd, Tables(kernel.pd)
      ensures WindowOk() && |mms| == MAX_PROCESS_CNT && pool.next == POOL_PAGES
      ensures forall t :: 0 <= t < MAX_PROCESS_CNT ==> SlotOk(mms[t], t)
      ensures forall t, u :: 0 <= t < u < MAX_PROCESS_CNT ==> mms[t] != mms[u] && mms[t].pd != mms[u].pd
    {
      Init(premain, premainSize);
      mms := InitSlots();
    }
  }
}
