/** Two-level page tables (arch/x86/mm.c:244-382, arch/x86/mm.c:598-630), as in section 4.3 of
    the Intel SDM, volume 3A.  A page table is the object that a directory entry refers to;
    a page of the pool that becomes a table or a directory is a new object. */
module Paging {

  const PAGE_SIZE := 4096
  const ENTRIES := 1024
  const PAGES := 0x10_0000
  const VA_LIMIT := 0x1_0000_0000
  const KERNEL_VA_BASE := 0x8000_0000
  const KERNEL_PAGE := 0x8_0000
  /** MM_PAGING_PAGES_TOTAL: a directory and a table for each of 64 processes. */
  const POOL_PAGES := 128

  type Va = n: nat | n < VA_LIMIT
  type Page = n: nat | n < PAGES

  datatype Pte = Pte(present: bool, writable: bool, user: bool, frame: nat)

  datatype Pde = Pde(present: bool, writable: bool, user: bool, table: array?<Pte>)

  const NO_PTE := Pte(false, false, false, 0)
  const NO_PDE := Pde(false, false, false, null)

  /** The bump allocator of pages for paging structures. */
  class Pool {
    var next: nat

    constructor ()
      ensures next == 0
    {
      next := 0;
    }

    /** mm_alloc_page_pa and pt_clear: a table without mappings. */
    method AllocTable() returns (pt: array?<Pte>)
      modifies this
      ensures old(next) >= POOL_PAGES ==> pt == null && next == old(next)
      ensures old(next) < POOL_PAGES ==> pt != null && fresh(pt) && next == old(next) + 1
      ensures old(next) < POOL_PAGES ==> pt.Length == ENTRIES && forall i :: 0 <= i < ENTRIES ==> pt[i] == NO_PTE
    {
      if next >= POOL_PAGES {
        return null;
      }
      next := next + 1;
      pt := new Pte[ENTRIES](_ => NO_PTE);
    }

    /** mm_alloc_page_pa and the clearing loop of mm_fork_kernel. */
    method AllocDirectory() returns (pd: array?<Pde>)
      modifies this
      ensures old(next) >= POOL_PAGES ==> pd == null && next == old(next)
      ensures old(next) < POOL_PAGES ==> pd != null && fresh(pd) && next == old(next) + 1
      ensures old(next) < POOL_PAGES ==> pd.Length == ENTRIES && forall i :: 0 <= i < ENTRIES ==> pd[i] == NO_PDE
    {
      if next >= POOL_PAGES {
        return null;
      }
      next := next + 1;
      pd := new Pde[ENTRIES](_ => NO_PDE);
    }
  }

  // ---------------- translation ----------------

  ghost predicate DirOk(pd: array<Pde>)
    reads pd
  {
    && pd.Length == ENTRIES
    && (forall i {:trigger pd[i]} :: 0 <= i < ENTRIES ==>
          if pd[i].present then pd[i].table != null && pd[i].table.Length == ENTRIES else pd[i].table == null)
    && (forall i, j {:trigger pd[i], pd[j]} :: 0 <= i < j < ENTRIES && pd[i].present && pd[j].present ==> pd[i].table != pd[j].table)
  }

  datatype Translation = Unmapped | Mapped(at: nat)

  /** The table entry of a page; a page without a table has an empty one. */
  ghost function EntryAt(pd: array<Pde>, p: Page): Pte
    requires DirOk(pd)
    reads pd, pd[p / ENTRIES].table
  {
    if pd[p / ENTRIES].present then pd[p / ENTRIES].table[p % ENTRIES] else NO_PTE
  }

  /** The frame of a page. */
  ghost function FrameOf(pd: array<Pde>, p: Page): Translation
    requires DirOk(pd)
    reads pd, pd[p / ENTRIES].table
  {
    var e := EntryAt(pd, p);
    if e.present then Mapped(e.frame) else Unmapped
  }

  /** A program in user mode may read and write the byte. */
  ghost predicate UserMayAccess(pd: array<Pde>, va: Va)
    requires DirOk(pd)
    reads pd, pd[va / PAGE_SIZE / ENTRIES].table
  {
    var e := EntryAt(pd, va / PAGE_SIZE);
    pd[va / PAGE_SIZE / ENTRIES].user && e.present && e.writable && e.user
  }

  /** The physical address of a byte. */
  ghost function Translate(pd: array<Pde>, va: Va): Translation
    requires DirOk(pd)
    reads pd, pd[va / PAGE_SIZE / ENTRIES].table
  {
    var f := FrameOf(pd, va / PAGE_SIZE);
    if f.Unmapped? then Unmapped else Mapped(f.at * PAGE_SIZE + va % PAGE_SIZE)
  }

  /** mm_va_to_pa. */
  method VaToPa(pd: array<Pde>, va: Va) returns (r: Translation)
    requires DirOk(pd)
    ensures r == Translate(pd, va)
  {
    var pdeIdx := va / 0x40_0000;
    var pteIdx := va / PAGE_SIZE % ENTRIES;
    assert pdeIdx == va / PAGE_SIZE / ENTRIES;
    var pde := pd[pdeIdx];
    if !pde.present {
      return Unmapped;
    }
    var pte := pde.table[pteIdx];
    if !pte.present {
      return Unmapped;
    }
    return Mapped(pte.frame * PAGE_SIZE + va % PAGE_SIZE);
  }

  // ---------------- mapping ----------------

  /** One turn of the loop of vm_map_impl.  `user` is whether the page is below the kernel. */
  method MapPage(pd: array<Pde>, pool: Pool, p: Page, frame: nat, user: bool) returns (ok: bool)
    requires DirOk(pd)
    modifies pd, pool, TablesIn(pd, p / ENTRIES, p / ENTRIES + 1)
    ensures DirOk(pd) && ok == (old(pd[p / ENTRIES].present) || old(pool.next) < POOL_PAGES)
    ensures pool.next == old(pool.next) + if old(pd[p / ENTRIES].present) || !ok then 0 else 1
    ensures ok ==> EntryAt(pd, p) == Pte(true, true, user, frame)
    ensures forall q: Page :: q != p || !ok ==> EntryAt(pd, q) == old(EntryAt(pd, q))
    ensures forall i :: 0 <= i < ENTRIES && (i != p / ENTRIES || !ok) ==> pd[i] == old(pd[i])
    ensures ok ==> pd[p / ENTRIES].present
    ensures ok ==> if old(pd[p / ENTRIES].present) then pd[p / ENTRIES].table == old(pd[p / ENTRIES].table)
                   else fresh(pd[p / ENTRIES].table)
    ensures ok ==> pd[p / ENTRIES].user == (user || old(pd[p / ENTRIES].present && pd[p / ENTRIES].user))
  {
    var pdeIdx, pteIdx := p / ENTRIES, p % ENTRIES;
    if !pd[pdeIdx].present {
      var newPt := pool.AllocTable();
      if newPt == null {
        return false;
      }
      pd[pdeIdx] := Pde(true, true, false, newPt);
    }
    var pt := pd[pdeIdx].table;
    if user {
      pd[pdeIdx] := pd[pdeIdx].(user := true);
    }
    pt[pteIdx] := Pte(true, true, user, frame);
    return true;
  }

  /** How many directory entries from `lo` to `hi` have no table yet. */
  ghost function Missing(pdes: seq<Pde>, lo: nat, hi: nat): nat
    requires lo <= hi <= |pdes|
    decreases hi - lo
  {
    if lo == hi then 0 else (if pdes[lo].present then 0 else 1) + Missing(pdes, lo + 1, hi)
  }

  lemma {:induction false} MissingSame(a: seq<Pde>, b: seq<Pde>, lo: nat, hi: nat)
    requires lo <= hi <= |a| == |b| && forall k :: lo <= k < hi ==> a[k].present == b[k].present
    ensures Missing(a, lo, hi) == Missing(b, lo, hi)
    decreases hi - lo
  {
    if lo < hi {
      MissingSame(a, b, lo + 1, hi);
    }
  }

  lemma {:induction false} MissingOneLess(a: seq<Pde>, b: seq<Pde>, lo: nat, hi: nat, i: nat)
    requires lo <= i < hi <= |a| == |b|
    requires forall k :: lo <= k < hi && k != i ==> a[k].present == b[k].present
    requires !a[i].present
    ensures Missing(a, lo, hi) == Missing(b, lo, hi) + if b[i].present then 1 else 0
    ensures Missing(a, lo, hi) > 0
    decreases hi - lo
  {
    if lo == i {
      MissingSame(a, b, lo + 1, hi);
    } else {
      MissingOneLess(a, b, lo + 1, hi, i);
    }
  }

  lemma {:induction false} NoneMissing(a: seq<Pde>, lo: nat, hi: nat)
    requires lo <= hi <= |a| && forall k :: lo <= k < hi ==> a[k].present
    ensures Missing(a, lo, hi) == 0
    decreases hi - lo
  {
    if lo < hi {
      NoneMissing(a, lo + 1, hi);
    }
  }

  /** The directory entries of `n` pages from page `p` on. */
  function DirStart(p: nat): nat { p / ENTRIES }
  function DirEnd(p: nat, n: nat): nat { if n == 0 then p / ENTRIES else (p + n - 1) / ENTRIES + 1 }

  /** The tables that the directory has for these entries. */
  ghost function TablesIn(pd: array<Pde>, lo: nat, hi: nat): set<object>
    requires DirOk(pd) && hi <= ENTRIES
    reads pd
  {
    set i | lo <= i < hi && pd[i].present :: pd[i].table
  }

  /** MapPage, with the count of the tables that are missing from `lo` to `hi`. */
  method MapPageIn(pd: array<Pde>, pool: Pool, p: Page, frame: nat, user: bool, ghost lo: nat, ghost hi: nat) returns (ok: bool)
    requires DirOk(pd) && lo <= p / ENTRIES < hi <= ENTRIES
    modifies pd, pool, TablesIn(pd, p / ENTRIES, p / ENTRIES + 1)
    ensures DirOk(pd) && (old(pool.next) <= POOL_PAGES ==> pool.next <= POOL_PAGES)
    ensures forall q: Page :: EntryAt(pd, q) == if q == p && ok then Pte(true, true, user, frame) else old(EntryAt(pd, q))
    ensures forall i :: 0 <= i < ENTRIES && i != p / ENTRIES ==> pd[i] == old(pd[i])
    ensures ok && user ==> pd[p / ENTRIES].user
    ensures old(pd[p / ENTRIES].present && pd[p / ENTRIES].user) ==> pd[p / ENTRIES].present && pd[p / ENTRIES].user
    ensures ok ==> pd[p / ENTRIES].present
    ensures pd[p / ENTRIES].present ==> if old(pd[p / ENTRIES].present) then pd[p / ENTRIES].table == old(pd[p / ENTRIES].table)
                                        else fresh(pd[p / ENTRIES].table)
    ensures pool.next + Missing(pd[..], lo, hi) == old(pool.next) + old(Missing(pd[..], lo, hi))
    ensures !ok ==> pool.next >= POOL_PAGES && Missing(pd[..], lo, hi) > 0 && !pd[p / ENTRIES].present
  {
    ghost var before, d := pd[..], p / ENTRIES;
    ok := MapPage(pd, pool, p, frame, user);
    if before[d].present {
      MissingSame(before, pd[..], lo, hi);
    } else {
      MissingOneLess(before, pd[..], lo, hi, d);
    }
  }

  lemma NextPage(a: nat)
    ensures (a + PAGE_SIZE) / PAGE_SIZE == a / PAGE_SIZE + 1
  {
  }

  lemma OnePageLess(a: nat)
    requires a > 0 && a % PAGE_SIZE == 0
    ensures a >= PAGE_SIZE && (a - PAGE_SIZE) % PAGE_SIZE == 0 && (a - PAGE_SIZE) / PAGE_SIZE == a / PAGE_SIZE - 1 >= 0
  {
  }

  lemma PagesOf(va: nat, size: nat)
    requires va + size <= VA_LIMIT && size % PAGE_SIZE == 0
    ensures va / PAGE_SIZE + size / PAGE_SIZE <= PAGES
  {
  }

  lemma EntryOf(p: nat, k: nat, n: nat)
    requires k < n && p + n <= PAGES
    ensures DirStart(p) <= (p + k) / ENTRIES < DirEnd(p, n) <= ENTRIES
  {
  }

  /** A page of the range for every directory entry of the range. */
  function PageOf(p: nat, i: nat): nat {
    if p / ENTRIES == i then p else i * ENTRIES
  }

  lemma PageOfEntry(p: nat, n: nat, i: nat)
    requires DirStart(p) <= i < DirEnd(p, n)
    ensures p <= PageOf(p, i) < p + n && PageOf(p, i) / ENTRIES == i
  {
  }

  ghost function Tables(pd: array<Pde>): set<array<Pte>>
    requires DirOk(pd)
    reads pd
  {
    set i | 0 <= i < ENTRIES && pd[i].table != null :: pd[i].table
  }

  /** Pages `p0` to `p0 + m` are mapped to frames `f0` to `f0 + m`, those below the kernel for
      user mode too, and the entry of no other page has changed. */
  twostate predicate Overlaid(pd: array<Pde>, p0: nat, m: nat, f0: nat)
    requires old(DirOk(pd)) && DirOk(pd)
    reads pd, Tables(pd)
  {
    forall q: Page {:trigger EntryAt(pd, q)} ::
      EntryAt(pd, q) == if p0 <= q < p0 + m then Pte(true, true, q < KERNEL_PAGE, f0 + (q - p0)) else old(EntryAt(pd, q))
  }

  /** The directory entries of the pages `p0` to `p0 + m` below the kernel are for user mode. */
  ghost predicate UserDirs(pd: array<Pde>, p0: nat, m: nat)
    requires DirOk(pd) && p0 + m <= PAGES
    reads pd
  {
    forall q: nat {:trigger pd[q / ENTRIES]} :: p0 <= q < p0 + m && q < KERNEL_PAGE ==> pd[q / ENTRIES].present && pd[q / ENTRIES].user
  }

  ghost function Entries(pd: array<Pde>): (r: seq<Pte>)
    requires DirOk(pd)
    reads pd, Tables(pd)
    ensures |r| == PAGES && forall q: Page {:trigger r[q]} {:trigger EntryAt(pd, q)} :: r[q] == EntryAt(pd, q)
  {
    seq(PAGES, q requires 0 <= q < PAGES && DirOk(pd) reads pd, if DirOk(pd) then Tables(pd) else {} => EntryAt(pd, q))
  }

  /** The same, over the entries `was`. */
  ghost predicate OverlaidOn(pd: array<Pde>, was: seq<Pte>, p0: nat, m: nat, f0: nat)
    requires DirOk(pd) && |was| == PAGES
    reads pd, Tables(pd)
  {
    forall q: Page {:trigger EntryAt(pd, q)} ::
      EntryAt(pd, q) == if p0 <= q < p0 + m then Pte(true, true, q < KERNEL_PAGE, f0 + (q - p0)) else was[q]
  }

  /** MapPageIn for the page behind the first `m` of a range. */
  method MapNext(pd: array<Pde>, pool: Pool, p: Page, frame: nat, user: bool, ghost lo: nat, ghost hi: nat,
                 ghost was: seq<Pte>, ghost p0: nat, ghost m: nat, ghost f0: nat) returns (ok: bool)
    requires DirOk(pd) && lo <= p / ENTRIES < hi <= ENTRIES
    requires p == p0 + m && frame == f0 + m && user == (p < KERNEL_PAGE)
    requires |was| == PAGES && OverlaidOn(pd, was, p0, m, f0) && UserDirs(pd, p0, m)
    modifies pd, pool, TablesIn(pd, p / ENTRIES, p / ENTRIES + 1)
    ensures DirOk(pd) && (old(pool.next) <= POOL_PAGES ==> pool.next <= POOL_PAGES)
    ensures var n := if ok then m + 1 else m; OverlaidOn(pd, was, p0, n, f0) && UserDirs(pd, p0, n)
    ensures forall i :: 0 <= i < ENTRIES && i != p / ENTRIES ==> pd[i] == old(pd[i])
    ensures pd[p / ENTRIES].present ==> if old(pd[p / ENTRIES].present) then pd[p / ENTRIES].table == old(pd[p / ENTRIES].table)
                                        else fresh(pd[p / ENTRIES].table)
    ensures pool.next + Missing(pd[..], lo, hi) == old(pool.next) + old(Missing(pd[..], lo, hi))
    ensures !ok ==> pool.next >= POOL_PAGES && Missing(pd[..], lo, hi) > 0 && !pd[p / ENTRIES].present
  {
    ok := MapPageIn(pd, pool, p, frame, user, lo, hi);
  }

  /** Directory entries changed only from `lo` to `hi`, where they may have got new tables. */
  twostate predicate Extended(pd: array<Pde>, lo: nat, hi: nat)
    requires hi <= pd.Length
    reads pd
  {
    && (forall i :: 0 <= i < pd.Length && !(lo <= i < hi) ==> pd[i] == old(pd[i]))
    && (forall i :: lo <= i < hi && pd[i].present ==>
          fresh(pd[i].table) || (old(pd[i].present) && pd[i].table == old(pd[i].table)))
  }

  /** vm_map_impl: maps page after page and gives up silently when a table is missing and
      the pool is exhausted.  `mapped` is how many pages it got to. */
  method MapLoop(pd: array<Pde>, pool: Pool, va0: nat, pa0: nat, size0: nat, ghost lo: nat, ghost hi: nat) returns (mapped: nat)
    requires DirOk(pd) && size0 % PAGE_SIZE == 0 && va0 / PAGE_SIZE + size0 / PAGE_SIZE <= PAGES
    requires lo == DirStart(va0 / PAGE_SIZE) <= hi == DirEnd(va0 / PAGE_SIZE, size0 / PAGE_SIZE) <= ENTRIES
    modifies pd, pool, TablesIn(pd, lo, hi)
    ensures DirOk(pd) && mapped <= size0 / PAGE_SIZE && Overlaid(pd, va0 / PAGE_SIZE, mapped, pa0 / PAGE_SIZE)
    ensures UserDirs(pd, va0 / PAGE_SIZE, mapped)
    ensures Extended(pd, lo, hi)
    ensures pool.next + Missing(pd[..], lo, hi) == old(pool.next) + old(Missing(pd[..], lo, hi))
    ensures old(pool.next) <= POOL_PAGES ==> pool.next <= POOL_PAGES
    ensures mapped < size0 / PAGE_SIZE ==>
      pool.next >= POOL_PAGES && Missing(pd[..], lo, hi) > 0 && !pd[(va0 / PAGE_SIZE + mapped) / ENTRIES].present
  {
    var va, pa, size := va0, pa0, size0;
    ghost var p0, n0, f0 := va0 / PAGE_SIZE, size0 / PAGE_SIZE, pa0 / PAGE_SIZE;
    ghost var was := Entries(pd);
    mapped := 0;
    while size > 0
      invariant mapped <= n0 && size == (n0 - mapped) * PAGE_SIZE
      invariant va / PAGE_SIZE == p0 + mapped && pa / PAGE_SIZE == f0 + mapped
      invariant DirOk(pd) && OverlaidOn(pd, was, p0, mapped, f0) && UserDirs(pd, p0, mapped) && Extended(pd, lo, hi)
      invariant old(pool.next) <= POOL_PAGES ==> pool.next <= POOL_PAGES
      invariant pool.next + Missing(pd[..], lo, hi) == old(pool.next) + old(Missing(pd[..], lo, hi))
    {
      EntryOf(p0, mapped, n0);
      var ok := MapNext(pd, pool, va / PAGE_SIZE, pa / PAGE_SIZE, va < KERNEL_VA_BASE, lo, hi, was, p0, mapped, f0);
      if !ok {
        return;
      }
      NextPage(va);
      NextPage(pa);
      va, pa, size := va + PAGE_SIZE, pa + PAGE_SIZE, size - PAGE_SIZE;
      mapped := mapped + 1;
    }
  }

  /** Every byte of the range is translated to its place from `pa` on, and every other byte
      as before. */
  twostate predicate Remapped(pd: array<Pde>, va: nat, size: nat, pa: nat)
    requires old(DirOk(pd)) && DirOk(pd)
    reads pd, Tables(pd)
  {
    forall a: Va {:trigger Translate(pd, a)} ::
      Translate(pd, a) == if va <= a < va + size then Mapped(pa + (a - va)) else old(Translate(pd, a))
  }

  lemma ByteInRange(va: nat, size: nat, a: nat)
    requires va % PAGE_SIZE == 0 && size % PAGE_SIZE == 0
    ensures va <= a < va + size <==> va / PAGE_SIZE <= a / PAGE_SIZE < va / PAGE_SIZE + size / PAGE_SIZE
    ensures (a / PAGE_SIZE - va / PAGE_SIZE) * PAGE_SIZE + a % PAGE_SIZE == a - va
  {
  }

  /** vm_map_impl: it maps the whole range exactly when the pool has the tables that are
      missing, and then every byte of the range, and no other, is translated anew. */
  method Map(pd: array<Pde>, pool: Pool, va: nat, pa: nat, size: nat) returns (mapped: nat)
    requires DirOk(pd) && va + size <= VA_LIMIT && size % PAGE_SIZE == 0 && pool.next <= POOL_PAGES
    modifies pd, pool, TablesIn(pd, DirStart(va / PAGE_SIZE), DirEnd(va / PAGE_SIZE, size / PAGE_SIZE))
    ensures DirOk(pd) && mapped <= size / PAGE_SIZE && pool.next <= POOL_PAGES
    ensures Overlaid(pd, va / PAGE_SIZE, mapped, pa / PAGE_SIZE)
    ensures va / PAGE_SIZE + mapped <= PAGES && UserDirs(pd, va / PAGE_SIZE, mapped)
    ensures Extended(pd, DirStart(va / PAGE_SIZE), DirEnd(va / PAGE_SIZE, size / PAGE_SIZE))
    ensures var needed := old(Missing(pd[..], DirStart(va / PAGE_SIZE), DirEnd(va / PAGE_SIZE, size / PAGE_SIZE)));
      && (mapped == size / PAGE_SIZE <==> old(pool.next) + needed <= POOL_PAGES)
      && (mapped == size / PAGE_SIZE ==> pool.next == old(pool.next) + needed)
      && (mapped < size / PAGE_SIZE ==> pool.next == POOL_PAGES && !pd[(va / PAGE_SIZE + mapped) / ENTRIES].present)
    ensures mapped == size / PAGE_SIZE && va % PAGE_SIZE == 0 && pa % PAGE_SIZE == 0 ==> Remapped(pd, va, size, pa)
  {
    PagesOf(va, size);
    ghost var p, n := va / PAGE_SIZE, size / PAGE_SIZE;
    mapped := MapLoop(pd, pool, va, pa, size, DirStart(p), DirEnd(p, n));
    if mapped == n {
      forall i | DirStart(p) <= i < DirEnd(p, n) ensures pd[i].present {
        PageOfEntry(p, n, i);
        assert EntryAt(pd, PageOf(p, i)).present;
      }
      NoneMissing(pd[..], DirStart(p), DirEnd(p, n));
      if va % PAGE_SIZE == 0 && pa % PAGE_SIZE == 0 {
        forall a: Va ensures Translate(pd, a) == if va <= a < va + size then Mapped(pa + (a - va)) else old(Translate(pd, a)) {
          ByteInRange(va, size, a);
          var q: Page := a / PAGE_SIZE;
          assert EntryAt(pd, q) == if p <= q < p + n then Pte(true, true, q < KERNEL_PAGE, pa / PAGE_SIZE + (q - p)) else old(EntryAt(pd, q));
        }
      }
    }
  }

  // ---------------- unmapping ----------------

  /** The pages `p0` to `p0 + m` have lost their translation, and no other has changed. */
  twostate predicate Removed(pd: array<Pde>, p0: nat, m: nat)
    requires old(DirOk(pd)) && DirOk(pd)
    reads pd, Tables(pd)
  {
    forall q: Page {:trigger FrameOf(pd, q)} ::
      FrameOf(pd, q) == if p0 <= q < p0 + m then Unmapped else old(FrameOf(pd, q))
  }

  /** One turn of the loop of vm_unmap_impl. */
  method UnmapPage(pd: array<Pde>, p: Page)
    requires DirOk(pd)
    modifies TablesIn(pd, p / ENTRIES, p / ENTRIES + 1)
    ensures forall q: Page :: FrameOf(pd, q) == if q == p then Unmapped else old(FrameOf(pd, q))
  {
    var pde := pd[p / ENTRIES];
    if pde.present {
      var pt := pde.table;
      pt[p % ENTRIES] := pt[p % ENTRIES].(present := false);
    }
  }

  method UnmapLoop(pd: array<Pde>, va0: nat, size0: nat)
    requires DirOk(pd) && size0 % PAGE_SIZE == 0 && va0 / PAGE_SIZE + size0 / PAGE_SIZE <= PAGES
    modifies Tables(pd)
    ensures DirOk(pd) && Removed(pd, va0 / PAGE_SIZE, size0 / PAGE_SIZE)
  {
    var va, size := va0, size0;
    ghost var p0, n0, m := va0 / PAGE_SIZE, size0 / PAGE_SIZE, 0;
    while size > 0
      invariant m <= n0 && size % PAGE_SIZE == 0 && size / PAGE_SIZE == n0 - m && va / PAGE_SIZE == p0 + m
      invariant Removed(pd, p0, m)
    {
      OnePageLess(size);
      UnmapPage(pd, va / PAGE_SIZE);
      NextPage(va);
      va, size := va + PAGE_SIZE, size - PAGE_SIZE;
      m := m + 1;
    }
  }

  /** vm_unmap_impl: exactly the bytes of the range lose their translation. */
  method Unmap(pd: array<Pde>, va: nat, size: nat)
    requires DirOk(pd) && va + size <= VA_LIMIT && size % PAGE_SIZE == 0 && va % PAGE_SIZE == 0
    modifies Tables(pd)
    ensures DirOk(pd)
    ensures forall a: Va :: Translate(pd, a) == if va <= a < va + size then Unmapped else old(Translate(pd, a))
  {
    PagesOf(va, size);
    UnmapLoop(pd, va, size);
    forall a: Va ensures Translate(pd, a) == if va <= a < va + size then Unmapped else old(Translate(pd, a)) {
      ByteInRange(va, size, a);
      var q: Page := a / PAGE_SIZE;
      assert FrameOf(pd, q) == if va / PAGE_SIZE <= q < va / PAGE_SIZE + size / PAGE_SIZE then Unmapped else old(FrameOf(pd, q));
    }
  }
}
