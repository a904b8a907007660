/** Copying one region of memory to another through the copy window (arch/x86/mm.c:632-709),
    and what it makes of the image of a forked child (kernel/core/sched.c:410-416).  Physical
    memory is an array of bytes. */
module AddressCopy {
  import opened Paging
  import opened AddressSpaces

  const COPY_SRC_VA := 0xFF00_0000
  const COPY_DST_VA := 0xFF00_1000
  /** The places of the two pages in the window's table. */
  const SRC_PTE := 0
  const DST_PTE := 1
  const COPY_WINDOW_MAX_BYTES := 0x40_0000

  /** The directory in use has the window. */
  ghost predicate SeesWindow(active: array<Pde>, copyPt: array<Pte>)
    reads active
  {
    DirOk(active) && copyPt.Length == ENTRIES && active[COPY_PDE].present && active[COPY_PDE].table == copyPt
  }

  /** k_memcpy between the two pages of the window, byte for byte through the directory in
      use.  No byte of it is outside the pages. */
  method CopyThroughWindow(active: array<Pde>, copyPt: array<Pte>, mem: array<nat>, dstOff: nat, srcOff: nat, n: nat)
    requires SeesWindow(active, copyPt) && dstOff + n <= PAGE_SIZE && srcOff + n <= PAGE_SIZE
    requires copyPt[SRC_PTE].present && copyPt[DST_PTE].present
    requires copyPt[SRC_PTE].frame * PAGE_SIZE + srcOff + n <= mem.Length
    requires copyPt[DST_PTE].frame * PAGE_SIZE + dstOff + n <= mem.Length
    requires var s, d := copyPt[SRC_PTE].frame * PAGE_SIZE + srcOff, copyPt[DST_PTE].frame * PAGE_SIZE + dstOff;
      s + n <= d || d + n <= s
    modifies mem
    ensures var s, d := copyPt[SRC_PTE].frame * PAGE_SIZE + srcOff, copyPt[DST_PTE].frame * PAGE_SIZE + dstOff;
      forall x :: 0 <= x < mem.Length ==> mem[x] == if d <= x < d + n then old(mem[x - d + s]) else old(mem[x])
  {
    ghost var s, d := copyPt[SRC_PTE].frame * PAGE_SIZE + srcOff, copyPt[DST_PTE].frame * PAGE_SIZE + dstOff;
    for i := 0 to n
      invariant forall x :: 0 <= x < mem.Length ==> mem[x] == if d <= x < d + i then old(mem[x - d + s]) else old(mem[x])
    {
      var from := VaToPa(active, COPY_SRC_VA + srcOff + i);
      var to := VaToPa(active, COPY_DST_VA + dstOff + i);
      assert from == Mapped(s + i) && to == Mapped(d + i);
      mem[to.at] := mem[from.at];
    }
  }

  /** The window is closed. */
  predicate Disarmed(copyPt: array<Pte>)
    requires copyPt.Length == ENTRIES
    reads copyPt
  {
    !copyPt[SRC_PTE].present && !copyPt[DST_PTE].present
  }

  /** One chunk: open the window on the two pages, copy, close it again. */
  method CopyChunk(active: array<Pde>, copyPt: array<Pte>, mem: array<nat>, srcPa: nat, dstPa: nat, srcOff: nat, dstOff: nat, n: nat)
    requires SeesWindow(active, copyPt) && srcPa % PAGE_SIZE == 0 && dstPa % PAGE_SIZE == 0
    requires dstOff + n <= PAGE_SIZE && srcOff + n <= PAGE_SIZE
    requires srcPa + srcOff + n <= mem.Length && dstPa + dstOff + n <= mem.Length
    requires srcPa + srcOff + n <= dstPa + dstOff || dstPa + dstOff + n <= srcPa + srcOff
    modifies copyPt, mem
    ensures Disarmed(copyPt) && forall i :: 0 <= i < ENTRIES && i != SRC_PTE && i != DST_PTE ==> copyPt[i] == old(copyPt[i])
    ensures Moved(old(mem[..]), mem[..], srcPa + srcOff, dstPa + dstOff, n)
  {
    copyPt[SRC_PTE] := Pte(true, false, false, srcPa / PAGE_SIZE);
    copyPt[DST_PTE] := Pte(true, true, false, dstPa / PAGE_SIZE);
    CopyThroughWindow(active, copyPt, mem, dstOff, srcOff, n);
    copyPt[SRC_PTE] := copyPt[SRC_PTE].(present := false);
    copyPt[DST_PTE] := copyPt[DST_PTE].(present := false);
  }

  /** `n` bytes from `va` on are addresses that are not translated by the window's table. */
  ghost predicate OutsideWindow(pd: array<Pde>, copyPt: array<Pte>, va: nat, n: nat)
    reads pd
  {
    DirOk(pd) && va + n <= VA_LIMIT && forall a :: va <= a < va + n ==> pd[a / PAGE_SIZE / ENTRIES].table != copyPt
  }

  /** The physical place of a byte, or -1. */
  function PlaceOf(t: Translation): int {
    if t.Unmapped? then -1 else t.at
  }

  /** The physical places of `n` bytes from `va` on. */
  ghost function Places(pd: array<Pde>, va: nat, n: nat): (r: seq<int>)
    requires DirOk(pd) && va + n <= VA_LIMIT
    reads pd, Tables(pd)
    ensures |r| == n && forall k {:trigger r[k]} :: 0 <= k < n ==> r[k] == PlaceOf(Translate(pd, va + k))
  {
    if n == 0 then [] else Places(pd, va, n - 1) + [PlaceOf(Translate(pd, va + (n - 1)))]
  }

  ghost predicate AllMapped(ps: seq<int>) {
    forall k :: 0 <= k < |ps| ==> ps[k] >= 0
  }

  /** A source and a destination that a copy can be made between: all their places are in
      memory, no place is in both, and no place is twice in the destination. */
  ghost predicate Apart(src: seq<int>, dst: seq<int>, size: nat) {
    && |src| == |dst|
    && (forall k :: 0 <= k < |src| ==> src[k] < size && dst[k] < size)
    && (forall j, k :: 0 <= j < |dst| && 0 <= k < |src| && dst[j] >= 0 ==> dst[j] != src[k])
    && (forall j, k :: 0 <= j < k < |dst| && dst[j] >= 0 ==> dst[j] != dst[k])
  }

  /** The first `n` bytes have been copied, and nothing else has changed. */
  ghost predicate Copied(was: seq<nat>, mem: seq<nat>, src: seq<int>, dst: seq<int>, n: nat)
    requires |was| == |mem| && Apart(src, dst, |mem|) && n <= |src|
  {
    && (forall k :: 0 <= k < n ==> src[k] >= 0 && dst[k] >= 0 && mem[dst[k]] == was[src[k]])
    && (forall x :: 0 <= x < |mem| && (forall k :: 0 <= k < n ==> dst[k] != x) ==> mem[x] == was[x])
  }

  /** Bytes of one page lie one behind the other. */
  lemma SamePage(pd: array<Pde>, va: nat, off: nat, k: nat)
    requires DirOk(pd) && va % PAGE_SIZE == 0 && off + k < PAGE_SIZE && va + PAGE_SIZE <= VA_LIMIT
    ensures Translate(pd, va).Mapped? ==>
      Translate(pd, va + off + k) == Mapped(Translate(pd, va).at + off + k) && Translate(pd, va).at % PAGE_SIZE == 0
    ensures Translate(pd, va).Unmapped? ==> Translate(pd, va + off + k).Unmapped?
  {
    assert (va + off + k) / PAGE_SIZE == va / PAGE_SIZE;
  }

  /** `n` bytes have moved from `s` to `d`, and nothing else has changed. */
  ghost predicate Moved(was: seq<nat>, mem: seq<nat>, s: nat, d: nat, n: nat)
    requires |was| == |mem| && s + n <= |mem| && d + n <= |mem|
  {
    && (forall x {:trigger mem[x]} :: d <= x < d + n ==> mem[x] == was[x - d + s])
    && (forall x {:trigger mem[x]} :: 0 <= x < |mem| && !(d <= x < d + n) ==> mem[x] == was[x])
  }

  /** `n` places in a row. */
  ghost predicate IsRow(ps: seq<int>, o: nat, n: nat)
    requires 0 < n && o + n <= |ps|
  {
    ps[o] >= 0 && forall j {:trigger ps[j]} :: o <= j < o + n ==> ps[j] == ps[o] + (j - o)
  }

  /** A place that is none of a row of places lies outside the row. */
  lemma {:induction false} OutsideRow(ps: seq<int>, o: nat, n: nat, x: int)
    requires n > 0 && o + n <= |ps| && IsRow(ps, o, n)
    requires forall j :: o <= j < o + n ==> ps[j] != x
    ensures !(ps[o] <= x < ps[o] + n)
    decreases n
  {
    if n > 1 {
      OutsideRow(ps, o, n - 1, x);
      assert ps[o + n - 1] == ps[o] + (n - 1);
    }
  }

  lemma RowsApart(src: seq<int>, dst: seq<int>, size: nat, o: nat, n: nat)
    requires n > 0 && Apart(src, dst, size) && o + n <= |src| && IsRow(src, o, n) && IsRow(dst, o, n)
    ensures src[o] + n <= size && dst[o] + n <= size
    ensures src[o] + n <= dst[o] || dst[o] + n <= src[o]
  {
    OutsideRow(src, o, n, dst[o]);
    OutsideRow(dst, o, n, src[o]);
    assert src[o + n - 1] == src[o] + (n - 1) && dst[o + n - 1] == dst[o] + (n - 1);
  }

  /** A chunk that copies bytes `o` to `o + n` extends what has been copied. */
  lemma CopiedMore(was: seq<nat>, mid: seq<nat>, mem: seq<nat>, src: seq<int>, dst: seq<int>, o: nat, n: nat)
    requires |was| == |mid| == |mem| && Apart(src, dst, |mem|) && o + n <= |src| && Copied(was, mid, src, dst, o)
    requires n > 0 && IsRow(src, o, n) && IsRow(dst, o, n)
    requires src[o] + n <= |mem| && dst[o] + n <= |mem| && Moved(mid, mem, src[o], dst[o], n)
    ensures Copied(was, mem, src, dst, o + n)
  {
    forall k | 0 <= k < o + n ensures src[k] >= 0 && dst[k] >= 0 && mem[dst[k]] == was[src[k]] {
      if k < o {
        OutsideRow(dst, o, n, dst[k]);
      } else {
        var s := src[k];
        assert forall i :: 0 <= i < o ==> dst[i] != s;
        assert mid[s] == was[s];
      }
    }
    forall x | 0 <= x < |mem| && (forall k :: 0 <= k < o + n ==> dst[k] != x) ensures mem[x] == was[x] {
      OutsideRow(dst, o, n, x);
    }
  }

  /** The address of the page that byte `a` is in. */
  function PageStart(a: nat): (p: nat)
    ensures p % PAGE_SIZE == 0 && p <= a < p + PAGE_SIZE && a == p + a % PAGE_SIZE
  {
    a - a % PAGE_SIZE
  }

  /** A chunk within one page: all its bytes have places in a row, or none has a place. */
  lemma ChunkPlaces(pd: array<Pde>, va: nat, n: nat, o: nat, c: nat)
    requires DirOk(pd) && va + n <= VA_LIMIT && 0 < c && o + c <= n && (va + o) % PAGE_SIZE + c <= PAGE_SIZE
    ensures var page, ps := PageStart(va + o), Places(pd, va, n);
      && page + PAGE_SIZE <= VA_LIMIT
      && (Translate(pd, page).Mapped? ==>
            IsRow(ps, o, c) && Translate(pd, page).at % PAGE_SIZE == 0 && ps[o] == Translate(pd, page).at + (va + o) % PAGE_SIZE)
      && (Translate(pd, page).Unmapped? ==> ps[o] == -1)
  {
    var page, off, ps := PageStart(va + o), (va + o) % PAGE_SIZE, Places(pd, va, n);
    PageFits(va + o);
    SamePage(pd, page, off, 0);
    assert ps[o] == PlaceOf(Translate(pd, va + o));
    if Translate(pd, page).Mapped? {
      forall j {:trigger ps[j]} | o <= j < o + c ensures ps[j] == Translate(pd, page).at + off + (j - o) {
        SamePage(pd, page, off, j - o);
        assert page + off + (j - o) == va + j;
      }
    }
  }

  lemma PageFits(a: nat)
    requires a < VA_LIMIT
    ensures PageStart(a) + PAGE_SIZE <= VA_LIMIT
  {
  }

  /** How much can be copied at once without leaving either page. */
  function ChunkSize(srcVa: nat, dstVa: nat, remain: nat): (c: nat)
    requires remain > 0
    ensures 0 < c <= remain && srcVa % PAGE_SIZE + c <= PAGE_SIZE && dstVa % PAGE_SIZE + c <= PAGE_SIZE
  {
    var chunk, tmp := PAGE_SIZE - srcVa % PAGE_SIZE, PAGE_SIZE - dstVa % PAGE_SIZE;
    var least := if tmp < chunk then tmp else chunk;
    if remain < least then remain else least
  }

  /** Nothing but the window's two entries has changed in its table. */
  twostate predicate OnlyWindow(copyPt: array<Pte>)
    requires copyPt.Length == ENTRIES
    reads copyPt
  {
    forall i :: 0 <= i < ENTRIES && i != SRC_PTE && i != DST_PTE ==> copyPt[i] == old(copyPt[i])
  }

  /** What happens to the window and to memory leaves the places of a region alone. */
  twostate lemma PlacesKept(r: (array<Pde>, nat, nat, array<Pte>))
    requires old(OutsideWindow(r.0, r.3, r.1, r.2)) && unchanged(r.0)
    requires forall t :: t in old(Tables(r.0)) && t != r.3 ==> unchanged(t)
    ensures OutsideWindow(r.0, r.3, r.1, r.2) && Places(r.0, r.1, r.2) == old(Places(r.0, r.1, r.2))
  {
    var ps, was := Places(r.0, r.1, r.2), old(Places(r.0, r.1, r.2));
    forall k | 0 <= k < r.2 ensures ps[k] == was[k] {
      var i := (r.1 + k) / PAGE_SIZE / ENTRIES;
      assert r.0[i].table != r.3;
      assert r.0[i].table != null ==> r.0[i].table in old(Tables(r.0));
      assert Translate(r.0, r.1 + k) == old(Translate(r.0, r.1 + k));
    }
  }

  /** A chunk whose places are rows. */
  method CopyRow(active: array<Pde>, copyPt: array<Pte>, mem: array<nat>, srcPa: nat, dstPa: nat, srcOff: nat, dstOff: nat, chunk: nat,
                 ghost was: seq<nat>, ghost ss: seq<int>, ghost ds: seq<int>, ghost o: nat)
    requires SeesWindow(active, copyPt) && srcPa % PAGE_SIZE == 0 && dstPa % PAGE_SIZE == 0
    requires 0 < chunk && dstOff + chunk <= PAGE_SIZE && srcOff + chunk <= PAGE_SIZE
    requires |was| == mem.Length && Apart(ss, ds, mem.Length) && o + chunk <= |ss| && Copied(was, mem[..], ss, ds, o)
    requires IsRow(ss, o, chunk) && ss[o] == srcPa + srcOff && IsRow(ds, o, chunk) && ds[o] == dstPa + dstOff
    modifies copyPt, mem
    ensures Disarmed(copyPt) && OnlyWindow(copyPt) && Copied(was, mem[..], ss, ds, o + chunk)
  {
    RowsApart(ss, ds, mem.Length, o, chunk);
    CopyChunk(active, copyPt, mem, srcPa, dstPa, srcOff, dstOff, chunk);
    CopiedMore(was, old(mem[..]), mem[..], ss, ds, o, chunk);
  }

  /** A region that is seen through no window, and the places of its bytes. */
  ghost predicate Region(pd: array<Pde>, va: nat, ps: seq<int>, copyPt: array<Pte>)
    reads pd, if DirOk(pd) then Tables(pd) else {}
  {
    OutsideWindow(pd, copyPt, va, |ps|) && ps == Places(pd, va, |ps|)
  }

  twostate lemma RegionKept(r: (array<Pde>, nat, seq<int>, array<Pte>))
    requires old(Region(r.0, r.1, r.2, r.3)) && unchanged(r.0)
    requires forall t :: t in old(Tables(r.0)) && t != r.3 ==> unchanged(t)
    ensures Region(r.0, r.1, r.2, r.3)
  {
    PlacesKept((r.0, r.1, |r.2|, r.3));
  }

  /** What the translation `t` of its page says about a chunk of the places `ps`. */
  ghost predicate ChunkIs(t: Translation, ps: seq<int>, o: nat, chunk: nat, off: nat)
    requires 0 < chunk && o + chunk <= |ps|
  {
    if t.Unmapped? then ps[o] == -1
    else t.at % PAGE_SIZE == 0 && IsRow(ps, o, chunk) && ps[o] == t.at + off
  }

  /** The two pages of a chunk. */
  method FindPages(dest: array<Pde>, dva: nat, src: array<Pde>, sva: nat, o: nat, chunk: nat, ghost ss: seq<int>, ghost ds: seq<int>)
    returns (s: Translation, d: Translation)
    requires DirOk(src) && DirOk(dest) && sva + |ss| <= VA_LIMIT && dva + |ds| <= VA_LIMIT
    requires ss == Places(src, sva, |ss|) && ds == Places(dest, dva, |ds|) && 0 < chunk && o + chunk <= |ss| == |ds|
    requires (sva + o) % PAGE_SIZE + chunk <= PAGE_SIZE && (dva + o) % PAGE_SIZE + chunk <= PAGE_SIZE
    ensures ChunkIs(s, ss, o, chunk, (sva + o) % PAGE_SIZE)
    ensures s.Mapped? ==> ChunkIs(d, ds, o, chunk, (dva + o) % PAGE_SIZE)
  {
    ChunkPlaces(src, sva, |ss|, o, chunk);
    ChunkPlaces(dest, dva, |ds|, o, chunk);
    s := VaToPa(src, PageStart(sva + o));
    d := Unmapped;
    if s.Mapped? {
      d := VaToPa(dest, PageStart(dva + o));
    }
  }

  /** One turn of the loop of mm_copy_vma: `ok` is false when it panics. */
  method CopyNext(active: array<Pde>, copyPt: array<Pte>, dest: array<Pde>, dva: nat, src: array<Pde>, sva: nat, n: nat, o: nat,
                  mem: array<nat>, ghost was: seq<nat>, ghost ss: seq<int>, ghost ds: seq<int>)
    returns (ok: bool, chunk: nat)
    requires SeesWindow(active, copyPt) && Disarmed(copyPt) && o < n == |ss| == |ds|
    requires Region(dest, dva, ds, copyPt) && Region(src, sva, ss, copyPt) && Apart(ss, ds, mem.Length)
    requires |was| == mem.Length && Copied(was, mem[..], ss, ds, o)
    modifies copyPt, mem
    ensures Disarmed(copyPt) && OnlyWindow(copyPt)
    ensures Region(dest, dva, ds, copyPt) && Region(src, sva, ss, copyPt)
    ensures !ok ==> ss[o] == -1 || ds[o] == -1
    ensures ok ==> 0 < chunk <= n - o && Copied(was, mem[..], ss, ds, o + chunk)
  {
    var srcVa, dstVa := sva + o, dva + o;
    chunk := ChunkSize(srcVa, dstVa, n - o);
    var srcPa, dstPa := FindPages(dest, dva, src, sva, o, chunk, ss, ds);
    ok := srcPa.Mapped? && dstPa.Mapped?;
    if ok {
      CopyRow(active, copyPt, mem, srcPa.at, dstPa.at, srcVa % PAGE_SIZE, dstVa % PAGE_SIZE, chunk, was, ss, ds, o);
    }
    RegionKept((src, sva, ss, copyPt));
    RegionKept((dest, dva, ds, copyPt));
  }

  /** mm_copy_vma, where false stands for a panic: it goes through exactly when the window is
      there, the length is within its bounds and every byte is mapped on both sides, and then
      it is one copy of the region's bytes, with the window closed again. */
  method CopyVma(active: array<Pde>, copyPt: array?<Pte>, dest: array<Pde>, destVma: Vma, src: array<Pde>, srcVma: Vma, length: nat,
                 mem: array<nat>, ghost ss: seq<int>, ghost ds: seq<int>)
    returns (ok: bool)
    requires copyPt != null ==> SeesWindow(active, copyPt) && Disarmed(copyPt)
    requires copyPt != null && length <= srcVma.length && length <= destVma.length ==>
      && |ss| == |ds| == length && Region(dest, destVma.va, ds, copyPt) && Region(src, srcVma.va, ss, copyPt)
      && Apart(ss, ds, mem.Length)
    modifies copyPt, mem
    ensures copyPt != null ==> Disarmed(copyPt) && OnlyWindow(copyPt)
    ensures ok <==> copyPt != null && length <= COPY_WINDOW_MAX_BYTES && length <= srcVma.length && length <= destVma.length
                    && AllMapped(ss) && AllMapped(ds)
    ensures ok ==> Copied(old(mem[..]), mem[..], ss, ds, length)
  {
    if copyPt == null || length > COPY_WINDOW_MAX_BYTES || length > srcVma.length || length > destVma.length {
      return false;
    }
    var offset := 0;
    while offset < length
      invariant offset <= length && Disarmed(copyPt) && OnlyWindow(copyPt)
      invariant Region(dest, destVma.va, ds, copyPt) && Region(src, srcVma.va, ss, copyPt)
      invariant Copied(old(mem[..]), mem[..], ss, ds, offset)
      decreases length - offset
    {
      var through, chunk := CopyNext(active, copyPt, dest, destVma.va, src, srcVma.va, length, offset, mem, old(mem[..]), ss, ds);
      if !through {
        return false;
      }
      offset := offset + chunk;
    }
    return true;
  }

  // ---------------- fork ----------------

  /** Where the image of task slot `t` lies. */
  function ImageStart(t: nat): nat {
    PROCESS_PA_START + t * PROCESS_VA_SIZE
  }

  /** The places of the image of slot `t`; the last slot has none. */
  ghost predicate IsImage(ps: seq<int>, t: nat) {
    && |ps| == PROCESS_VA_SIZE
    && forall k {:trigger ps[k]} :: 0 <= k < PROCESS_VA_SIZE ==> ps[k] == if t < MAX_PROCESS_CNT - 1 then ImageStart(t) + k else -1
  }

  lemma UserPlaces(m: Memory, mm: Mm, t: nat)
    requires m.SlotOk(mm, t) && t < MAX_PROCESS_CNT
    ensures IsImage(Places(mm.pd, PROCESS_VA_BASE, PROCESS_VA_SIZE), t)
  {
    var ps := Places(mm.pd, PROCESS_VA_BASE, PROCESS_VA_SIZE);
    forall k {:trigger ps[k]} | 0 <= k < PROCESS_VA_SIZE ensures ps[k] == if t < MAX_PROCESS_CNT - 1 then ImageStart(t) + k else -1 {
      assert ps[k] == PlaceOf(Translate(mm.pd, PROCESS_VA_BASE + k));
    }
  }

  lemma ImageMapped(ps: seq<int>, t: nat)
    requires IsImage(ps, t)
    ensures AllMapped(ps) <==> t < MAX_PROCESS_CNT - 1
  {
    assert ps[0] == if t < MAX_PROCESS_CNT - 1 then ImageStart(t) else -1;
  }

  lemma UserOutsideWindow(m: Memory, mm: Mm, t: nat)
    requires m.SlotOk(mm, t) && m.WindowOk()
    ensures OutsideWindow(mm.pd, m.copyPt, PROCESS_VA_BASE, PROCESS_VA_SIZE) && SeesWindow(mm.pd, m.copyPt)
  {
    assert mm.pd[COPY_PDE] == m.kernel.pd[COPY_PDE];
    forall a | PROCESS_VA_BASE <= a < PROCESS_VA_BASE + PROCESS_VA_SIZE ensures mm.pd[a / PAGE_SIZE / ENTRIES].table != m.copyPt {
      assert a / PAGE_SIZE / ENTRIES == USER_PDE;
    }
  }

  lemma ImagesApart(ss: seq<int>, ds: seq<int>, t: nat, u: nat, size: nat)
    requires t != u && t < MAX_PROCESS_CNT && u < MAX_PROCESS_CNT && IsImage(ss, t) && IsImage(ds, u)
    requires size >= ImageStart(MAX_PROCESS_CNT)
    ensures Apart(ss, ds, size)
  {
  }

  /** The image of slot `u` has become that of slot `t`. */
  lemma ImageCopied(was: seq<nat>, mem: seq<nat>, ss: seq<int>, ds: seq<int>, t: nat, u: nat)
    requires t != u && t < MAX_PROCESS_CNT - 1 && u < MAX_PROCESS_CNT - 1 && IsImage(ss, t) && IsImage(ds, u)
    requires |was| == |mem| >= ImageStart(MAX_PROCESS_CNT) && Apart(ss, ds, |mem|) && Copied(was, mem, ss, ds, PROCESS_VA_SIZE)
    ensures forall x {:trigger mem[x]} :: 0 <= x < |mem| && !(ImageStart(u) <= x < ImageStart(u) + PROCESS_VA_SIZE) ==> mem[x] == was[x]
    ensures mem[ImageStart(u)..ImageStart(u) + PROCESS_VA_SIZE] == mem[ImageStart(t)..ImageStart(t) + PROCESS_VA_SIZE]
  {
    var from, to := ImageStart(t), ImageStart(u);
    forall x {:trigger mem[x]} | 0 <= x < |mem| && !(to <= x < to + PROCESS_VA_SIZE) ensures mem[x] == was[x] {
      assert forall k :: 0 <= k < PROCESS_VA_SIZE ==> ds[k] != x;
    }
    var a, b := mem[to..to + PROCESS_VA_SIZE], mem[from..from + PROCESS_VA_SIZE];
    forall k | 0 <= k < PROCESS_VA_SIZE ensures a[k] == b[k] {
      assert mem[ds[k]] == was[ss[k]];
      assert b[k] == mem[from + k] == was[from + k];
    }
  }

  /** The region of the user image of slot `t`. */
  function UserVma(t: nat): Vma {
    Vma(ProcessVma, PROCESS_VA_BASE, ImageStart(t), PROCESS_VA_SIZE)
  }

  /** mm_copy_vma of the user image of one slot to another. */
  method CopyUserVma(m: Memory, parent: Mm, pv: Vma, t: nat, child: Mm, cv: Vma, u: nat, mem: array<nat>) returns (ok: bool)
    requires pv == UserVma(t) && cv == UserVma(u)
    requires m.WindowOk() && Disarmed(m.copyPt) && t < MAX_PROCESS_CNT && u < MAX_PROCESS_CNT && t != u
    requires m.SlotOk(parent, t) && m.SlotOk(child, u) && mem.Length >= ImageStart(MAX_PROCESS_CNT)
    modifies m.copyPt, mem
    ensures Disarmed(m.copyPt) && ok == (t < MAX_PROCESS_CNT - 1 && u < MAX_PROCESS_CNT - 1)
    ensures ok ==> mem[ImageStart(u)..ImageStart(u) + PROCESS_VA_SIZE] == mem[ImageStart(t)..ImageStart(t) + PROCESS_VA_SIZE]
    ensures ok ==> forall x :: 0 <= x < mem.Length && !(ImageStart(u) <= x < ImageStart(u) + PROCESS_VA_SIZE) ==> mem[x] == old(mem[x])
  {
    ghost var ss, ds := Places(parent.pd, PROCESS_VA_BASE, PROCESS_VA_SIZE), Places(child.pd, PROCESS_VA_BASE, PROCESS_VA_SIZE);
    UserPlaces(m, parent, t);
    UserPlaces(m, child, u);
    UserOutsideWindow(m, parent, t);
    UserOutsideWindow(m, child, u);
    ImagesApart(ss, ds, t, u, mem.Length);
    ImageMapped(ss, t);
    ImageMapped(ds, u);
    ok := CopyVma(parent.pd, m.copyPt, child.pd, cv, parent.pd, pv, pv.length, mem, ss, ds);
    if ok {
      ImageCopied(old(mem[..]), mem[..], ss, ds, t, u);
      assert mem[..][ImageStart(u)..ImageStart(u) + PROCESS_VA_SIZE] == mem[ImageStart(u)..ImageStart(u) + PROCESS_VA_SIZE];
      assert mem[..][ImageStart(t)..ImageStart(t) + PROCESS_VA_SIZE] == mem[ImageStart(t)..ImageStart(t) + PROCESS_VA_SIZE];
    }
  }

  twostate lemma SlotKept(slot: (Memory, Mm, nat))
    requires old(slot.0.SlotOk(slot.1, slot.2))
    requires unchanged(slot.0, slot.0.kernel, slot.0.kernel.pd, slot.1, slot.1.pd)
    requires unchanged(Tables(slot.1.pd), Tables(slot.0.kernel.pd))
    ensures slot.0.SlotOk(slot.1, slot.2)
  {
  }

  method FindUserVma(m: Memory, mm: Mm, t: nat) returns (v: Vma)
    requires m.SlotOk(mm, t)
    ensures v == UserVma(t)
  {
    assert mm.vmas[0] == UserVma(t);
    var i := FindVma(mm, ProcessVma);
    return mm.vmas[i];
  }

  /** The copy that sched_fork makes: it panics exactly when one of the two slots is the one
      without a mapping, and otherwise the child's image equals its parent's, which has not
      changed, and neither has any other memory. */
  method CopyImage(m: Memory, parent: Mm, t: nat, child: Mm, u: nat, mem: array<nat>) returns (ok: bool)
    requires m.WindowOk() && Disarmed(m.copyPt) && t < MAX_PROCESS_CNT && u < MAX_PROCESS_CNT && t != u
    requires m.SlotOk(parent, t) && m.SlotOk(child, u) && mem.Length >= ImageStart(MAX_PROCESS_CNT)
    modifies m.copyPt, mem
    ensures Disarmed(m.copyPt) && ok == (t < MAX_PROCESS_CNT - 1 && u < MAX_PROCESS_CNT - 1)
    ensures ok ==> mem[ImageStart(u)..ImageStart(u) + PROCESS_VA_SIZE] == mem[ImageStart(t)..ImageStart(t) + PROCESS_VA_SIZE]
    ensures ok ==> forall x :: 0 <= x < mem.Length && !(ImageStart(u) <= x < ImageStart(u) + PROCESS_VA_SIZE) ==> mem[x] == old(mem[x])
  {
    var pv := FindUserVma(m, parent, t);
    SlotKept((m, child, u));
    var cv := FindUserVma(m, child, u);
    SlotKept((m, parent, t));
    SlotKept((m, child, u));
    ok := CopyUserVma(m, parent, pv, t, child, cv, u, mem);
  }
}
