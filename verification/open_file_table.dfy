/** The open-file table of the kernel (fs/vfs.c, fs/files.c) as a value: the FIFO of
    free file indices and the descriptors of all task slots. */
module OpenFileTable {
  import opened Seqs

  const MAX_PROCESS_CNT := 64
  const MAX_FILE_CNT := 1024
  const RLIMIT_NOFILE := 16

  /** Task `t` owns the sixteen places from `16 * t` on; a place holds the index of an
      open file, or -1. */
  datatype Table = Table(free: seq<nat>, places: seq<int>)

  type FileTable = f: Table | |f.places| == MAX_PROCESS_CNT * RLIMIT_NOFILE
    witness Table([], seq(MAX_PROCESS_CNT * RLIMIT_NOFILE, _ => -1))

  type TaskSlot = t: nat | t < MAX_PROCESS_CNT
  type Descriptor = fd: nat | fd < RLIMIT_NOFILE

  function Initial(): FileTable {
    Table(seq(MAX_FILE_CNT, i => i), seq(MAX_PROCESS_CNT * RLIMIT_NOFILE, _ => -1))
  }

  function Place(t: TaskSlot, fd: Descriptor): nat {
    RLIMIT_NOFILE * t + fd
  }

  function FileOf(f: FileTable, t: TaskSlot, fd: Descriptor): int {
    f.places[Place(t, fd)]
  }

  function SetFile(f: FileTable, t: TaskSlot, fd: Descriptor, file: int): FileTable {
    f.(places := f.places[Place(t, fd) := file])
  }

  /** The lowest empty descriptor of `t` at or above `fd`, or -1. */
  function LowestFree(f: FileTable, t: TaskSlot, fd: nat): (r: int)
    requires fd <= RLIMIT_NOFILE
    ensures r == -1 <==> forall i: Descriptor :: fd <= i ==> FileOf(f, t, i) != -1
    ensures r != -1 ==> fd <= r < RLIMIT_NOFILE && FileOf(f, t, r) == -1
    ensures r != -1 ==> forall i: Descriptor :: fd <= i < r ==> FileOf(f, t, i) != -1
    decreases RLIMIT_NOFILE - fd, t
  {
    if fd == RLIMIT_NOFILE then -1 else if FileOf(f, t, fd) == -1 then fd else LowestFree(f, t, fd + 1)
  }

  /** The file system's part of an open, which the model takes as an input. */
  datatype Lookup = NoFileSystem | Refused | Granted

  /** vfs_open: the new table and the descriptor, or -1. */
  function Open(f: FileTable, t: TaskSlot, lookup: Lookup): (FileTable, int) {
    if lookup == NoFileSystem || f.free == [] then (f, -1)
    else
      var file := f.free[0];
      var fd := LowestFree(f, t, 0);
      if fd == -1 || lookup == Refused then (f.(free := f.free[1..] + [file]), -1)
      else (SetFile(f.(free := f.free[1..]), t, fd, file), fd)
  }

  /** vfs_close: the new table and 0, or -1. */
  function Close(f: FileTable, t: TaskSlot, fd: int): (FileTable, int) {
    if fd < 0 || fd >= RLIMIT_NOFILE || FileOf(f, t, fd) < 0 then (f, -1)
    else (SetFile(f.(free := f.free + [FileOf(f, t, fd)]), t, fd, -1), 0)
  }

  /** The loop of sched_exit over all descriptors, from `fd` on. */
  function CloseFrom(f: FileTable, t: TaskSlot, fd: nat): FileTable
    requires fd <= RLIMIT_NOFILE
    decreases RLIMIT_NOFILE - fd, t
  {
    if fd == RLIMIT_NOFILE then f else CloseFrom(Close(f, t, fd).0, t, fd + 1)
  }

  /** The free ring and the files held in places partition the 1024 files, and no two
      places hold the same file. */
  ghost predicate Partition(f: FileTable) {
    && Distinct(f.free)
    && (forall i :: 0 <= i < |f.free| ==> f.free[i] < MAX_FILE_CNT)
    && (forall p :: 0 <= p < |f.places| ==> -1 <= f.places[p] < MAX_FILE_CNT)
    && (forall p, i :: 0 <= p < |f.places| && 0 <= i < |f.free| ==> f.places[p] != f.free[i])
    && (forall p, q :: 0 <= p < q < |f.places| && f.places[p] == f.places[q] ==> f.places[p] == -1)
    && (forall x: nat :: x < MAX_FILE_CNT ==> x in f.free || x in f.places)
  }

  /** No descriptor of `t` is in use. */
  ghost predicate HoldsNone(f: FileTable, t: TaskSlot) {
    forall fd: Descriptor :: FileOf(f, t, fd) == -1
  }

  /** The descriptors of every task but `t` are the same in `f` and `g`. */
  ghost predicate OthersKept(f: FileTable, g: FileTable, t: TaskSlot) {
    forall u: TaskSlot, fd: Descriptor :: u != t ==> FileOf(g, u, fd) == FileOf(f, u, fd)
  }

  lemma InitialPartition()
    ensures Partition(Initial()) && forall t: TaskSlot :: HoldsNone(Initial(), t)
  {
    forall x: nat | x < MAX_FILE_CNT ensures x in Initial().free {
      assert Initial().free[x] == x;
    }
  }

  /** Writing one place and nothing else. */
  lemma SetFileEffect(f: FileTable, t: TaskSlot, fd: Descriptor, file: int)
    ensures var g := SetFile(f, t, fd, file);
      && OthersKept(f, g, t) && FileOf(g, t, fd) == file
      && forall i: Descriptor :: i != fd ==> FileOf(g, t, i) == FileOf(f, t, i)
  {
  }

  lemma SetThenEmptied(f: FileTable, t: TaskSlot, fd: Descriptor, file: int, free: seq<nat>, free': seq<nat>)
    requires FileOf(f, t, fd) == -1
    ensures SetFile(SetFile(f.(free := free), t, fd, file).(free := free'), t, fd, -1) == f.(free := free')
  {
    assert f.places[Place(t, fd) := file][Place(t, fd) := -1] == f.places;
  }

  /** Every outcome of an open, the failures included, keeps the partition and the other
      tasks' descriptors; success puts a free file into the lowest empty descriptor. */
  lemma OpenKeepsPartition(f: FileTable, t: TaskSlot, lookup: Lookup)
    requires Partition(f)
    ensures var (g, fd) := Open(f, t, lookup);
      && Partition(g) && OthersKept(f, g, t)
      && (fd == -1 ==> g.places == f.places)
      && (fd != -1 ==>
            && 0 <= fd < RLIMIT_NOFILE && FileOf(f, t, fd) == -1 && FileOf(g, t, fd) in f.free
            && forall i: Descriptor :: i < fd ==> FileOf(f, t, i) != -1)
  {
    var (g, fd) := Open(f, t, lookup);
    if g != f {
      var file, rest := f.free[0], f.free[1..];
      assert f.free == [file] + rest;
      if fd != -1 {
        SetFileEffect(f, t, fd, file);
        TakePlace(f, Place(t, fd));
      } else {
        assert forall i :: 0 <= i < |g.free| ==> g.free[i] in f.free;
      }
    }
  }

  /** Moving the oldest free file into an empty place. */
  lemma TakePlace(f: FileTable, p: nat)
    requires Partition(f) && f.free != [] && p < |f.places| && f.places[p] == -1
    ensures Partition(Table(f.free[1..], f.places[p := f.free[0]]))
  {
    var g := Table(f.free[1..], f.places[p := f.free[0]]);
    assert f.free == [f.free[0]] + g.free;
    forall x: nat | x < MAX_FILE_CNT ensures x in g.free || x in g.places {
      if x in f.places {
        var q :| 0 <= q < |f.places| && f.places[q] == x;
        assert g.places[q] == x;
      } else if x == f.free[0] {
        assert g.places[p] == x;
      }
    }
  }

  /** Moving the file in place `p` to the end of the ring. */
  lemma GivePlace(f: FileTable, p: nat)
    requires Partition(f) && p < |f.places| && f.places[p] >= 0
    ensures Partition(Table(f.free + [f.places[p]], f.places[p := -1]))
  {
    var g := Table(f.free + [f.places[p]], f.places[p := -1]);
    forall x: nat | x < MAX_FILE_CNT ensures x in g.free || x in g.places {
      if x in f.free {
        assert x in g.free;
      } else if x == f.places[p] {
        assert g.free[|f.free|] == x;
      } else {
        var q :| 0 <= q < |f.places| && f.places[q] == x;
        assert g.places[q] == x;
      }
    }
  }

  /** A close empties just the named descriptor, and fails just when it is empty. */
  lemma CloseKeepsPartition(f: FileTable, t: TaskSlot, fd: int)
    requires Partition(f)
    ensures var (g, r) := Close(f, t, fd);
      && Partition(g) && OthersKept(f, g, t)
      && (r == 0 <==> 0 <= fd < RLIMIT_NOFILE && FileOf(f, t, fd) != -1)
      && forall i: Descriptor :: FileOf(g, t, i) == if i == fd then -1 else FileOf(f, t, i)
  {
    if 0 <= fd < RLIMIT_NOFILE && FileOf(f, t, fd) >= 0 {
      SetFileEffect(f, t, fd, -1);
      GivePlace(f, Place(t, fd));
    }
  }

  /** The open and close of a chdir. */
  lemma OpenThenCloseKeepsPartition(f: FileTable, t: TaskSlot, lookup: Lookup)
    requires Partition(f)
    ensures var (mid, fd) := Open(f, t, lookup); var closed := Close(mid, t, fd).0;
      Partition(closed) && closed.places == f.places
  {
    var (mid, fd) := Open(f, t, lookup);
    OpenKeepsPartition(f, t, lookup);
    CloseKeepsPartition(mid, t, fd);
  }

  /** While a file is open the ring of free files has room. */
  lemma OpenMeansRoom(f: FileTable, t: TaskSlot, fd: Descriptor)
    requires Partition(f) && FileOf(f, t, fd) != -1
    ensures |f.free| < MAX_FILE_CNT
  {
    var x := FileOf(f, t, fd);
    var all := set i | 0 <= i < |f.free| :: f.free[i];
    SetOfDistinct(f.free);
    assert x !in all;
    AtMost(MAX_FILE_CNT, all + {x});
  }

  lemma {:induction false} SetOfDistinct(s: seq<nat>)
    requires Distinct(s)
    ensures |set i | 0 <= i < |s| :: s[i]| == |s|
  {
    if s != [] {
      var n := |s| - 1;
      var init := s[..n];
      SetOfDistinct(init);
      var part := set i | 0 <= i < n :: init[i];
      assert (set i | 0 <= i < |s| :: s[i]) == part + {s[n]} by {
        forall i | 0 <= i < n ensures s[i] in part {
          assert init[i] == s[i];
        }
      }
    }
  }

  /** Exit leaves its task without open files and takes nothing from the others. */
  lemma {:induction false} CloseFromKeepsPartition(f: FileTable, t: TaskSlot, fd: nat)
    requires Partition(f) && fd <= RLIMIT_NOFILE
    requires forall i: Descriptor :: i < fd ==> FileOf(f, t, i) == -1
    ensures var g := CloseFrom(f, t, fd); Partition(g) && HoldsNone(g, t) && OthersKept(f, g, t)
    decreases RLIMIT_NOFILE - fd, t
  {
    if fd < RLIMIT_NOFILE {
      CloseKeepsPartition(f, t, fd);
      CloseFromKeepsPartition(Close(f, t, fd).0, t, fd + 1);
    }
  }

  /** When nothing is free, the first `n` files sit in `n` different places. */
  lemma {:induction false} PlacesOf(f: FileTable, n: nat) returns (ps: set<nat>)
    requires Partition(f) && f.free == [] && n <= MAX_FILE_CNT
    ensures |ps| == n
    ensures forall p :: p in ps ==> p < |f.places| && 0 <= f.places[p] < n
  {
    if n == 0 {
      ps := {};
    } else {
      ps := PlacesOf(f, n - 1);
      var x: nat := n - 1;
      assert x in f.places;
      var p :| 0 <= p < |f.places| && f.places[p] == x;
      ps := ps + {p};
    }
  }

  /** A set of `n` numbers below `n` is all of them. */
  lemma {:induction false} FullRange(n: nat, ps: set<nat>)
    requires |ps| == n && forall p :: p in ps ==> p < n
    ensures forall k: nat :: k < n ==> k in ps
  {
    if n > 0 {
      if n - 1 in ps {
        var rest := ps - {n - 1};
        FullRange(n - 1, rest);
        assert forall k: nat :: k in rest ==> k in ps;
      } else {
        AtMost(n - 1, ps);
      }
    }
  }

  lemma {:induction false} AtMost(n: nat, ps: set<nat>)
    requires forall p :: p in ps ==> p < n
    ensures |ps| <= n
  {
    if n > 0 {
      AtMost(n - 1, ps - {n - 1});
    } else {
      assert ps == {};
    }
  }

  /** Pigeonhole: 64 tasks times 16 descriptors are exactly the 1024 files, so the ring
      runs dry only when every descriptor of every task is in use. */
  lemma EmptyRingMeansAllDescriptorsUsed(f: FileTable)
    requires Partition(f) && f.free == []
    ensures forall t: TaskSlot, fd: Descriptor :: FileOf(f, t, fd) != -1
  {
    var ps := PlacesOf(f, MAX_FILE_CNT);
    FullRange(MAX_FILE_CNT, ps);
    assert forall p: nat :: p < |f.places| ==> p in ps;
  }

  /** The outcomes of an open.  It gives a descriptor exactly when the file system grants it
      and the caller has one left, namely its lowest; a path without a file system changes
      nothing, and any other failure gives the file back: it puts it last in the ring. */
  lemma OpenOutcomes(f: FileTable, t: TaskSlot, lookup: Lookup)
    requires Partition(f)
    ensures var (g, fd) := Open(f, t, lookup);
      && (fd >= 0 <==> lookup == Granted && exists i: Descriptor :: FileOf(f, t, i) == -1)
      && (fd < 0 ==> fd == -1 && g.places == f.places)
      && (fd < 0 ==> g.free == if lookup == NoFileSystem || f.free == [] then f.free else f.free[1..] + [f.free[0]])
      && (fd < 0 ==> forall x :: x in g.free <==> x in f.free)
      && (lookup == NoFileSystem ==> g == f)
      && (fd >= 0 ==>
            && f.free != [] && FileOf(g, t, fd) == f.free[0] && g.free == f.free[1..]
            && FileOf(f, t, fd) == -1 && (forall i: Descriptor :: i < fd ==> FileOf(f, t, i) != -1)
            && OthersKept(f, g, t) && forall i: Descriptor :: i != fd ==> FileOf(g, t, i) == FileOf(f, t, i))
  {
    var (g, fd) := Open(f, t, lookup);
    if f.free == [] {
      EmptyRingMeansAllDescriptorsUsed(f);
    } else {
      assert f.free == [f.free[0]] + f.free[1..];
      if fd >= 0 {
        SetFileEffect(f, t, fd, f.free[0]);
      }
    }
  }

  /** A close gives the file of the descriptor back, as the last one of the ring, and 0; one
      of no open file gives -1 and changes nothing. */
  lemma CloseOutcomes(f: FileTable, t: TaskSlot, fd: int)
    requires Partition(f)
    ensures var (g, r) := Close(f, t, fd);
      if 0 <= fd < RLIMIT_NOFILE && FileOf(f, t, fd) != -1
      then
        && r == 0 && g.free == f.free + [FileOf(f, t, fd)] && FileOf(g, t, fd) == -1
        && OthersKept(f, g, t) && forall i: Descriptor :: i != fd ==> FileOf(g, t, i) == FileOf(f, t, i)
      else r == -1 && g == f
  {
    if 0 <= fd < RLIMIT_NOFILE && FileOf(f, t, fd) >= 0 {
      SetFileEffect(f, t, fd, -1);
    }
  }

  /** Opening and closing again leaves every descriptor as it was and the same files free. */
  lemma OpenThenCloseOutcomes(f: FileTable, t: TaskSlot, lookup: Lookup)
    requires Partition(f)
    ensures var (mid, fd) := Open(f, t, lookup);
      var closed := Close(mid, t, fd).0;
      && closed.places == f.places && (forall x :: x in closed.free <==> x in f.free)
      && (fd < 0 ==> fd == -1) && (fd >= 0 <==> lookup == Granted && exists i: Descriptor :: FileOf(f, t, i) == -1)
  {
    var (mid, fd) := Open(f, t, lookup);
    OpenOutcomes(f, t, lookup);
    OpenKeepsPartition(f, t, lookup);
    CloseOutcomes(mid, t, fd);
    var closed := Close(mid, t, fd).0;
    if fd >= 0 {
      forall p | 0 <= p < |f.places| ensures closed.places[p] == f.places[p] {
        assert p == Place(p / RLIMIT_NOFILE, p % RLIMIT_NOFILE);
        assert FileOf(closed, p / RLIMIT_NOFILE, p % RLIMIT_NOFILE) == FileOf(f, p / RLIMIT_NOFILE, p % RLIMIT_NOFILE);
      }
      assert f.free == [f.free[0]] + f.free[1..];
    }
  }

  /** vfs_open of a path that its file system grants fails exactly when the caller's own
      descriptors are all taken; the shared table is never the reason. */
  lemma OpenFailsOnlyOnOwnLimit(f: FileTable, t: TaskSlot)
    requires Partition(f)
    ensures Open(f, t, Granted).1 == -1 <==> forall fd: Descriptor :: FileOf(f, t, fd) != -1
  {
    if f.free == [] {
      EmptyRingMeansAllDescriptorsUsed(f);
    }
  }
}
