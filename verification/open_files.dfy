/** The open-file ring and the descriptor tables as the kernel updates them in place
    (fs/vfs.c:322-352, fs/vfs.c:440-522, fs/files.c), against the values of OpenFileTable. */
module OpenFiles {
  import opened Rings
  import opened OpenFileTable

  /** struct file: its fixed index and the descriptor it was opened under. */
  class FileStruct {
    const idx: nat
    var fd: int

    constructor (idx: nat)
      ensures this.idx == idx
    {
      this.idx := idx;
      fd := 0;
    }
  }

  class Vfs {
    const files: seq<FileStruct>
    /** `slots[t]` is the descriptor table of task slot `t`. */
    const slots: seq<array<FileStruct?>>
    const freeRing: array<nat>
    var freeHead: nat
    var freeTail: nat
    ghost var table: FileTable

    ghost predicate Shape()
      reads this
    {
      && |files| == MAX_FILE_CNT && (forall x {:trigger files[x]} :: 0 <= x < MAX_FILE_CNT ==> files[x].idx == x)
      && |slots| == MAX_PROCESS_CNT
      && (forall t: TaskSlot {:trigger slots[t]} :: slots[t].Length == RLIMIT_NOFILE && slots[t] != freeRing as object)
      && (forall t: TaskSlot, u: TaskSlot {:trigger slots[t], slots[u]} :: t != u ==> slots[t] != slots[u])
      && freeRing.Length == MAX_FILE_CNT
    }

    ghost predicate RingOk()
      requires Shape()
      reads this, freeRing
    {
      && freeHead < U32 && freeTail < U32
      && |table.free| <= MAX_FILE_CNT && Used(freeHead, freeTail) == |table.free|
      && (forall i {:trigger table.free[i]} :: 0 <= i < |table.free| ==>
            table.free[i] == freeRing[Index(freeHead, i, MAX_FILE_CNT)] && table.free[i] < MAX_FILE_CNT)
    }

    ghost predicate SlotsOk()
      requires Shape()
      reads this, slots
    {
      forall t: TaskSlot, fd: Descriptor {:trigger slots[t][fd]} {:trigger FileOf(table, t, fd)} ::
        -1 <= FileOf(table, t, fd) < MAX_FILE_CNT
        && slots[t][fd] == if FileOf(table, t, fd) == -1 then null else files[FileOf(table, t, fd)]
    }

    ghost predicate Valid()
      reads this, freeRing, slots
    {
      Shape() && RingOk() && SlotsOk()
    }

    /** The tables before any open. */
    constructor (files: seq<FileStruct>, slots: seq<array<FileStruct?>>)
      requires |files| == MAX_FILE_CNT && (forall x {:trigger files[x]} :: 0 <= x < MAX_FILE_CNT ==> files[x].idx == x)
      requires |slots| == MAX_PROCESS_CNT
      requires forall t: TaskSlot {:trigger slots[t]} :: slots[t].Length == RLIMIT_NOFILE && forall fd: Descriptor :: slots[t][fd] == null
      requires forall t: TaskSlot, u: TaskSlot {:trigger slots[t], slots[u]} :: t != u ==> slots[t] != slots[u]
      ensures Valid() && fresh(freeRing) && table == Initial()
    {
      this.files, this.slots := files, slots;
      freeRing := new nat[MAX_FILE_CNT](i => i);
      freeHead, freeTail, table := 0, MAX_FILE_CNT, Initial();
    }

    /** vfs_alloc_file. */
    method AllocFile() returns (file: FileStruct?)
      requires Valid()
      modifies this`freeHead, this`table
      ensures Valid()
      ensures old(table).free == [] ==> file == null && table == old(table)
      ensures old(table).free != [] ==>
        file == files[old(table).free[0]] && table == old(table).(free := old(table).free[1..])
    {
      if freeHead == freeTail {
        return null;
      }
      var fileIdx := freeRing[freeHead % MAX_FILE_CNT];
      assert fileIdx == table.free[0];
      file := files[fileIdx];
      HeadMoves(freeHead, freeTail, 1);
      ghost var headWas, freeWas := freeHead, table.free;
      freeHead := (freeHead + 1) % U32;
      table := table.(free := freeWas[1..]);
      forall i | 0 <= i < |table.free|
        ensures table.free[i] == freeRing[Index(freeHead, i, MAX_FILE_CNT)] && table.free[i] < MAX_FILE_CNT
      {
        Wraps(headWas, 1, i, MAX_FILE_CNT);
        assert table.free[i] == freeWas[i + 1];
      }
    }

    /** vfs_free_file.  The source panics when the ring is full. */
    method FreeFile(file: FileStruct)
      requires Valid() && |table.free| < MAX_FILE_CNT
      requires file.idx < MAX_FILE_CNT && files[file.idx] == file
      modifies this`freeTail, this`table, freeRing, file
      ensures Valid() && table == old(table).(free := old(table).free + [file.idx])
    {
      file.fd := -1;
      TailMoves(freeHead, freeTail, MAX_FILE_CNT);
      freeRing[freeTail % MAX_FILE_CNT] := file.idx;
      freeTail := (freeTail + 1) % U32;
      ghost var freeWas := table.free;
      table := table.(free := freeWas + [file.idx]);
      forall i | 0 <= i < |table.free|
        ensures table.free[i] == freeRing[Index(freeHead, i, MAX_FILE_CNT)] && table.free[i] < MAX_FILE_CNT
      {
        assert i < |freeWas| ==> table.free[i] == freeWas[i];
      }
      assert RingOk();
      forall t: TaskSlot, fd: Descriptor
        ensures -1 <= FileOf(table, t, fd) < MAX_FILE_CNT
        ensures slots[t][fd] == if FileOf(table, t, fd) == -1 then null else files[FileOf(table, t, fd)]
      {
        assert slots[t] != freeRing as object && slots[t][fd] == old(slots[t][fd]);
        assert FileOf(table, t, fd) == old(FileOf(table, t, fd));
      }
    }

    /** files_find_by_fd. */
    method FindByFd(t: TaskSlot, fd: int) returns (file: FileStruct?)
      requires Valid()
      ensures file == if fd < 0 || fd >= RLIMIT_NOFILE || FileOf(table, t, fd) == -1 then null
                      else files[FileOf(table, t, fd)]
    {
      if fd < 0 || fd >= RLIMIT_NOFILE {
        return null;
      }
      return slots[t][fd];
    }

    /** files_alloc_fd: the lowest empty descriptor. */
    method AllocFd(t: TaskSlot, file: FileStruct) returns (fd: int)
      requires Valid() && file.idx < MAX_FILE_CNT && files[file.idx] == file
      modifies this`table, slots[t]
      ensures Valid() && fd == LowestFree(old(table), t, 0)
      ensures table == if fd == -1 then old(table) else SetFile(old(table), t, fd, file.idx)
    {
      for i := 0 to RLIMIT_NOFILE
        invariant table == old(table) && slots[t][..] == old(slots[t][..])
        invariant LowestFree(table, t, 0) == LowestFree(table, t, i)
      {
        if slots[t][i] == null {
          slots[t][i] := file;
          table := SetFile(table, t, i, file.idx);
          SetFileEffect(old(table), t, i, file.idx);
          return i;
        }
      }
      return -1;
    }

    /** files_free_fd. */
    method FreeFd(t: TaskSlot, fd: int) returns (file: FileStruct?)
      requires Valid()
      modifies this`table, slots[t]
      ensures Valid()
      ensures file == if fd < 0 || fd >= RLIMIT_NOFILE || FileOf(old(table), t, fd) == -1 then null
                      else files[FileOf(old(table), t, fd)]
      ensures table == if file == null then old(table) else SetFile(old(table), t, fd, -1)
    {
      if fd < 0 || fd >= RLIMIT_NOFILE {
        return null;
      }
      file := slots[t][fd];
      if file == null {
        return null;
      }
      slots[t][fd] := null;
      table := SetFile(table, t, fd, -1);
      SetFileEffect(old(table), t, fd, -1);
    }

    /** vfs_open, behind the path: `lookup` says what the mount table and the file system
        answer. */
    method Open(t: TaskSlot, lookup: Lookup) returns (fd: int)
      requires Valid()
      modifies this, freeRing, slots[t], files
      ensures Valid() && (table, fd) == OpenFileTable.Open(old(table), t, lookup)
    {
      if lookup == NoFileSystem {
        return -1;
      }
      var file := AllocFile();
      if file == null {
        return -1;
      }
      fd := AllocFd(t, file);
      if fd < 0 {
        FreeFile(file);
        return -1;
      }
      file.fd := fd;
      if lookup == Refused {
        ghost var taken := table;
        GiveBack(t, fd, file);
        SetThenEmptied(old(table), t, fd, file.idx, taken.free, table.free);
        return -1;
      }
    }

    /** files_free_fd and vfs_free_file, at the end of a close and of a refused open. */
    method GiveBack(t: TaskSlot, fd: Descriptor, file: FileStruct)
      requires Valid() && |table.free| < MAX_FILE_CNT
      requires file.idx < MAX_FILE_CNT && files[file.idx] == file && FileOf(table, t, fd) == file.idx
      modifies this, freeRing, slots[t], file
      ensures Valid() && table == SetFile(old(table).(free := old(table).free + [file.idx]), t, fd, -1)
    {
      var _ := FreeFd(t, fd);
      FreeFile(file);
    }

    /** vfs_close. */
    method Close(t: TaskSlot, fd: int) returns (r: int)
      requires Valid() && (0 <= fd < RLIMIT_NOFILE && FileOf(table, t, fd) != -1 ==> |table.free| < MAX_FILE_CNT)
      modifies this, freeRing, slots[t], files
      ensures Valid() && (table, r) == OpenFileTable.Close(old(table), t, fd)
    {
      if fd < 0 {
        return -1;
      }
      var file := FindByFd(t, fd);
      if file == null {
        return -1;
      }
      GiveBack(t, fd, file);
      return 0;
    }

    /** The loop of sched_exit over all descriptors. */
    method CloseAll(t: TaskSlot)
      requires Valid() && Partition(table)
      modifies this, freeRing, slots[t], files
      ensures Valid() && table == CloseFrom(old(table), t, 0)
    {
      for fd := 0 to RLIMIT_NOFILE
        invariant Valid() && Partition(table)
        invariant CloseFrom(table, t, fd) == CloseFrom(old(table), t, 0)
      {
        if slots[t][fd] != null {
          OpenMeansRoom(table, t, fd);
          CloseKeepsPartition(table, t, fd);
          var _ := Close(t, fd);
        } else {
          assert FileOf(table, t, fd) == -1;
        }
      }
    }
  }
}
