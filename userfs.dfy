/**
 * The in-memory file system of 3/userfs.c: a global list of files, each a
 * chain of 512-byte blocks, a growable table of file descriptors whose
 * empty slots are reused, and reference counting with deferred deletion.
 *
 * A `struct file *` becomes a `FileId` naming an entry of the `files` map,
 * and the doubly linked `file_list` becomes the sequence `fileList` of ids,
 * head first. A descriptor slot holds the file it refers to and the
 * position in it. `ufs_error_code` becomes the error of a `Fail` result.
 */
module UserFs {
  import opened Wrappers
  import opened Lists
  import opened FileBlocks

  const MAX_FILE_SIZE: nat := 1024 * 1024 * 100

  /** Stands for a `struct file *`. */
  type FileId = nat

  /** `struct file`: its name, its block chain, its open descriptors, its size and whether it awaits deletion. */
  datatype File = File(name: string, blocks: seq<Block>, refs: nat, size: nat, deleted: bool)

  /** `struct filedesc`: the file it refers to and the position in it. */
  datatype FileDesc = FileDesc(file: FileId, pos: nat)

  datatype FsError = NoFile | NoMem

  datatype Result<T> = Ok(value: T) | Fail(error: FsError)

  /** A descriptor slot that refers to the file `id`. */
  predicate Refers(slot: Option<FileDesc>, id: FileId) {
    slot.Some? && slot.value.file == id
  }

  /** How many slots of the table refer to the file `id`: what its `refs` counts. */
  function OpenCount(fds: seq<Option<FileDesc>>, id: FileId): nat {
    if fds == [] then 0
    else OpenCount(fds[..|fds| - 1], id) + (if Refers(fds[|fds| - 1], id) then 1 else 0)
  }

  /** A file is open exactly when some slot refers to it. */
  lemma {:induction false} OpenCountZero(fds: seq<Option<FileDesc>>, id: FileId)
    ensures OpenCount(fds, id) == 0 <==> forall i :: 0 <= i < |fds| ==> !Refers(fds[i], id)
  {
    if fds != [] {
      var init := fds[..|fds| - 1];
      OpenCountZero(init, id);
      assert forall i :: 0 <= i < |init| ==> init[i] == fds[i];
    }
  }

  /** Replacing one slot changes the count by what the old and the new slot contribute. */
  lemma {:induction false} OpenCountSet(fds: seq<Option<FileDesc>>, i: nat, v: Option<FileDesc>, id: FileId)
    requires i < |fds|
    ensures OpenCount(fds[i := v], id) + (if Refers(fds[i], id) then 1 else 0)
         == OpenCount(fds, id) + (if Refers(v, id) then 1 else 0)
  {
    var n := |fds|;
    if i == n - 1 {
      assert fds[i := v][..n - 1] == fds[..n - 1];
    } else {
      assert fds[i := v][..n - 1] == fds[..n - 1][i := v];
      OpenCountSet(fds[..n - 1], i, v, id);
    }
  }

  /** The count over two tables side by side is the sum of their counts. */
  lemma {:induction false} OpenCountAppend(fds: seq<Option<FileDesc>>, tail: seq<Option<FileDesc>>, id: FileId)
    ensures OpenCount(fds + tail, id) == OpenCount(fds, id) + OpenCount(tail, id)
  {
    if tail == [] {
      assert fds + tail == fds;
    } else {
      var all := fds + tail;
      assert all[..|all| - 1] == fds + tail[..|tail| - 1];
      OpenCountAppend(fds, tail[..|tail| - 1], id);
    }
  }

  /** `n` empty slots. */
  function NoSlots(n: nat): (r: seq<Option<FileDesc>>)
    ensures |r| == n && forall i :: 0 <= i < n ==> r[i].None?
  {
    seq(n, _ => None)
  }

  /** The capacity allocate_fd grows a full table to: 16 for an empty one, twice the old otherwise. */
  function GrownCapacity(capacity: nat): (r: nat)
    ensures r > capacity
    ensures capacity == 0 ==> r == 16
    ensures capacity > 0 ==> r == 2 * capacity
  {
    if capacity == 0 then 16 else capacity * 2
  }

  /**
   * What allocate_fd leaves: the descriptor in the lowest empty slot, or,
   * when every slot is taken, in the first slot of a table grown to
   * GrownCapacity with every other new slot empty.
   */
  predicate FdAllocated(before: seq<Option<FileDesc>>, after: seq<Option<FileDesc>>, fd: nat, d: FileDesc) {
    (fd < |before| && before[fd].None? && (forall j :: 0 <= j < fd ==> before[j].Some?) &&
     after == before[fd := Some(d)])
    ||
    (fd == |before| && (forall j :: 0 <= j < |before| ==> before[j].Some?) &&
     after == before + [Some(d)] + NoSlots(GrownCapacity(|before|) - |before| - 1))
  }

  /** Allocating a descriptor adds one to its file's count and leaves every other count as it was. */
  lemma AllocatedCounts(before: seq<Option<FileDesc>>, after: seq<Option<FileDesc>>, fd: nat, d: FileDesc, id: FileId)
    requires FdAllocated(before, after, fd, d)
    ensures OpenCount(after, id) == OpenCount(before, id) + (if d.file == id then 1 else 0)
  {
    if fd < |before| {
      OpenCountSet(before, fd, Some(d), id);
    } else {
      var pad := NoSlots(GrownCapacity(|before|) - |before| - 1);
      OpenCountAppend(before + [Some(d)], pad, id);
      OpenCountAppend(before, [Some(d)], id);
      OpenCountZero(pad, id);
      assert [Some(d)][..0] == [];
    }
  }

  /** The allocated slot holds the descriptor; every other slot of the old table is as it was and every new one is empty. */
  lemma AllocatedSlot(before: seq<Option<FileDesc>>, after: seq<Option<FileDesc>>, fd: nat, d: FileDesc)
    requires FdAllocated(before, after, fd, d)
    ensures fd < |after| && after[fd] == Some(d) && |before| <= |after|
    ensures forall j :: 0 <= j < |before| && j != fd ==> after[j] == before[j]
    ensures forall j :: |before| <= j < |after| && j != fd ==> after[j].None?
  {
  }

  /** The file `id` is live (not awaiting deletion) and is called `name`. */
  predicate Named(files: map<FileId, File>, name: string, id: FileId) {
    id in files && !files[id].deleted && files[id].name == name
  }

  /** No live file is called `name`. */
  predicate NoneNamed(files: map<FileId, File>, name: string) {
    forall id :: id in files ==> !Named(files, name, id)
  }

  /** The bytes of a file, read through its blocks. */
  ghost function FileBytes(f: File): (r: seq<Byte>)
    requires Layout(f.blocks, f.size)
    ensures |r| == f.size
  {
    Content(f.blocks, f.size)
  }

  /** The file list links every allocated file once and nothing else, and every id is below `nextId`. */
  ghost predicate Linked(files: map<FileId, File>, fileList: seq<FileId>, nextId: FileId) {
    Distinct(fileList) && (forall id :: id in files <==> id in fileList) &&
    forall id :: id in files ==> id < nextId
  }

  /** Every file's blocks are laid out for its size, which stays within MAX_FILE_SIZE. */
  ghost predicate Stored(files: map<FileId, File>) {
    forall id {:trigger FileOk(files[id])} :: id in files ==> FileOk(files[id])
  }

  /** A file's blocks are laid out for its size, which stays within MAX_FILE_SIZE. */
  ghost predicate FileOk(f: File) {
    f.size <= MAX_FILE_SIZE && Layout(f.blocks, f.size)
  }

  /** `refs` counts the descriptors open on a file, and a file awaiting deletion is still open. */
  ghost predicate Counted(files: map<FileId, File>, fds: seq<Option<FileDesc>>) {
    forall id {:trigger OpenCount(fds, id)} :: id in files ==>
      files[id].refs == OpenCount(fds, id) && (files[id].deleted ==> files[id].refs > 0)
  }

  /** Every descriptor refers to an allocated file, at a position within it. */
  ghost predicate Described(files: map<FileId, File>, fds: seq<Option<FileDesc>>) {
    forall i :: 0 <= i < |fds| && fds[i].Some? ==>
      fds[i].value.file in files && fds[i].value.pos <= files[fds[i].value.file].size
  }

  /** At most one live file has a given name. */
  ghost predicate UniqueNames(files: map<FileId, File>) {
    forall a, b :: a in files && b in files && Named(files, files[a].name, a) && Named(files, files[a].name, b) ==> a == b
  }

  /** The state of the file system is consistent. */
  ghost predicate Wf(files: map<FileId, File>, fileList: seq<FileId>, fds: seq<Option<FileDesc>>, nextId: FileId) {
    Linked(files, fileList, nextId) && Stored(files) && Counted(files, fds) && Described(files, fds) && UniqueNames(files)
  }

  /** A file that is not allocated has no descriptor open on it. */
  lemma NoDescriptorOn(files: map<FileId, File>, fds: seq<Option<FileDesc>>, id: FileId)
    requires Described(files, fds) && id !in files
    ensures OpenCount(fds, id) == 0
  {
    OpenCountZero(fds, id);
  }

  /** A descriptor open on a file counts towards its references. */
  lemma DescriptorCounts(files: map<FileId, File>, fds: seq<Option<FileDesc>>, fd: nat)
    requires Counted(files, fds) && Described(files, fds) && fd < |fds| && fds[fd].Some?
    ensures fds[fd].value.file in files && files[fds[fd].value.file].refs > 0
  {
    OpenCountZero(fds, fds[fd].value.file);
  }

  /** Replacing a file by a well-stored one keeps every file well stored. */
  lemma StoredUpdate(files: map<FileId, File>, id: FileId, g: File)
    requires Stored(files) && FileOk(g)
    ensures Stored(files[id := g])
  {
    var files' := files[id := g];
    forall x | x in files' ensures FileOk(files'[x]) {
      if x != id {
        assert FileOk(files[x]);
      }
    }
  }

  /** Freeing a file keeps the others well stored. */
  lemma StoredRemove(files: map<FileId, File>, id: FileId)
    requires Stored(files)
    ensures Stored(files - {id})
  {
    var files' := files - {id};
    forall x | x in files' ensures FileOk(files'[x]) {
      assert FileOk(files[x]);
    }
  }

  /** Changing a file without renaming it or bringing it back from deletion keeps names unique. */
  lemma NamesUpdate(files: map<FileId, File>, id: FileId, g: File)
    requires UniqueNames(files) && id in files && g.name == files[id].name && (files[id].deleted ==> g.deleted)
    ensures UniqueNames(files[id := g])
  {
    var files' := files[id := g];
    forall a, b | a in files' && b in files' && Named(files', files'[a].name, a) && Named(files', files'[a].name, b)
      ensures a == b
    {
      assert Named(files, files[a].name, a) && Named(files, files[a].name, b);
    }
  }

  /** Freeing a file keeps names unique. */
  lemma NamesRemove(files: map<FileId, File>, id: FileId)
    requires UniqueNames(files)
    ensures UniqueNames(files - {id})
  {
    var files' := files - {id};
    forall a, b | a in files' && b in files' && Named(files', files'[a].name, a) && Named(files', files'[a].name, b)
      ensures a == b
    {
      assert Named(files, files[a].name, a) && Named(files, files[a].name, b);
    }
  }

  /** Adding a file under a name no live file has keeps names unique. */
  lemma NamesAdd(files: map<FileId, File>, id: FileId, g: File)
    requires UniqueNames(files) && id !in files && NoneNamed(files, g.name)
    ensures UniqueNames(files[id := g])
  {
    var files' := files[id := g];
    forall a, b | a in files' && b in files' && Named(files', files'[a].name, a) && Named(files', files'[a].name, b)
      ensures a == b
    {
      if a != id && b != id {
        assert Named(files, files[a].name, a) && Named(files, files[a].name, b);
      } else if a != b {
        assert Named(files, g.name, if a == id then b else a);
      }
    }
  }

  /** ufs_open creating a file: an empty file with no references at the head of the list keeps the state consistent. */
  lemma CreateKeepsWf(files: map<FileId, File>, fileList: seq<FileId>, fds: seq<Option<FileDesc>>, nextId: FileId, name: string)
    requires Wf(files, fileList, fds, nextId) && NoneNamed(files, name)
    ensures Wf(files[nextId := File(name, [], 0, 0, false)], [nextId] + fileList, fds, nextId + 1)
  {
    var g := File(name, [], 0, 0, false);
    var files' := files[nextId := g];
    NoDescriptorOn(files, fds, nextId);
    assert nextId !in fileList;
    StoredUpdate(files, nextId, g);
    NamesAdd(files, nextId, g);
    forall x | x in files' ensures files'[x].refs == OpenCount(fds, x) && (files'[x].deleted ==> files'[x].refs > 0) {
    }
  }

  /** ufs_open: a new descriptor at position 0 on an allocated file, counted in its `refs`, keeps the state consistent. */
  lemma OpenKeepsWf(files: map<FileId, File>, fileList: seq<FileId>, fds: seq<Option<FileDesc>>, nextId: FileId,
                    id: FileId, fds': seq<Option<FileDesc>>, fd: nat)
    requires Wf(files, fileList, fds, nextId) && id in files
    requires FdAllocated(fds, fds', fd, FileDesc(id, 0))
    ensures Wf(files[id := files[id].(refs := files[id].refs + 1)], fileList, fds', nextId)
  {
    var g := files[id].(refs := files[id].refs + 1);
    var files' := files[id := g];
    assert FileOk(files[id]);
    StoredUpdate(files, id, g);
    NamesUpdate(files, id, g);
    forall x | x in files' ensures files'[x].refs == OpenCount(fds', x) && (files'[x].deleted ==> files'[x].refs > 0) {
      AllocatedCounts(fds, fds', fd, FileDesc(id, 0), x);
    }
  }

  /**
   * ufs_write and ufs_read: the descriptor `d` in slot `fd` moving to `pos`
   * within its file `g`, which a write may have grown, keeps the state
   * consistent.
   */
  lemma MoveKeepsWf(files: map<FileId, File>, fileList: seq<FileId>, fds: seq<Option<FileDesc>>, nextId: FileId,
                    fd: nat, d: FileDesc, g: File, pos: nat)
    requires Wf(files, fileList, fds, nextId) && fd < |fds| && fds[fd] == Some(d)
    requires d.file in files && g == files[d.file].(blocks := g.blocks, size := g.size)
    requires files[d.file].size <= g.size && FileOk(g) && pos <= g.size
    ensures Wf(files[d.file := g], fileList, fds[fd := Some(d.(pos := pos))], nextId)
  {
    var files' := files[d.file := g];
    var fds' := fds[fd := Some(d.(pos := pos))];
    StoredUpdate(files, d.file, g);
    NamesUpdate(files, d.file, g);
    forall x | x in files' ensures files'[x].refs == OpenCount(fds', x) && (files'[x].deleted ==> files'[x].refs > 0) {
      OpenCountSet(fds, fd, Some(d.(pos := pos)), x);
    }
  }

  /** ufs_close: emptying a slot and dropping its reference, freeing a deleted file at its last one, keeps the state consistent. */
  lemma CloseKeepsWf(files: map<FileId, File>, fileList: seq<FileId>, fds: seq<Option<FileDesc>>, nextId: FileId, fd: nat)
    requires Wf(files, fileList, fds, nextId) && fd < |fds| && fds[fd].Some?
    ensures var id := fds[fd].value.file;
      id in files && files[id].refs > 0 &&
      if files[id].refs == 1 && files[id].deleted then
        Wf(files - {id}, Unlink(fileList, id), fds[fd := None], nextId)
      else
        Wf(files[id := files[id].(refs := files[id].refs - 1)], fileList, fds[fd := None], nextId)
  {
    var id := fds[fd].value.file;
    DescriptorCounts(files, fds, fd);
    var fds' := fds[fd := None];
    forall x ensures OpenCount(fds', x) + (if x == id then 1 else 0) == OpenCount(fds, x) {
      OpenCountSet(fds, fd, None, x);
    }
    if files[id].refs == 1 && files[id].deleted {
      OpenCountZero(fds', id);
      UnlinkMembers(fileList, id);
      var files' := files - {id};
      StoredRemove(files, id);
      NamesRemove(files, id);
      forall x | x in files' ensures files'[x].refs == OpenCount(fds', x) && (files'[x].deleted ==> files'[x].refs > 0) {
        assert OpenCount(fds, x) == OpenCount(fds', x);
      }
    } else {
      var g := files[id].(refs := files[id].refs - 1);
      var files' := files[id := g];
      assert FileOk(files[id]);
      StoredUpdate(files, id, g);
      NamesUpdate(files, id, g);
      forall x | x in files' ensures files'[x].refs == OpenCount(fds', x) && (files'[x].deleted ==> files'[x].refs > 0) {
        assert OpenCount(fds, x) == OpenCount(fds', x) + (if x == id then 1 else 0);
      }
    }
  }

  /** ufs_delete: freeing a file nobody has open, or marking an open one deleted, keeps the state consistent. */
  lemma DeleteKeepsWf(files: map<FileId, File>, fileList: seq<FileId>, fds: seq<Option<FileDesc>>, nextId: FileId, id: FileId)
    requires Wf(files, fileList, fds, nextId) && id in files
    ensures files[id].refs == 0 ==> Wf(files - {id}, Unlink(fileList, id), fds, nextId)
    ensures files[id].refs > 0 ==> Wf(files[id := files[id].(deleted := true)], fileList, fds, nextId)
  {
    assert files[id].refs == OpenCount(fds, id);
    if files[id].refs == 0 {
      OpenCountZero(fds, id);
      UnlinkMembers(fileList, id);
      var files' := files - {id};
      StoredRemove(files, id);
      NamesRemove(files, id);
      forall x | x in files' ensures files'[x].refs == OpenCount(fds, x) && (files'[x].deleted ==> files'[x].refs > 0) {
      }
    } else {
      var g := files[id].(deleted := true);
      var files' := files[id := g];
      assert FileOk(files[id]);
      StoredUpdate(files, id, g);
      NamesUpdate(files, id, g);
      forall x | x in files' ensures files'[x].refs == OpenCount(fds, x) && (files'[x].deleted ==> files'[x].refs > 0) {
      }
    }
  }

  class FileSystem {
    /** The `struct file` objects still allocated. */
    var files: map<FileId, File>
    /** `file_list`, head first. */
    var fileList: seq<FileId>
    /** `file_descriptors[0..file_descriptor_capacity)`. */
    var fds: seq<Option<FileDesc>>
    /** Where the next `struct file` is allocated: no allocated file has this id or a larger one. */
    var nextId: FileId

    ghost predicate Valid()
      reads this
    {
      Wf(files, fileList, fds, nextId)
    }

    /** No files and no descriptors. */
    constructor ()
      ensures Valid() && files == map[] && fileList == [] && fds == []
    {
      files := map[];
      fileList := [];
      fds := [];
      nextId := 0;
    }

    /** The descriptor names an open slot. */
    predicate Open?(fd: int)
      reads this
    {
      0 <= fd < |fds| && fds[fd].Some?
    }

    /** find_file: the first live file in list order called `name`, if any. */
    method FindFile(name: string) returns (r: Option<FileId>)
      requires Valid()
      ensures r.Some? ==> Named(files, name, r.value)
      ensures r.None? <==> NoneNamed(files, name)
    {
      var i := 0;
      while i < |fileList|
        invariant i <= |fileList|
        invariant forall j :: 0 <= j < i ==> !Named(files, name, fileList[j])
      {
        var f := files[fileList[i]];
        if !f.deleted && f.name == name {
          return Some(fileList[i]);
        }
        i := i + 1;
      }
      forall id | id in files ensures !Named(files, name, id) {
        var j :| 0 <= j < |fileList| && fileList[j] == id;
      }
      return None;
    }

    /** allocate_fd: the descriptor goes into the lowest empty slot, growing the table when there is none. */
    method AllocateFd(d: FileDesc) returns (fd: nat)
      modifies this
      ensures FdAllocated(old(fds), fds, fd, d)
      ensures files == old(files) && fileList == old(fileList) && nextId == old(nextId)
    {
      var i := 0;
      while i < |fds|
        invariant i <= |fds| && forall j :: 0 <= j < i ==> fds[j].Some?
        invariant fds == old(fds) && files == old(files) && fileList == old(fileList) && nextId == old(nextId)
      {
        if fds[i].None? {
          fds := fds[i := Some(d)];
          return i;
        }
        i := i + 1;
      }
      var newCapacity := GrownCapacity(|fds|);
      var grown := fds;
      while |grown| < newCapacity
        invariant |fds| <= |grown| <= newCapacity
        invariant grown == fds + NoSlots(|grown| - |fds|)
      {
        grown := grown + [None];
      }
      fd := |fds|;
      fds := grown[fd := Some(d)];
      assert fds == old(fds) + [Some(d)] + NoSlots(newCapacity - fd - 1);
    }

    /**
     * ufs_open: the live file called `name`, created empty at the head of
     * the file list when there is none and `create` (the UFS_CREATE flag) is
     * set, gains a reference and a descriptor at position 0.
     */
    method Open(name: string, create: bool) returns (r: Result<nat>)
      requires Valid()
      modifies this
      ensures Valid()
      ensures r.Fail? <==> !create && NoneNamed(old(files), name)
      ensures r.Fail? ==> r.error == NoFile && unchanged(this)
      ensures r.Ok? ==> Open?(r.value) && fds[r.value].value.pos == 0
      ensures r.Ok? ==> FdAllocated(old(fds), fds, r.value, fds[r.value].value)
      ensures r.Ok? ==> Named(files, name, fds[r.value].value.file)
      ensures r.Ok? && !NoneNamed(old(files), name) ==>
        var id := fds[r.value].value.file;
        Named(old(files), name, id) && fileList == old(fileList) &&
        files == old(files)[id := old(files)[id].(refs := old(files)[id].refs + 1)]
      ensures r.Ok? && NoneNamed(old(files), name) ==>
        var id := fds[r.value].value.file;
        id !in old(files) && fileList == [id] + old(fileList) &&
        files == old(files)[id := File(name, [], 1, 0, false)]
    {
      var found := FindFile(name);
      var id: FileId;
      if found.None? {
        if !create {
          return Fail(NoFile);
        }
        id := CreateFile(name);
      } else {
        id := found.value;
      }
      var fd := AttachDescriptor(id);
      return Ok(fd);
    }

    /** The creating half of ufs_open: a new empty file with no references at the head of the file list. */
    method CreateFile(name: string) returns (id: FileId)
      requires Valid() && NoneNamed(files, name)
      modifies this
      ensures Valid()
      ensures id !in old(files) && files == old(files)[id := File(name, [], 0, 0, false)]
      ensures fileList == [id] + old(fileList) && fds == old(fds)
    {
      CreateKeepsWf(files, fileList, fds, nextId, name);
      id := nextId;
      nextId := nextId + 1;
      files := files[id := File(name, [], 0, 0, false)];
      fileList := [id] + fileList;
    }

    /** The rest of ufs_open: the file gains a reference and a descriptor at position 0 in a slot from allocate_fd. */
    method AttachDescriptor(id: FileId) returns (fd: nat)
      requires Valid() && id in files
      modifies this
      ensures Valid()
      ensures fd < |fds| && fds[fd] == Some(FileDesc(id, 0)) && FdAllocated(old(fds), fds, fd, FileDesc(id, 0))
      ensures files == old(files)[id := old(files)[id].(refs := old(files)[id].refs + 1)]
      ensures fileList == old(fileList)
    {
      ghost var filesBefore, fdsBefore := files, fds;
      files := files[id := files[id].(refs := files[id].refs + 1)];
      fd := AllocateFd(FileDesc(id, 0));
      AllocatedSlot(fdsBefore, fds, fd, FileDesc(id, 0));
      OpenKeepsWf(filesBefore, fileList, fdsBefore, nextId, id, fds, fd);
    }

    /**
     * ufs_write: `buf`, cut short where it would pass MAX_FILE_SIZE, is laid
     * over the file's bytes at the descriptor's position, which moves past
     * it; the file grows to cover it. A write that cannot add a byte because
     * the position is already at MAX_FILE_SIZE fails with NoMem.
     */
    method Write(fd: int, buf: seq<Byte>) returns (r: Result<nat>)
      requires Valid()
      modifies this
      ensures Valid()
      ensures !old(Open?(fd)) ==> r == Fail(NoFile) && unchanged(this)
      ensures old(Open?(fd)) && old(fds[fd].value.pos) == MAX_FILE_SIZE && |buf| > 0 ==>
        r == Fail(NoMem) && unchanged(this)
      ensures old(Open?(fd)) && !(old(fds[fd].value.pos) == MAX_FILE_SIZE && |buf| > 0) ==>
        var d := old(fds[fd].value);
        var f := old(files[d.file]);
        FileOk(f) && d.pos <= f.size &&
        var n := Min(|buf|, MAX_FILE_SIZE - d.pos);
        r == Ok(n) && fileList == old(fileList) && fds == old(fds)[fd := Some(d.(pos := d.pos + n))] &&
        d.file in files && FileOk(files[d.file]) &&
        var g := files[d.file];
        files == old(files)[d.file := g] && g == f.(blocks := g.blocks, size := Max(f.size, d.pos + n)) &&
        FileBytes(g) == Overlay(FileBytes(f), d.pos, buf[..n])
    {
      if fd < 0 || fd >= |fds| || fds[fd].None? {
        return Fail(NoFile);
      }
      var d := fds[fd].value;
      var f := files[d.file];
      assert FileOk(f);
      var size := |buf|;
      if d.pos + size > MAX_FILE_SIZE {
        size := MAX_FILE_SIZE - d.pos;
        if size == 0 {
          return Fail(NoMem);
        }
      }
      var blocks := WriteBlocks(f.blocks, f.size, d.pos, buf[..size]);
      var pos := d.pos + size;
      var g := f.(blocks := blocks, size := Max(f.size, pos));
      MoveKeepsWf(files, fileList, fds, nextId, fd, d, g, pos);
      files := files[d.file := g];
      fds := fds[fd := Some(d.(pos := pos))];
      return Ok(size);
    }

    /**
     * ufs_read: the file's bytes from the descriptor's position on, as many
     * as asked for or as the file still holds, and the position moves past
     * them. At or past the end of the file nothing is read.
     */
    method Read(fd: int, size: nat) returns (r: Result<seq<Byte>>)
      requires Valid()
      modifies this
      ensures Valid()
      ensures !old(Open?(fd)) ==> r == Fail(NoFile) && unchanged(this)
      ensures old(Open?(fd)) ==>
        var d := old(fds[fd].value);
        var f := old(files[d.file]);
        FileOk(f) && d.pos <= f.size &&
        var n := Min(size, f.size - d.pos);
        r == Ok(FileBytes(f)[d.pos..d.pos + n]) &&
        files == old(files) && fileList == old(fileList) && fds == old(fds)[fd := Some(d.(pos := d.pos + n))]
    {
      if fd < 0 || fd >= |fds| || fds[fd].None? {
        return Fail(NoFile);
      }
      var d := fds[fd].value;
      var f := files[d.file];
      assert FileOk(f);
      if d.pos >= f.size {
        assert d.pos == f.size && FileBytes(f)[d.pos..d.pos] == [];
        assert fds[fd := Some(d.(pos := d.pos + 0))] == fds;
        return Ok([]);
      }
      var toRead := size;
      if d.pos + toRead > f.size {
        toRead := f.size - d.pos;
      }
      var out := ReadBlocks(f.blocks, f.size, d.pos, toRead);
      MoveKeepsWf(files, fileList, fds, nextId, fd, d, f, d.pos + toRead);
      assert files[d.file := f] == files;
      fds := fds[fd := Some(d.(pos := d.pos + toRead))];
      return Ok(out);
    }

    /**
     * ufs_close: the slot is emptied and the file loses a reference; a file
     * awaiting deletion whose last reference this was is unlinked from the
     * file list and freed.
     */
    method Close(fd: int) returns (r: Result<()>)
      requires Valid()
      modifies this
      ensures Valid()
      ensures !old(Open?(fd)) ==> r == Fail(NoFile) && unchanged(this)
      ensures old(Open?(fd)) ==>
        var id := old(fds[fd].value.file);
        var f := old(files[id]);
        r == Ok(()) && fds == old(fds)[fd := None] &&
        if f.refs == 1 && f.deleted then
          files == old(files) - {id} && fileList == Unlink(old(fileList), id)
        else
          id in files && files[id].refs + 1 == f.refs &&
          files == old(files)[id := f.(refs := files[id].refs)] && fileList == old(fileList)
    {
      if fd < 0 || fd >= |fds| || fds[fd].None? {
        return Fail(NoFile);
      }
      CloseKeepsWf(files, fileList, fds, nextId, fd);
      var id := fds[fd].value.file;
      var f := files[id];
      var refs := f.refs - 1;
      if refs == 0 && f.deleted {
        fileList := Unlink(fileList, id);
        files := files - {id};
      } else {
        files := files[id := f.(refs := refs)];
      }
      fds := fds[fd := None];
      return Ok(());
    }

    /**
     * ufs_delete: the live file called `name` is unlinked and freed when no
     * descriptor is open on it, and otherwise only marked deleted, which
     * hides it from find_file until its last descriptor is closed.
     */
    method Delete(name: string) returns (r: Result<()>)
      requires Valid()
      modifies this
      ensures Valid()
      ensures NoneNamed(files, name)
      ensures r.Fail? <==> NoneNamed(old(files), name)
      ensures r.Fail? ==> r.error == NoFile && unchanged(this)
      ensures r.Ok? ==> exists id :: Named(old(files), name, id) && Deleted(old(files), old(fileList), id)
      ensures fds == old(fds)
    {
      var found := FindFile(name);
      if found.None? {
        return Fail(NoFile);
      }
      var id := found.value;
      DeleteKeepsWf(files, fileList, fds, nextId, id);
      ghost var filesBefore, listBefore := files, fileList;
      var f := files[id];
      if f.refs == 0 {
        fileList := Unlink(fileList, id);
        files := files - {id};
      } else {
        files := files[id := f.(deleted := true)];
      }
      assert Named(filesBefore, name, id) && Deleted(filesBefore, listBefore, id);
      return Ok(());
    }

    /** What ufs_delete leaves of the file `id`: unlinked and freed with no references, marked deleted with some. */
    ghost predicate Deleted(filesBefore: map<FileId, File>, listBefore: seq<FileId>, id: FileId)
      requires id in filesBefore
      reads this
    {
      if filesBefore[id].refs == 0 then
        files == filesBefore - {id} && fileList == Unlink(listBefore, id)
      else
        files == filesBefore[id := filesBefore[id].(deleted := true)] && fileList == listBefore
    }
  }
}
