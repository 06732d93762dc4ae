/**
 * Client code driving the file system through the file life cycle its
 * API promises: create, write, reopen, read, delete while open, close.
 * Each proof uses only the contracts of the operations it calls.
 */
module FsScenarios {
  import opened Wrappers
  import opened FileBlocks
  import opened UserFs

  /**
   * A file created through one descriptor and written through it reads
   * back, through a second descriptor opened afterwards, as what was
   * written.
   */
  method WriteThenReadBack(buf: seq<Byte>) returns (out: Result<seq<Byte>>)
    requires |buf| <= MAX_FILE_SIZE
    ensures out == Ok(buf)
  {
    var fs := new FileSystem();
    var r1 := fs.Open("notes", true);
    var fd1 := r1.value;
    ghost var id := fs.fds[fd1].value.file;
    ghost var empty := fs.files[id];
    var w := fs.Write(fd1, buf);
    assert FileBytes(empty) == [];
    OverlayReadBack(FileBytes(empty), 0, buf);
    assert FileBytes(fs.files[id]) == buf;
    var r2 := fs.Open("notes", false);
    assert Named(fs.files, "notes", id);
    var fd2 := r2.value;
    assert fs.fds[fd2].value.file == id;
    assert fs.fds[fd2].value.pos == 0 && fs.files[id].size == |buf|;
    assert FileBytes(fs.files[id]) == buf;
    ghost var fsz := fs.files[id];
    out := fs.Read(fd2, |buf|);
    assert Min(|buf|, fsz.size - 0) == |buf|;
    assert FileBytes(fsz)[0..|buf|] == buf;
    assert out.Ok?;
  }

  /**
   * Deleting a file that is open hides it from ufs_open at once, and the
   * close of its last descriptor frees it.
   */
  method DeleteWhileOpen() {
    var fs := new FileSystem();
    var r := fs.Open("tmp", true);
    var fd := r.value;
    ghost var id := fs.fds[fd].value.file;
    var w := fs.Write(fd, [1, 2, 3]);
    assert w == Ok(3);
    assert Named(fs.files, "tmp", id) && !NoneNamed(fs.files, "tmp");
    var d := fs.Delete("tmp");
    assert d.Ok?;
    assert fs.fileList != [];
    var again := fs.Open("tmp", false);
    assert again == Fail(NoFile);
    var c := fs.Close(fd);
    assert c.Ok?;
    assert fs.files == map[] && fs.fileList == [];
  }

  /** A closed descriptor's slot is the one the next ufs_open hands out. */
  method SlotReuse() {
    var fs := new FileSystem();
    var a := fs.Open("a", true);
    assert a == Ok(0) && |fs.fds| == 16;
    var c := fs.Close(0);
    assert fs.fds[0].None?;
    var again := fs.Open("a", false);
    assert again == Ok(0);
    var stale := fs.Close(20);
    assert stale == Fail(NoFile);
  }
}
