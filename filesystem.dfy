/**
 * The slice of the operating system's filesystem the handlers touch: regular
 * files with their bytes and permission bits, and directories. `os.Stat`,
 * `os.MkdirAll`, `os.ReadFile`, `os.WriteFile` and `os.Remove` are methods of
 * FileStore; Disk is the value a FileStore holds at one moment.
 */
module FileSystem {
  import opened Basics
  import opened Paths

  datatype Disk = Disk(files: map<Path, Bytes>, modes: map<Path, uint32>, dirs: set<Path>) {

    /** Every file has permission bits, and no path is both a file and a directory. */
    ghost predicate Valid() {
      modes.Keys == files.Keys && files.Keys !! dirs
    }

    /** `os.Stat` succeeds. */
    predicate Exists(p: Path) {
      p in files || p in dirs
    }

    /** `os.WriteFile` succeeds: the parent is a directory and the path is not one. */
    predicate CanWrite(p: Path) {
      Dir(p) in dirs && p !in dirs
    }

    /** `os.WriteFile` creates the file with `mode`, or truncates it and keeps its permission bits. */
    function Write(p: Path, data: Bytes, mode: uint32): Disk {
      Disk(files[p := data], if p in files then modes else modes[p := mode], dirs)
    }

    function Remove(p: Path): Disk {
      Disk(files - {p}, modes - {p}, dirs)
    }

    function Mkdir(p: Path): Disk {
      Disk(files, modes, dirs + {p})
    }
  }

  /**
   * One step of materializing a payload: put `data` at `path`, or skip a key
   * whose value could not be decoded.
   */
  datatype Op = Put(path: Path, data: Bytes) | Skip

  /** The contents a plain sequence of overwrites leaves behind, the reference for every writer. */
  function Overlay(f: map<Path, Bytes>, ops: seq<Op>): map<Path, Bytes>
    decreases |ops|
  {
    if ops == [] then f
    else
      var prev := Overlay(f, ops[..|ops| - 1]);
      match ops[|ops| - 1]
      case Put(p, data) => prev[p := data]
      case Skip => prev
  }

  /** The data of the last Put to `p`, if any. */
  function LastWrite(ops: seq<Op>, p: Path): Option<Bytes>
    decreases |ops|
  {
    if ops == [] then None
    else
      match ops[|ops| - 1]
      case Put(q, data) => if q == p then Some(data) else LastWrite(ops[..|ops| - 1], p)
      case Skip => LastWrite(ops[..|ops| - 1], p)
  }

  /** Puts to the same path carry the same data. */
  predicate Agree(ops: seq<Op>) {
    forall i, j :: 0 <= i < j < |ops| && ops[i].Put? && ops[j].Put? && ops[i].path == ops[j].path
      ==> ops[i].data == ops[j].data
  }

  /** After a sequence of overwrites each path holds its last write, or what it held before. */
  lemma {:induction false} OverlayAt(f: map<Path, Bytes>, ops: seq<Op>, p: Path)
    ensures p in Overlay(f, ops) <==> p in f || LastWrite(ops, p).Some?
    ensures p in Overlay(f, ops) ==>
      Overlay(f, ops)[p] == (if LastWrite(ops, p).Some? then LastWrite(ops, p).value else f[p])
  {
    if ops != [] {
      OverlayAt(f, ops[..|ops| - 1], p);
    }
  }

  /** The last write to `p` in `a + b` is b's if b writes `p` at all. */
  lemma {:induction false} LastWriteAppend(a: seq<Op>, b: seq<Op>, p: Path)
    ensures LastWrite(a + b, p) == if LastWrite(b, p).Some? then LastWrite(b, p) else LastWrite(a, p)
  {
    if b != [] {
      assert (a + b)[..|a + b| - 1] == a + b[..|b| - 1];
      LastWriteAppend(a, b[..|b| - 1], p);
    } else {
      assert a + b == a;
    }
  }

  /** A last write is some Put of the sequence. */
  lemma {:induction false} LastWriteIsPut(ops: seq<Op>, p: Path)
    requires LastWrite(ops, p).Some?
    ensures exists i :: 0 <= i < |ops| && ops[i] == Put(p, LastWrite(ops, p).value)
  {
    var n := |ops| - 1;
    if ops[n] != Put(p, LastWrite(ops, p).value) {
      LastWriteIsPut(ops[..n], p);
      var i :| 0 <= i < n && ops[..n][i] == Put(p, LastWrite(ops, p).value);
      assert ops[i] == ops[..n][i];
    }
  }

  /** When the Puts agree, the last write to the path of any Put is that Put's data. */
  lemma {:induction false} LastWriteAgree(ops: seq<Op>, i: nat)
    requires Agree(ops) && i < |ops| && ops[i].Put?
    ensures LastWrite(ops, ops[i].path) == Some(ops[i].data)
  {
    var n := |ops| - 1;
    if i < n && !(ops[n].Put? && ops[n].path == ops[i].path) {
      var prefix := ops[..n];
      assert Agree(prefix) by {
        forall a, b | 0 <= a < b < |prefix| && prefix[a].Put? && prefix[b].Put? && prefix[a].path == prefix[b].path
          ensures prefix[a].data == prefix[b].data
        {
          assert prefix[a] == ops[a] && prefix[b] == ops[b];
        }
      }
      assert prefix[i] == ops[i];
      LastWriteAgree(prefix, i);
    }
  }

  class FileStore {
    var files: map<Path, Bytes>
    var modes: map<Path, uint32>
    var dirs: set<Path>

    function State(): Disk
      reads this
    {
      Disk(files, modes, dirs)
    }

    ghost predicate Valid()
      reads this
    {
      State().Valid()
    }

    constructor (d: Disk)
      requires d.Valid()
      ensures State() == d && Valid()
    {
      files, modes, dirs := d.files, d.modes, d.dirs;
    }

    /** `os.Stat(p)` returns no error. */
    method Stat(p: Path) returns (found: bool)
      ensures found <==> p in files || p in dirs
    {
      found := p in files || p in dirs;
    }

    /** `os.MkdirAll(dir)`: fails when a file is in the way. */
    method MkdirAll(dir: Path) returns (ok: bool)
      requires Valid()
      modifies this
      ensures Valid()
      ensures ok == (dir !in old(files))
      ensures State() == if ok then old(State()).Mkdir(dir) else old(State())
    {
      ok := dir !in files;
      if ok {
        dirs := dirs + {dir};
      }
    }

    /** `os.ReadFile(p)`: the bytes of a regular file; directories and missing paths fail. */
    method ReadFile(p: Path) returns (r: Option<Bytes>)
      ensures r.Some? <==> p in files
      ensures r.Some? ==> r.value == files[p]
    {
      r := if p in files then Some(files[p]) else None;
    }

    /** `os.WriteFile(p, data, mode)`. */
    method WriteFile(p: Path, data: Bytes, mode: uint32) returns (ok: bool)
      requires Valid()
      modifies this
      ensures Valid()
      ensures ok == old(State()).CanWrite(p)
      ensures State() == if ok then old(State()).Write(p, data, mode) else old(State())
    {
      ok := Dir(p) in dirs && p !in dirs;
      if ok {
        if p !in files {
          modes := modes[p := mode];
        }
        files := files[p := data];
      }
    }

    /** `os.Remove(p)` of a regular file; removing a directory is reported as a failure. */
    method Remove(p: Path) returns (ok: bool)
      requires Valid()
      modifies this
      ensures Valid()
      ensures ok == (p in old(files))
      ensures State() == if ok then old(State()).Remove(p) else old(State())
    {
      ok := p in files;
      if ok {
        files := files - {p};
        modes := modes - {p};
      }
    }
  }
}
