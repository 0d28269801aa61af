/**
 * The generic materializer, `genericHandlerImpl`: resolves target paths, writes
 * a file only when its bytes differ, removes files on delete, and runs the
 * callback only when a file was written or removed.
 *
 * The value-level functions (WriteStep, Apply, ProcessSpec, DeleteAll, Effect)
 * say what one call does to a Disk; the Handler class performs the calls on a
 * FileStore and is proved to agree with them.
 */
module Generic {
  import opened Basics
  import opened Paths
  import opened FileSystem
  import opened Kube
  import Strconv
  import Base64

  /** The settings of a `genericHandlerImpl`, apart from its callback and its lock. */
  datatype Config = Config(folder: string, fileMode: uint32, folderAnnotation: string, uniqFilenames: bool)

  /** `NewGenericHandlerImpl` without the callback: None stands for the returned error. */
  function NewConfig(folder: string, fileMode: string, folderAnnotation: string, uniqFilenames: bool): Option<Config> {
    match Strconv.ParseUint32Octal(fileMode)
    case None => None
    case Some(mode) => Some(Config(folder, mode, folderAnnotation, uniqFilenames))
  }

  /** A handler exists exactly when the mode is a non-empty octal string below 2^32, and then carries its value. */
  lemma NewConfigParsesOctal(folder: string, fileMode: string, folderAnnotation: string, uniqFilenames: bool)
    ensures NewConfig(folder, fileMode, folderAnnotation, uniqFilenames).Some? <==>
      |fileMode| > 0 && Strconv.AllOctal(fileMode) && Strconv.OctalValue(fileMode) < 0x1_0000_0000
    ensures NewConfig(folder, fileMode, folderAnnotation, uniqFilenames).Some? ==>
      NewConfig(folder, fileMode, folderAnnotation, uniqFilenames).value.fileMode as nat == Strconv.OctalValue(fileMode)
  {
  }

  /** The default mode "0755" gives 0o755; "0855" is not octal and gives no handler. */
  lemma NewConfigExamples(folder: string, folderAnnotation: string, uniqFilenames: bool)
    ensures NewConfig(folder, "0755", folderAnnotation, uniqFilenames) == Some(Config(folder, 493, folderAnnotation, uniqFilenames))
    ensures NewConfig(folder, "0855", folderAnnotation, uniqFilenames) == None
  {
    Strconv.ParseExamples();
    Strconv.ParseRejectsNonOctal("0855", 1);
  }

  // ----- Path resolution (computePath) -----

  /** The folder annotation, when the resource carries it (even with an empty value), overrides the configured folder. */
  function TargetFolder(folderAnnotation: string, folder: string, meta: ObjectMeta): string {
    if folderAnnotation in meta.annotations then meta.annotations[folderAnnotation] else folder
  }

  /** The key, or with unique filenames the key prefixed by the resource name twice; the namespace is not used. */
  function FileName(cfg: Config, meta: ObjectMeta, key: string): string {
    if cfg.uniqFilenames then "namespace_" + meta.name + ".resource_" + meta.name + "." + key else key
  }

  /** A file name holds no separator when neither the key nor the resource name does. */
  lemma FileNameNoSlash(cfg: Config, meta: ObjectMeta, key: string)
    requires '/' !in key && '/' !in meta.name
    ensures '/' !in FileName(cfg, meta, key)
  {
    if cfg.uniqFilenames {
      var n := FileName(cfg, meta, key);
      assert n == "namespace_" + meta.name + ".resource_" + meta.name + "." + key;
      forall i | 0 <= i < |n| ensures n[i] != '/' {
        var a := |"namespace_" + meta.name|;
        var b := |"namespace_" + meta.name + ".resource_" + meta.name|;
        if i < 10 {
        } else if i < a {
          assert n[i] == meta.name[i - 10];
        } else if i < a + 10 {
        } else if i < b {
          assert n[i] == meta.name[i - a - 10];
        } else if i == b {
        } else {
          assert n[i] == key[i - b - 1];
        }
      }
    }
  }

  /** `computePath`: every file of a resource lies directly in the resource's target folder. */
  function ComputePath(cfg: Config, meta: ObjectMeta, key: string): (p: Path)
    ensures '/' !in key && '/' !in meta.name ==> Dir(p) == TargetFolder(cfg.folderAnnotation, cfg.folder, meta)
  {
    var folder, name := TargetFolder(cfg.folderAnnotation, cfg.folder, meta), FileName(cfg, meta, key);
    if '/' in key || '/' in meta.name then Join(folder, name)
    else
      FileNameNoSlash(cfg, meta, key);
      SplitJoin(folder, name);
      Join(folder, name)
  }

  /** The folder and the file name of a computed path, read back from the path itself. */
  lemma ComputePathParts(cfg: Config, meta: ObjectMeta, key: string)
    requires '/' !in key && '/' !in meta.name
    ensures Dir(ComputePath(cfg, meta, key)) ==
      if cfg.folderAnnotation in meta.annotations then meta.annotations[cfg.folderAnnotation] else cfg.folder
    ensures Base(ComputePath(cfg, meta, key)) ==
      if cfg.uniqFilenames then "namespace_" + meta.name + ".resource_" + meta.name + "." + key else key
  {
    FileNameNoSlash(cfg, meta, key);
    SplitJoin(TargetFolder(cfg.folderAnnotation, cfg.folder, meta), FileName(cfg, meta, key));
  }

  /** Distinct keys of one resource never share a file. */
  lemma ComputePathInjective(cfg: Config, meta: ObjectMeta, k1: string, k2: string)
    ensures ComputePath(cfg, meta, k1) == ComputePath(cfg, meta, k2) <==> k1 == k2
  {
    if ComputePath(cfg, meta, k1) == ComputePath(cfg, meta, k2) {
      ComputePathKey(cfg, meta, k1, k2);
    }
  }

  lemma ComputePathKey(cfg: Config, meta: ObjectMeta, k1: string, k2: string)
    requires ComputePath(cfg, meta, k1) == ComputePath(cfg, meta, k2)
    ensures k1 == k2
  {
    var folder := TargetFolder(cfg.folderAnnotation, cfg.folder, meta);
    JoinInjective(folder, FileName(cfg, meta, k1), FileName(cfg, meta, k2));
    if cfg.uniqFilenames {
      var prefix := "namespace_" + meta.name + ".resource_" + meta.name + ".";
      assert FileName(cfg, meta, k1) == prefix + k1 && FileName(cfg, meta, k2) == prefix + k2;
      assert k1 == (prefix + k1)[|prefix|..] && k2 == (prefix + k2)[|prefix|..];
    }
  }

  /** With unique filenames, two resources of the same name in different namespaces still collide on every key. */
  lemma UniqueNameIgnoresNamespace(cfg: Config, m1: ObjectMeta, m2: ObjectMeta, key: string)
    requires m1.name == m2.name && m1.annotations == m2.annotations && m1.namespace != m2.namespace
    ensures ComputePath(cfg, m1, key) == ComputePath(cfg, m2, key)
  {
  }

  // ----- Content-diffing write (writeData) -----

  /** What `writeData` returns, and the disk it leaves; `failed` is a non-nil error. */
  datatype WriteResult = WriteResult(disk: Disk, changed: bool, failed: bool)

  /**
   * The second half of `writeData`, once the folder is there: a missing file is
   * created; an existing one is rewritten only when its bytes differ. A path
   * that cannot be read (a directory) compares as empty.
   */
  function WriteFileStep(d: Disk, path: Path, data: Bytes, mode: uint32): (r: WriteResult)
    ensures r.disk.dirs == d.dirs
    ensures r.changed && !r.failed ==> r.disk == d.Write(path, data, mode) && Differs(d.files, path, data)
    ensures !(r.changed && !r.failed) ==> r.disk == d
    ensures !r.failed ==> (path in r.disk.files && r.disk.files[path] == data) || (path in d.dirs && data == [])
    ensures d.CanWrite(path) ==> !r.failed && (r.changed <==> Differs(d.files, path, data))
    ensures d.Valid() ==> r.disk.Valid()
  {
    if !d.Exists(path) then
      WriteResult(if d.CanWrite(path) then d.Write(path, data, mode) else d, true, !d.CanWrite(path))
    else
      var current := if path in d.files then d.files[path] else [];
      if current == data then WriteResult(d, false, false)
      else WriteResult(if d.CanWrite(path) then d.Write(path, data, mode) else d, true, !d.CanWrite(path))
  }

  /**
   * One `writeData(path, data)` on disk `d`, as evidently intended: a missing
   * parent folder is created, then the file is written as WriteFileStep says.
   * A new file gets `mode`; a rewritten one keeps its permission bits.
   */
  function WriteStep(d: Disk, path: Path, data: Bytes, mode: uint32): (r: WriteResult)
    ensures r.disk.files == d.files || r.disk.files == d.files[path := data]
    ensures r.changed && !r.failed ==> r.disk.files == d.files[path := data] && Differs(d.files, path, data)
    ensures r.changed && !r.failed ==> r.disk.modes == if path in d.files then d.modes else d.modes[path := mode]
    ensures !(r.changed && !r.failed) ==> r.disk.files == d.files && r.disk.modes == d.modes
    ensures !r.failed ==> (path in r.disk.files && r.disk.files[path] == data) || (path in r.disk.dirs && data == [])
    ensures d.dirs <= r.disk.dirs
    ensures d.Valid() ==> r.disk.Valid()
  {
    var dir := Dir(path);
    WriteFileStep(if d.Exists(dir) then d else d.Mkdir(dir), path, data, mode)
  }

  /** Where the folder exists, the file ends up holding `data`, and the write reports a change iff the bytes were new. */
  lemma WriteStepLands(d: Disk, path: Path, data: Bytes, mode: uint32)
    requires d.Valid() && d.CanWrite(path)
    ensures !WriteStep(d, path, data, mode).failed
    ensures WriteStep(d, path, data, mode).disk.files == d.files[path := data]
    ensures WriteStep(d, path, data, mode).disk.dirs == d.dirs
    ensures WriteStep(d, path, data, mode).changed <==> Differs(d.files, path, data)
  {
    if path in d.files && d.files[path] == data {
      assert d.files[path := data] == d.files;
    }
  }

  /** Repeating an identical write reports no change and leaves the disk alone. */
  lemma WriteStepIdempotent(d: Disk, path: Path, data: Bytes, mode: uint32)
    requires d.Valid() && d.CanWrite(path)
    ensures var r := WriteStep(d, path, data, mode);
            WriteStep(r.disk, path, data, mode) == WriteResult(r.disk, false, false)
  {
    WriteStepLands(d, path, data, mode);
  }

  /**
   * The write lands whether or not the folder existed, as long as no file is in
   * the folder's place and the path itself is not a directory.
   */
  lemma WriteStepCreatesFolder(d: Disk, path: Path, data: Bytes, mode: uint32)
    requires d.Valid() && Dir(path) !in d.files && path !in d.dirs && Dir(path) != path
    ensures !WriteStep(d, path, data, mode).failed
    ensures WriteStep(d, path, data, mode).disk.files == d.files[path := data]
    ensures WriteStep(d, path, data, mode).disk.dirs == d.dirs + {Dir(path)}
    ensures WriteStep(d, path, data, mode).changed <==> Differs(d.files, path, data)
  {
    if !d.Exists(Dir(path)) {
      WriteStepLands(d.Mkdir(Dir(path)), path, data, mode);
    } else {
      assert d.dirs + {Dir(path)} == d.dirs;
      WriteStepLands(d, path, data, mode);
    }
  }

  /**
   * `writeData` as written: when the folder is missing, MkdirAll's result is
   * held in a shadowing `err`, and the outer `err` of the first Stat, which
   * still says "not exist", is returned. The folder is created, the file is not.
   */
  function WriteStepAsWritten(d: Disk, path: Path, data: Bytes, mode: uint32): (r: WriteResult)
    ensures !r.failed ==> r == WriteStep(d, path, data, mode)
    ensures !d.Exists(Dir(path)) ==> r.failed && !r.changed && r.disk.files == d.files && Dir(path) in r.disk.dirs
    ensures d.Valid() ==> r.disk.Valid()
  {
    var dir := Dir(path);
    if !d.Exists(dir) then WriteResult(d.Mkdir(dir), false, true)
    else WriteFileStep(d, path, data, mode)
  }

  /**
   * The first write of a ConfigMap into a folder that does not exist yet: as
   * written it only creates the folder and fails; as intended it writes the file.
   */
  lemma AsWrittenLosesFirstWrite(data: Bytes)
    ensures var d := Disk(map[], map[], {});
            var p := Join("/config", "app.conf");
            var asWritten := WriteStepAsWritten(d, p, data, 420);
            var intended := WriteStep(d, p, data, 420);
            && asWritten.failed && !asWritten.changed
            && p !in asWritten.disk.files && "/config" in asWritten.disk.dirs
            && !intended.failed && intended.changed
            && p in intended.disk.files && intended.disk.files[p] == data
  {
    var d := Disk(map[], map[], {});
    var p := Join("/config", "app.conf");
    SplitJoin("/config", "app.conf");
    WriteStepCreatesFolder(d, p, data, 420);
  }

  /** Where the folder exists, the code as written and as intended agree. */
  lemma AsWrittenAgreesWithFolder(d: Disk, path: Path, data: Bytes, mode: uint32)
    requires d.Exists(Dir(path))
    ensures WriteStepAsWritten(d, path, data, mode) == WriteStep(d, path, data, mode)
  {
  }

  // ----- A sequence of writes -----

  /** The disk so far, and whether any write so far reported a change without an error. */
  datatype Step = Step(disk: Disk, changed: bool)

  /** One iteration of the loops of `processData`: an error skips the key, a reported change sets the flag. */
  function Next(prev: Step, op: Op, mode: uint32): Step {
    match op
    case Skip => prev
    case Put(p, data) =>
      var r := WriteStep(prev.disk, p, data, mode);
      Step(r.disk, prev.changed || (r.changed && !r.failed))
  }

  function Apply(d: Disk, ops: seq<Op>, mode: uint32): (s: Step)
    ensures !s.changed ==> s.disk.files == d.files
    ensures d.dirs <= s.disk.dirs
    ensures d.Valid() ==> s.disk.Valid()
    decreases |ops|
  {
    if ops == [] then Step(d, false)
    else Next(Apply(d, ops[..|ops| - 1], mode), ops[|ops| - 1], mode)
  }

  lemma ApplySnoc(d: Disk, ops: seq<Op>, op: Op, mode: uint32)
    ensures Apply(d, ops + [op], mode) == Next(Apply(d, ops, mode), op, mode)
  {
    assert (ops + [op])[..|ops|] == ops;
  }

  /** Every Put can be written: its folder exists and it does not name a directory. */
  predicate Writable(d: Disk, ops: seq<Op>) {
    forall i :: 0 <= i < |ops| && ops[i].Put? ==> d.CanWrite(ops[i].path)
  }

  /** Where every folder exists, the diffing writes leave exactly what plain overwrites would. */
  lemma {:induction false} ApplyIsOverlay(d: Disk, ops: seq<Op>, mode: uint32)
    requires d.Valid() && Writable(d, ops)
    ensures Apply(d, ops, mode).disk.files == Overlay(d.files, ops)
    ensures Apply(d, ops, mode).disk.dirs == d.dirs
  {
    if ops != [] {
      var prefix := ops[..|ops| - 1];
      assert Writable(d, prefix) by {
        forall i | 0 <= i < |prefix| && prefix[i].Put? ensures d.CanWrite(prefix[i].path) {
          assert prefix[i] == ops[i];
        }
      }
      ApplyIsOverlay(d, prefix, mode);
      var prev := Apply(d, prefix, mode);
      if ops[|ops| - 1].Put? {
        WriteStepLands(prev.disk, ops[|ops| - 1].path, ops[|ops| - 1].data, mode);
      }
    }
  }

  /** A path no Put names keeps whether it exists and what it holds. */
  lemma {:induction false} ApplyIsolation(d: Disk, ops: seq<Op>, mode: uint32, p: Path)
    requires forall i :: 0 <= i < |ops| && ops[i].Put? ==> ops[i].path != p
    ensures p in Apply(d, ops, mode).disk.files <==> p in d.files
    ensures p in d.files ==> Apply(d, ops, mode).disk.files[p] == d.files[p]
  {
    if ops != [] {
      var prefix := ops[..|ops| - 1];
      forall i | 0 <= i < |prefix| && prefix[i].Put? ensures prefix[i].path != p {
        assert prefix[i] == ops[i];
      }
      ApplyIsolation(d, prefix, mode, p);
    }
  }

  /** Writes that all match the disk already change nothing. */
  lemma {:induction false} ApplyNoop(e: Disk, ops: seq<Op>, mode: uint32)
    requires e.Valid()
    requires forall i :: 0 <= i < |ops| && ops[i].Put? ==>
      e.CanWrite(ops[i].path) && ops[i].path in e.files && e.files[ops[i].path] == ops[i].data
    ensures Apply(e, ops, mode) == Step(e, false)
  {
    if ops != [] {
      var prefix := ops[..|ops| - 1];
      forall i | 0 <= i < |prefix| && prefix[i].Put?
        ensures e.CanWrite(prefix[i].path) && prefix[i].path in e.files && e.files[prefix[i].path] == prefix[i].data
      {
        assert prefix[i] == ops[i];
      }
      ApplyNoop(e, prefix, mode);
    }
  }

  /** Where every folder exists and the writes agree, running the same writes again changes nothing. */
  lemma ApplyIdempotent(d: Disk, ops: seq<Op>, mode: uint32)
    requires d.Valid() && Writable(d, ops) && Agree(ops)
    ensures var s := Apply(d, ops, mode);
            Apply(s.disk, ops, mode) == Step(s.disk, false)
  {
    var s := Apply(d, ops, mode);
    ApplyIsOverlay(d, ops, mode);
    forall i | 0 <= i < |ops| && ops[i].Put?
      ensures s.disk.CanWrite(ops[i].path) && ops[i].path in s.disk.files && s.disk.files[ops[i].path] == ops[i].data
    {
      LastWriteAgree(ops, i);
      OverlayAt(d.files, ops, ops[i].path);
    }
    ApplyNoop(s.disk, ops, mode);
  }

  /** The file at `p` does not already hold `data`. */
  predicate Differs(files: map<Path, Bytes>, p: Path, data: Bytes) {
    p !in files || files[p] != data
  }

  /** Some Put brings bytes that `files` does not already hold. */
  predicate SomeDiffers(files: map<Path, Bytes>, ops: seq<Op>) {
    exists i :: 0 <= i < |ops| && ops[i].Put? && Differs(files, ops[i].path, ops[i].data)
  }

  lemma SomeDiffersSnoc(files: map<Path, Bytes>, ops: seq<Op>, op: Op)
    ensures SomeDiffers(files, ops + [op]) <==> SomeDiffers(files, ops) || (op.Put? && Differs(files, op.path, op.data))
  {
    var all := ops + [op];
    if SomeDiffers(files, all) {
      var i :| 0 <= i < |all| && all[i].Put? && Differs(files, all[i].path, all[i].data);
      if i < |ops| {
        assert all[i] == ops[i];
      }
    }
    if SomeDiffers(files, ops) {
      var i :| 0 <= i < |ops| && ops[i].Put? && Differs(files, ops[i].path, ops[i].data);
      assert all[i] == ops[i];
    }
    if op.Put? && Differs(files, op.path, op.data) {
      assert all[|ops|] == op;
    }
  }

  lemma AgreePrefix(ops: seq<Op>, n: nat)
    requires Agree(ops) && n <= |ops|
    ensures Agree(ops[..n])
  {
    var prefix := ops[..n];
    forall a, b | 0 <= a < b < |prefix| && prefix[a].Put? && prefix[b].Put? && prefix[a].path == prefix[b].path
      ensures prefix[a].data == prefix[b].data
    {
      assert prefix[a] == ops[a] && prefix[b] == ops[b];
    }
  }

  /** With agreeing writes, a Put whose path was already written brings nothing new beyond the earlier Put. */
  lemma RepeatedPutAddsNothing(d: Disk, prefix: seq<Op>, p: Path, data: Bytes)
    requires Agree(prefix + [Put(p, data)]) && LastWrite(prefix, p).Some?
    ensures LastWrite(prefix, p).value == data
    ensures Differs(d.files, p, data) ==> SomeDiffers(d.files, prefix)
  {
    var ops := prefix + [Put(p, data)];
    LastWriteIsPut(prefix, p);
    var j :| 0 <= j < |prefix| && prefix[j] == Put(p, LastWrite(prefix, p).value);
    assert ops[j] == prefix[j] && ops[|prefix|] == Put(p, data);
  }

  /** Where every folder exists and the writes agree, a change is reported iff some write brings new bytes. */
  lemma {:induction false} ApplyChanged(d: Disk, ops: seq<Op>, mode: uint32)
    requires d.Valid() && Writable(d, ops)
    ensures Apply(d, ops, mode).changed <==> SomeDiffers(d.files, ops)
  {
    if ops != [] {
      var n := |ops| - 1;
      var prefix := ops[..n];
      assert ops == prefix + [ops[n]];
      assert Writable(d, prefix) by {
        forall i | 0 <= i < |prefix| && prefix[i].Put? ensures d.CanWrite(prefix[i].path) {
          assert prefix[i] == ops[i];
        }
      }
      ApplyChanged(d, prefix, mode);
      ApplyIsOverlay(d, prefix, mode);
      SomeDiffersSnoc(d.files, prefix, ops[n]);
      var prev := Apply(d, prefix, mode);
      if ops[n].Put? && !prev.changed {
        WriteStepLands(prev.disk, ops[n].path, ops[n].data, mode);
      }
    }
  }

  /** Once a change is reported, later writes keep the flag set. */
  lemma {:induction false} ApplyChangedSticks(d: Disk, a: seq<Op>, b: seq<Op>, mode: uint32)
    requires Apply(d, a, mode).changed
    ensures Apply(d, a + b, mode).changed
  {
    if b == [] {
      assert a + b == a;
    } else {
      var init := b[..|b| - 1];
      ApplyChangedSticks(d, a, init, mode);
      assert a + b == (a + init) + [b[|b| - 1]];
      ApplySnoc(d, a + init, b[|b| - 1], mode);
    }
  }

  // ----- processData -----

  /** What the handler means to write for a key: the bytes, or None for a value it skips. */
  type Content = map<string, Option<Bytes>>

  /** Text values are written as they are. */
  function TextContent(text: Payload): (c: Content)
    ensures c.Keys == text.Keys
  {
    map k | k in text :: Some(text[k])
  }

  /** Binary values are base64 text; one that does not decode is skipped. */
  function BinaryContent(binary: Payload): (c: Content)
    ensures c.Keys == binary.Keys
  {
    map k | k in binary :: Base64.Decode(binary[k])
  }

  function KeyOp(cfg: Config, meta: ObjectMeta, key: string, c: Option<Bytes>): Op {
    match c
    case Some(v) => Put(ComputePath(cfg, meta, key), v)
    case None => Skip
  }

  /** The writes of one loop of `processData`, in the iteration order `keys`. */
  function KeyOps(cfg: Config, meta: ObjectMeta, keys: seq<string>, content: Content): (ops: seq<Op>)
    requires forall i :: 0 <= i < |keys| ==> keys[i] in content
    ensures |ops| == |keys|
    ensures forall i :: 0 <= i < |keys| ==> ops[i] == KeyOp(cfg, meta, keys[i], content[keys[i]])
  {
    seq(|keys|, i requires 0 <= i < |keys| => KeyOp(cfg, meta, keys[i], content[keys[i]]))
  }

  lemma KeyOpsSnoc(cfg: Config, meta: ObjectMeta, keys: seq<string>, content: Content, n: nat)
    requires n < |keys| && forall i :: 0 <= i < |keys| ==> keys[i] in content
    ensures KeyOps(cfg, meta, keys[..n + 1], content) ==
      KeyOps(cfg, meta, keys[..n], content) + [KeyOp(cfg, meta, keys[n], content[keys[n]])]
  {
  }

  /** The last write a loop makes to a key's path is that key's content. */
  lemma {:induction false} LastWriteKeyOps(cfg: Config, meta: ObjectMeta, keys: seq<string>, content: Content, key: string)
    requires forall i :: 0 <= i < |keys| ==> keys[i] in content
    ensures LastWrite(KeyOps(cfg, meta, keys, content), ComputePath(cfg, meta, key)) ==
      if key in keys then content[key] else None
  {
    if keys != [] {
      var n := |keys| - 1;
      var ops := KeyOps(cfg, meta, keys, content);
      assert ops[..n] == KeyOps(cfg, meta, keys[..n], content);
      LastWriteKeyOps(cfg, meta, keys[..n], content, key);
      assert keys == keys[..n] + [keys[n]];
      var last := keys[n];
      ComputePathInjective(cfg, meta, last, key);
    }
  }

  /** All the writes of `processData`: the text loop, then the binary loop. */
  function ProcessOps(cfg: Config, meta: ObjectMeta, tk: seq<string>, text: Payload, bk: seq<string>, binary: Payload): seq<Op>
    requires Enumerates(tk, text) && Enumerates(bk, binary)
  {
    KeyOps(cfg, meta, tk, TextContent(text)) + KeyOps(cfg, meta, bk, BinaryContent(binary))
  }

  /** `processData` on disk `d`: the disk it leaves and the value it returns. */
  function ProcessSpec(cfg: Config, d: Disk, meta: ObjectMeta, tk: seq<string>, text: Payload, bk: seq<string>, binary: Payload): (s: Step)
    requires Enumerates(tk, text) && Enumerates(bk, binary)
    ensures !s.changed ==> s.disk.files == d.files
    ensures d.dirs <= s.disk.dirs
    ensures d.Valid() ==> s.disk.Valid()
  {
    Apply(d, ProcessOps(cfg, meta, tk, text, bk, binary), cfg.fileMode)
  }

  /** The bytes an event means for `key`: a binary value that decodes wins over a text value. */
  function Expected(text: Payload, binary: Payload, key: string): Option<Bytes> {
    if key in binary && Base64.Decode(binary[key]).Some? then Base64.Decode(binary[key])
    else if key in text then Some(text[key])
    else None
  }

  lemma LastWriteProcessOps(cfg: Config, meta: ObjectMeta, tk: seq<string>, text: Payload, bk: seq<string>, binary: Payload, key: string)
    requires Enumerates(tk, text) && Enumerates(bk, binary)
    ensures LastWrite(ProcessOps(cfg, meta, tk, text, bk, binary), ComputePath(cfg, meta, key)) == Expected(text, binary, key)
  {
    var p := ComputePath(cfg, meta, key);
    LastWriteAppend(KeyOps(cfg, meta, tk, TextContent(text)), KeyOps(cfg, meta, bk, BinaryContent(binary)), p);
    LastWriteKeyOps(cfg, meta, tk, TextContent(text), key);
    LastWriteKeyOps(cfg, meta, bk, BinaryContent(binary), key);
  }

  /**
   * What a resource needs for every write to land: its target folder exists,
   * no target path is a directory, and no key or name holds a '/'.
   */
  predicate Materializable(cfg: Config, d: Disk, meta: ObjectMeta, text: Payload, binary: Payload) {
    && TargetFolder(cfg.folderAnnotation, cfg.folder, meta) in d.dirs
    && '/' !in meta.name
    && (forall k :: k in text ==> '/' !in k && ComputePath(cfg, meta, k) !in d.dirs)
    && (forall k :: k in binary ==> '/' !in k && ComputePath(cfg, meta, k) !in d.dirs)
  }

  lemma KeyOpsWritable(cfg: Config, d: Disk, meta: ObjectMeta, keys: seq<string>, content: Content)
    requires forall i :: 0 <= i < |keys| ==> keys[i] in content
    requires TargetFolder(cfg.folderAnnotation, cfg.folder, meta) in d.dirs && '/' !in meta.name
    requires forall i :: 0 <= i < |keys| ==> '/' !in keys[i] && ComputePath(cfg, meta, keys[i]) !in d.dirs
    ensures Writable(d, KeyOps(cfg, meta, keys, content))
  {
    forall i | 0 <= i < |keys| {
      ComputePathParts(cfg, meta, keys[i]);
    }
  }

  lemma AppendWritable(d: Disk, a: seq<Op>, b: seq<Op>)
    requires Writable(d, a) && Writable(d, b)
    ensures Writable(d, a + b)
  {
    var ops := a + b;
    forall i | 0 <= i < |ops| && ops[i].Put? ensures d.CanWrite(ops[i].path) {
      if i < |a| {
        assert ops[i] == a[i];
      } else {
        assert ops[i] == b[i - |a|];
      }
    }
  }

  lemma ProcessWritable(cfg: Config, d: Disk, meta: ObjectMeta, tk: seq<string>, text: Payload, bk: seq<string>, binary: Payload)
    requires Enumerates(tk, text) && Enumerates(bk, binary) && Materializable(cfg, d, meta, text, binary)
    ensures Writable(d, ProcessOps(cfg, meta, tk, text, bk, binary))
  {
    KeyOpsWritable(cfg, d, meta, tk, TextContent(text));
    KeyOpsWritable(cfg, d, meta, bk, BinaryContent(binary));
    AppendWritable(d, KeyOps(cfg, meta, tk, TextContent(text)), KeyOps(cfg, meta, bk, BinaryContent(binary)));
  }

  /**
   * Every key of the event ends up holding its expected bytes; every other key
   * of the resource keeps what it had.
   */
  lemma ProcessLands(cfg: Config, d: Disk, meta: ObjectMeta, tk: seq<string>, text: Payload, bk: seq<string>, binary: Payload, key: string)
    requires d.Valid() && Enumerates(tk, text) && Enumerates(bk, binary) && Materializable(cfg, d, meta, text, binary)
    ensures var f := ProcessSpec(cfg, d, meta, tk, text, bk, binary).disk.files;
            var p := ComputePath(cfg, meta, key);
            && (Expected(text, binary, key).Some? ==> p in f && f[p] == Expected(text, binary, key).value)
            && (Expected(text, binary, key).None? ==> (p in f <==> p in d.files) && (p in d.files ==> f[p] == d.files[p]))
  {
    ProcessWritable(cfg, d, meta, tk, text, bk, binary);
    ApplyIsOverlay(d, ProcessOps(cfg, meta, tk, text, bk, binary), cfg.fileMode);
    LastWriteProcessOps(cfg, meta, tk, text, bk, binary, key);
    OverlayAt(d.files, ProcessOps(cfg, meta, tk, text, bk, binary), ComputePath(cfg, meta, key));
  }

  /** The text map of the "overwritten" test scenario. */
  function ScenarioText(): Payload {
    map["some-key" := Ascii("value"), "some-key-not-overwritten" := Ascii("important-value")]
  }

  /** Its binary map: three keys, each "ZGVtbw==" ("demo"), one shared with the text map. */
  function ScenarioBinary(): Payload {
    var demo := Ascii("ZGVtbw==");
    map["some-key" := demo, "some-key-2" := demo, "some-key-3.txt" := demo]
  }

  /** What the scenario means for each key: "demo" for the binary keys, the text for the rest. */
  lemma ScenarioExpected(other: string)
    requires other !in ScenarioText() && other !in ScenarioBinary()
    ensures Expected(ScenarioText(), ScenarioBinary(), "some-key") == Some(Ascii("demo"))
    ensures Expected(ScenarioText(), ScenarioBinary(), "some-key-2") == Some(Ascii("demo"))
    ensures Expected(ScenarioText(), ScenarioBinary(), "some-key-3.txt") == Some(Ascii("demo"))
    ensures Expected(ScenarioText(), ScenarioBinary(), "some-key-not-overwritten") == Some(Ascii("important-value"))
    ensures Expected(ScenarioText(), ScenarioBinary(), other) == None
  {
    Base64.DecodeExamples();
    assert "some-key-not-overwritten" !in ScenarioBinary();
  }

  /**
   * The "overwritten" scenario: "some-key" is in both maps and ends up "demo",
   * its text-only sibling keeps its text value, and the other binary keys are
   * decoded; a key of neither map is not touched.
   */
  lemma OverwrittenScenario(cfg: Config, d: Disk, meta: ObjectMeta, tk: seq<string>, bk: seq<string>, other: string)
    requires d.Valid() && Enumerates(tk, ScenarioText()) && Enumerates(bk, ScenarioBinary())
    requires Materializable(cfg, d, meta, ScenarioText(), ScenarioBinary())
    requires other !in ScenarioText() && other !in ScenarioBinary()
    ensures var f := ProcessSpec(cfg, d, meta, tk, ScenarioText(), bk, ScenarioBinary()).disk.files;
            var demo, important := Ascii("demo"), Ascii("important-value");
            && ComputePath(cfg, meta, "some-key") in f && f[ComputePath(cfg, meta, "some-key")] == demo
            && ComputePath(cfg, meta, "some-key-2") in f && f[ComputePath(cfg, meta, "some-key-2")] == demo
            && ComputePath(cfg, meta, "some-key-3.txt") in f && f[ComputePath(cfg, meta, "some-key-3.txt")] == demo
            && ComputePath(cfg, meta, "some-key-not-overwritten") in f
            && f[ComputePath(cfg, meta, "some-key-not-overwritten")] == important
            && (ComputePath(cfg, meta, other) in f <==> ComputePath(cfg, meta, other) in d.files)
  {
    ScenarioExpected(other);
    ProcessLands(cfg, d, meta, tk, ScenarioText(), bk, ScenarioBinary(), "some-key");
    ProcessLands(cfg, d, meta, tk, ScenarioText(), bk, ScenarioBinary(), "some-key-2");
    ProcessLands(cfg, d, meta, tk, ScenarioText(), bk, ScenarioBinary(), "some-key-3.txt");
    ProcessLands(cfg, d, meta, tk, ScenarioText(), bk, ScenarioBinary(), "some-key-not-overwritten");
    ProcessLands(cfg, d, meta, tk, ScenarioText(), bk, ScenarioBinary(), other);
  }

  /** No Put of `ops` targets `p`. */
  predicate Avoids(ops: seq<Op>, p: Path) {
    forall i :: 0 <= i < |ops| && ops[i].Put? ==> ops[i].path != p
  }

  lemma KeyOpsAvoid(cfg: Config, meta: ObjectMeta, keys: seq<string>, content: Content, p: Path)
    requires forall i :: 0 <= i < |keys| ==> keys[i] in content
    requires forall i :: 0 <= i < |keys| ==> ComputePath(cfg, meta, keys[i]) != p
    ensures Avoids(KeyOps(cfg, meta, keys, content), p)
  {
  }

  lemma AppendAvoids(a: seq<Op>, b: seq<Op>, p: Path)
    requires Avoids(a, p) && Avoids(b, p)
    ensures Avoids(a + b, p)
  {
    var ops := a + b;
    forall i | 0 <= i < |ops| && ops[i].Put? ensures ops[i].path != p {
      if i >= |a| {
        assert ops[i] == b[i - |a|];
      }
    }
  }

  /** A path that is not the target of any key of the event is left alone, whatever the folders. */
  lemma ProcessIsolation(cfg: Config, d: Disk, meta: ObjectMeta, tk: seq<string>, text: Payload, bk: seq<string>, binary: Payload, p: Path)
    requires Enumerates(tk, text) && Enumerates(bk, binary)
    requires forall k :: k in text || k in binary ==> ComputePath(cfg, meta, k) != p
    ensures var f := ProcessSpec(cfg, d, meta, tk, text, bk, binary).disk.files;
            (p in f <==> p in d.files) && (p in d.files ==> f[p] == d.files[p])
  {
    var a := KeyOps(cfg, meta, tk, TextContent(text));
    var b := KeyOps(cfg, meta, bk, BinaryContent(binary));
    KeyOpsAvoid(cfg, meta, tk, TextContent(text), p);
    KeyOpsAvoid(cfg, meta, bk, BinaryContent(binary), p);
    AppendAvoids(a, b, p);
    ApplyIsolation(d, a + b, cfg.fileMode, p);
  }

  /** Distinct keys: no two Puts share a path. */
  predicate DistinctPaths(ops: seq<Op>) {
    forall i, j :: 0 <= i < j < |ops| && ops[i].Put? && ops[j].Put? ==> ops[i].path != ops[j].path
  }

  lemma KeyOpsDistinct(cfg: Config, meta: ObjectMeta, keys: seq<string>, content: Content)
    requires forall i :: 0 <= i < |keys| ==> keys[i] in content
    requires forall i, j :: 0 <= i < j < |keys| ==> keys[i] != keys[j]
    ensures DistinctPaths(KeyOps(cfg, meta, keys, content))
  {
    forall i, j | 0 <= i < j < |keys| {
      ComputePathInjective(cfg, meta, keys[i], keys[j]);
    }
  }

  /** Writes to one path within `a` + `b` all carry the same bytes. */
  lemma AppendAgree(a: seq<Op>, b: seq<Op>)
    requires DistinctPaths(a) && DistinctPaths(b)
    requires forall i, j :: 0 <= i < |a| && 0 <= j < |b| && a[i].Put? && b[j].Put? && a[i].path == b[j].path ==> a[i].data == b[j].data
    ensures Agree(a + b)
  {
    var ops := a + b;
    forall i | 0 <= i < |a| ensures ops[i] == a[i] {
    }
    forall j | 0 <= j < |b| ensures ops[|a| + j] == b[j] {
    }
  }

  /**
   * Every key in both maps has a binary value that does not decode, or that
   * decodes to exactly its text value: the two loops never disagree on a file.
   */
  predicate SharedKeysAgree(text: Payload, binary: Payload) {
    forall k :: k in text && k in binary ==> Base64.Decode(binary[k]).None? || Base64.Decode(binary[k]) == Some(text[k])
  }

  lemma ProcessAgree(cfg: Config, meta: ObjectMeta, tk: seq<string>, text: Payload, bk: seq<string>, binary: Payload)
    requires Enumerates(tk, text) && Enumerates(bk, binary) && SharedKeysAgree(text, binary)
    ensures Agree(ProcessOps(cfg, meta, tk, text, bk, binary))
  {
    var a := KeyOps(cfg, meta, tk, TextContent(text));
    var b := KeyOps(cfg, meta, bk, BinaryContent(binary));
    KeyOpsDistinct(cfg, meta, tk, TextContent(text));
    KeyOpsDistinct(cfg, meta, bk, BinaryContent(binary));
    forall i, j | 0 <= i < |a| && 0 <= j < |b| && a[i].Put? && b[j].Put? && a[i].path == b[j].path ensures a[i].data == b[j].data {
      assert tk[i] in text && bk[j] in binary;
      ComputePathInjective(cfg, meta, tk[i], bk[j]);
    }
    AppendAgree(a, b);
  }

  /**
   * Processing an event twice in a row: the second run writes nothing and
   * reports no change, so the callback does not fire again, whatever order the
   * second run visits the keys in. Needs every key in both maps to agree
   * (see SharedKeyRepeatsChange for the keys that do not).
   */
  lemma ProcessIdempotent(cfg: Config, d: Disk, meta: ObjectMeta, tk: seq<string>, text: Payload, bk: seq<string>, binary: Payload,
                          tk2: seq<string>, bk2: seq<string>)
    requires d.Valid() && Enumerates(tk, text) && Enumerates(bk, binary)
    requires Enumerates(tk2, text) && Enumerates(bk2, binary)
    requires Materializable(cfg, d, meta, text, binary) && SharedKeysAgree(text, binary)
    ensures var s := ProcessSpec(cfg, d, meta, tk, text, bk, binary);
            ProcessSpec(cfg, s.disk, meta, tk2, text, bk2, binary) == Step(s.disk, false)
  {
    var s := ProcessSpec(cfg, d, meta, tk, text, bk, binary);
    var ops2 := ProcessOps(cfg, meta, tk2, text, bk2, binary);
    ProcessWritable(cfg, d, meta, tk, text, bk, binary);
    ApplyIsOverlay(d, ProcessOps(cfg, meta, tk, text, bk, binary), cfg.fileMode);
    ProcessWritable(cfg, d, meta, tk2, text, bk2, binary);
    forall i | 0 <= i < |ops2| && ops2[i].Put?
      ensures s.disk.CanWrite(ops2[i].path) && ops2[i].path in s.disk.files && s.disk.files[ops2[i].path] == ops2[i].data
    {
      ProcessOpAt(cfg, meta, tk2, text, bk2, binary, i);
      var k := if i < |tk2| then tk2[i] else bk2[i - |tk2|];
      ProcessLands(cfg, d, meta, tk, text, bk, binary, k);
    }
    ApplyNoop(s.disk, ops2, cfg.fileMode);
  }

  /** Some key of the event brings bytes its file does not already hold. */
  ghost predicate SomeKeyDiffers(cfg: Config, d: Disk, meta: ObjectMeta, text: Payload, binary: Payload) {
    exists k :: Expected(text, binary, k).Some? && Differs(d.files, ComputePath(cfg, meta, k), Expected(text, binary, k).value)
  }

  /** Each Put of `processData` writes some key's expected bytes to that key's path. */
  lemma ProcessOpAt(cfg: Config, meta: ObjectMeta, tk: seq<string>, text: Payload, bk: seq<string>, binary: Payload, i: nat)
    requires Enumerates(tk, text) && Enumerates(bk, binary) && SharedKeysAgree(text, binary)
    requires i < |ProcessOps(cfg, meta, tk, text, bk, binary)| && ProcessOps(cfg, meta, tk, text, bk, binary)[i].Put?
    ensures var k := if i < |tk| then tk[i] else bk[i - |tk|];
            && Expected(text, binary, k).Some?
            && ProcessOps(cfg, meta, tk, text, bk, binary)[i] == Put(ComputePath(cfg, meta, k), Expected(text, binary, k).value)
  {
    var a := KeyOps(cfg, meta, tk, TextContent(text));
    var b := KeyOps(cfg, meta, bk, BinaryContent(binary));
    if i < |tk| {
      var k := tk[i];
      assert (a + b)[i] == a[i] == Put(ComputePath(cfg, meta, k), text[k]);
      assert Expected(text, binary, k) == Some(text[k]) by {
        if k in binary {
          assert Base64.Decode(binary[k]).None? || Base64.Decode(binary[k]) == Some(text[k]);
        }
      }
    } else {
      assert (a + b)[i] == b[i - |tk|];
    }
  }

  /** Each key with expected bytes has a Put of them in `processData`. */
  lemma ProcessOpOf(cfg: Config, meta: ObjectMeta, tk: seq<string>, text: Payload, bk: seq<string>, binary: Payload, k: string)
    requires Enumerates(tk, text) && Enumerates(bk, binary) && Expected(text, binary, k).Some?
    ensures exists i :: 0 <= i < |ProcessOps(cfg, meta, tk, text, bk, binary)| &&
              ProcessOps(cfg, meta, tk, text, bk, binary)[i] == Put(ComputePath(cfg, meta, k), Expected(text, binary, k).value)
  {
    var a := KeyOps(cfg, meta, tk, TextContent(text));
    var b := KeyOps(cfg, meta, bk, BinaryContent(binary));
    assert ProcessOps(cfg, meta, tk, text, bk, binary) == a + b;
    if k in binary && Base64.Decode(binary[k]).Some? {
      var j :| 0 <= j < |bk| && bk[j] == k;
      assert BinaryContent(binary)[k] == Base64.Decode(binary[k]);
      assert (a + b)[|a| + j] == b[j] == Put(ComputePath(cfg, meta, k), Expected(text, binary, k).value);
    } else {
      var j :| 0 <= j < |tk| && tk[j] == k;
      assert (a + b)[j] == a[j] == Put(ComputePath(cfg, meta, k), Expected(text, binary, k).value);
    }
  }

  /**
   * `processData` reports a change exactly when some key of the event brings
   * bytes its file does not already hold.
   */
  lemma ProcessChanged(cfg: Config, d: Disk, meta: ObjectMeta, tk: seq<string>, text: Payload, bk: seq<string>, binary: Payload)
    requires d.Valid() && Enumerates(tk, text) && Enumerates(bk, binary)
    requires Materializable(cfg, d, meta, text, binary) && SharedKeysAgree(text, binary)
    ensures ProcessSpec(cfg, d, meta, tk, text, bk, binary).changed <==> SomeKeyDiffers(cfg, d, meta, text, binary)
  {
    var ops := ProcessOps(cfg, meta, tk, text, bk, binary);
    ProcessWritable(cfg, d, meta, tk, text, bk, binary);
    ProcessAgree(cfg, meta, tk, text, bk, binary);
    ApplyChanged(d, ops, cfg.fileMode);
    if SomeDiffers(d.files, ops) {
      var i :| 0 <= i < |ops| && ops[i].Put? && Differs(d.files, ops[i].path, ops[i].data);
      ProcessOpAt(cfg, meta, tk, text, bk, binary, i);
    }
    if SomeKeyDiffers(cfg, d, meta, text, binary) {
      var k :| Expected(text, binary, k).Some? && Differs(d.files, ComputePath(cfg, meta, k), Expected(text, binary, k).value);
      ProcessOpOf(cfg, meta, tk, text, bk, binary, k);
    }
  }

  /** Some text value, or some binary value that decodes, differs from what its key's file holds. */
  ghost predicate SomeValueDiffers(cfg: Config, d: Disk, meta: ObjectMeta, text: Payload, binary: Payload) {
    || (exists k :: k in text && Differs(d.files, ComputePath(cfg, meta, k), text[k]))
    || (exists k :: k in binary && Base64.Decode(binary[k]).Some? && Differs(d.files, ComputePath(cfg, meta, k), Base64.Decode(binary[k]).value))
  }

  /**
   * `processData` reports a change exactly when some text value, or some
   * decodable binary value, differs from what its file held before the event;
   * shared keys need not agree.
   */
  lemma ProcessChangedAnyValue(cfg: Config, d: Disk, meta: ObjectMeta, tk: seq<string>, text: Payload, bk: seq<string>, binary: Payload)
    requires d.Valid() && Enumerates(tk, text) && Enumerates(bk, binary) && Materializable(cfg, d, meta, text, binary)
    ensures ProcessSpec(cfg, d, meta, tk, text, bk, binary).changed <==> SomeValueDiffers(cfg, d, meta, text, binary)
  {
    ProcessWritable(cfg, d, meta, tk, text, bk, binary);
    ApplyChanged(d, ProcessOps(cfg, meta, tk, text, bk, binary), cfg.fileMode);
    if SomeDiffers(d.files, ProcessOps(cfg, meta, tk, text, bk, binary)) {
      DifferingOpIsValue(cfg, d, meta, tk, text, bk, binary);
    }
    if SomeValueDiffers(cfg, d, meta, text, binary) {
      DifferingValueIsOp(cfg, d, meta, tk, text, bk, binary);
    }
  }

  lemma DifferingOpIsValue(cfg: Config, d: Disk, meta: ObjectMeta, tk: seq<string>, text: Payload, bk: seq<string>, binary: Payload)
    requires Enumerates(tk, text) && Enumerates(bk, binary) && SomeDiffers(d.files, ProcessOps(cfg, meta, tk, text, bk, binary))
    ensures SomeValueDiffers(cfg, d, meta, text, binary)
  {
    var ops := ProcessOps(cfg, meta, tk, text, bk, binary);
    var i :| 0 <= i < |ops| && ops[i].Put? && Differs(d.files, ops[i].path, ops[i].data);
    ProcessOpValue(cfg, meta, tk, text, bk, binary, i);
    if i < |tk| {
      var k := tk[i];
      assert k in text && Differs(d.files, ComputePath(cfg, meta, k), text[k]);
    } else {
      var k := bk[i - |tk|];
      assert k in binary && Base64.Decode(binary[k]).Some? && Differs(d.files, ComputePath(cfg, meta, k), Base64.Decode(binary[k]).value);
    }
  }

  /** The i-th step of `processData` writes a text value, or a binary value as it decodes, to its key's path. */
  lemma ProcessOpValue(cfg: Config, meta: ObjectMeta, tk: seq<string>, text: Payload, bk: seq<string>, binary: Payload, i: nat)
    requires Enumerates(tk, text) && Enumerates(bk, binary) && i < |ProcessOps(cfg, meta, tk, text, bk, binary)|
    ensures i < |tk| ==> tk[i] in text && ProcessOps(cfg, meta, tk, text, bk, binary)[i] == Put(ComputePath(cfg, meta, tk[i]), text[tk[i]])
    ensures i >= |tk| ==>
              bk[i - |tk|] in binary &&
              ProcessOps(cfg, meta, tk, text, bk, binary)[i] == KeyOp(cfg, meta, bk[i - |tk|], Base64.Decode(binary[bk[i - |tk|]]))
  {
    var a := KeyOps(cfg, meta, tk, TextContent(text));
    var b := KeyOps(cfg, meta, bk, BinaryContent(binary));
    if i < |tk| {
      assert (a + b)[i] == a[i];
    } else {
      assert (a + b)[i] == b[i - |tk|];
    }
  }

  lemma DifferingValueIsOp(cfg: Config, d: Disk, meta: ObjectMeta, tk: seq<string>, text: Payload, bk: seq<string>, binary: Payload)
    requires Enumerates(tk, text) && Enumerates(bk, binary) && SomeValueDiffers(cfg, d, meta, text, binary)
    ensures SomeDiffers(d.files, ProcessOps(cfg, meta, tk, text, bk, binary))
  {
    var a := KeyOps(cfg, meta, tk, TextContent(text));
    var b := KeyOps(cfg, meta, bk, BinaryContent(binary));
    var ops := a + b;
    if exists k :: k in text && Differs(d.files, ComputePath(cfg, meta, k), text[k]) {
      var k :| k in text && Differs(d.files, ComputePath(cfg, meta, k), text[k]);
      var j :| 0 <= j < |tk| && tk[j] == k;
      assert ops[j] == a[j];
    } else {
      var k :| k in binary && Base64.Decode(binary[k]).Some? && Differs(d.files, ComputePath(cfg, meta, k), Base64.Decode(binary[k]).value);
      var j :| 0 <= j < |bk| && bk[j] == k;
      assert ops[|tk| + j] == b[j];
    }
  }

  /**
   * A key in both maps whose binary value decodes to bytes other than its text
   * value: after one run, a second run, visiting the keys in any order, still
   * reports a change, because the text loop overwrites the decoded bytes before
   * the binary loop puts them back.
   */
  lemma SharedKeyRepeatsChange(cfg: Config, d: Disk, meta: ObjectMeta, tk: seq<string>, text: Payload, bk: seq<string>, binary: Payload,
                               tk2: seq<string>, bk2: seq<string>, key: string)
    requires d.Valid() && Enumerates(tk, text) && Enumerates(bk, binary) && Materializable(cfg, d, meta, text, binary)
    requires Enumerates(tk2, text) && Enumerates(bk2, binary)
    requires key in text && key in binary && Base64.Decode(binary[key]) != Some(text[key]) && Base64.Decode(binary[key]).Some?
    ensures var s := ProcessSpec(cfg, d, meta, tk, text, bk, binary);
            ProcessSpec(cfg, s.disk, meta, tk2, text, bk2, binary).changed
  {
    var s := ProcessSpec(cfg, d, meta, tk, text, bk, binary);
    var a := KeyOps(cfg, meta, tk2, TextContent(text));
    var b := KeyOps(cfg, meta, bk2, BinaryContent(binary));
    var p := ComputePath(cfg, meta, key);
    ProcessLands(cfg, d, meta, tk, text, bk, binary, key);
    ProcessWritable(cfg, d, meta, tk, text, bk, binary);
    ApplyIsOverlay(d, ProcessOps(cfg, meta, tk, text, bk, binary), cfg.fileMode);
    var e := s.disk;
    KeyOpsWritable(cfg, e, meta, tk2, TextContent(text));
    KeyOpsDistinct(cfg, meta, tk2, TextContent(text));
    ApplyChanged(e, a, cfg.fileMode);
    var j :| 0 <= j < |tk2| && tk2[j] == key;
    assert a[j] == Put(p, text[key]) && Differs(e.files, p, text[key]);
    ApplyChangedSticks(e, a, b, cfg.fileMode);
  }

  /**
   * Where every write lands, repeating an event, in any key order, reports no
   * change exactly when every key in both maps agrees.
   */
  lemma RepeatIsQuietIff(cfg: Config, d: Disk, meta: ObjectMeta, tk: seq<string>, text: Payload, bk: seq<string>, binary: Payload,
                         tk2: seq<string>, bk2: seq<string>)
    requires d.Valid() && Enumerates(tk, text) && Enumerates(bk, binary) && Materializable(cfg, d, meta, text, binary)
    requires Enumerates(tk2, text) && Enumerates(bk2, binary)
    ensures var s := ProcessSpec(cfg, d, meta, tk, text, bk, binary);
            !ProcessSpec(cfg, s.disk, meta, tk2, text, bk2, binary).changed <==> SharedKeysAgree(text, binary)
  {
    if SharedKeysAgree(text, binary) {
      ProcessIdempotent(cfg, d, meta, tk, text, bk, binary, tk2, bk2);
    } else {
      var k :| k in text && k in binary && !(Base64.Decode(binary[k]).None? || Base64.Decode(binary[k]) == Some(text[k]));
      SharedKeyRepeatsChange(cfg, d, meta, tk, text, bk, binary, tk2, bk2, k);
    }
  }

  /**
   * A resource whose annotated folder does not exist yet: the folder is
   * created and the file is written, reported as a change when it is new.
   */
  lemma MissingFolderIsCreated(cfg: Config, d: Disk, meta: ObjectMeta, key: string, value: Bytes)
    requires d.Valid() && '/' !in key && '/' !in meta.name
    requires !d.Exists(TargetFolder(cfg.folderAnnotation, cfg.folder, meta)) && ComputePath(cfg, meta, key) !in d.dirs
    ensures var s := ProcessSpec(cfg, d, meta, [key], map[key := value], [], map[]);
            && (s.changed <==> Differs(d.files, ComputePath(cfg, meta, key), value))
            && s.disk.files == d.files[ComputePath(cfg, meta, key) := value]
            && s.disk.dirs == d.dirs + {TargetFolder(cfg.folderAnnotation, cfg.folder, meta)}
  {
    var p := ComputePath(cfg, meta, key);
    var ops := ProcessOps(cfg, meta, [key], map[key := value], [], map[]);
    ComputePathParts(cfg, meta, key);
    assert ops == [Put(p, value)];
    assert ops[..0] == [];
    assert Apply(d, ops, cfg.fileMode) == Next(Step(d, false), Put(p, value), cfg.fileMode);
    WriteStepCreatesFolder(d, p, value, cfg.fileMode);
  }

  /** Some step of `ops` is a write. */
  predicate HasPut(ops: seq<Op>) {
    exists i :: 0 <= i < |ops| && ops[i].Put?
  }

  /** Steps that are all skips change nothing. */
  lemma {:induction false} ApplySkips(d: Disk, ops: seq<Op>, mode: uint32)
    requires !HasPut(ops)
    ensures Apply(d, ops, mode) == Step(d, false)
  {
    if ops != [] {
      var prefix := ops[..|ops| - 1];
      assert !HasPut(prefix) by {
        forall i | 0 <= i < |prefix| ensures !prefix[i].Put? {
          assert prefix[i] == ops[i];
        }
      }
      ApplySkips(d, prefix, mode);
      assert !ops[|ops| - 1].Put?;
    }
  }

  /**
   * Writes that all go into one missing folder: the first of them creates it,
   * after which everything happens as if the folder had been there all along.
   */
  lemma {:induction false} ApplyCreatesFolder(d: Disk, ops: seq<Op>, folder: Path, mode: uint32)
    requires !d.Exists(folder)
    requires forall i :: 0 <= i < |ops| && ops[i].Put? ==> Dir(ops[i].path) == folder
    ensures Apply(d, ops, mode) == if HasPut(ops) then Apply(d.Mkdir(folder), ops, mode) else Step(d, false)
  {
    if !HasPut(ops) {
      ApplySkips(d, ops, mode);
    } else {
      var n := |ops| - 1;
      var prefix := ops[..n];
      forall i | 0 <= i < |prefix| && prefix[i].Put? ensures Dir(prefix[i].path) == folder {
        assert prefix[i] == ops[i];
      }
      ApplyCreatesFolder(d, prefix, folder, mode);
      if !HasPut(prefix) {
        ApplySkips(d.Mkdir(folder), prefix, mode);
        forall i | 0 <= i < n ensures !ops[i].Put? {
          assert ops[i] == prefix[i];
        }
        assert ops[n].Put?;
      } else {
        var i :| 0 <= i < |prefix| && prefix[i].Put?;
        assert ops[i] == prefix[i];
      }
    }
  }

  /**
   * An event for a resource whose target folder is missing: if it writes
   * anything, it leaves what it would have left had the folder existed, so
   * ProcessLands applies to `d.Mkdir(folder)`; if not, nothing happens.
   */
  lemma ProcessCreatesFolder(cfg: Config, d: Disk, meta: ObjectMeta, tk: seq<string>, text: Payload, bk: seq<string>, binary: Payload)
    requires Enumerates(tk, text) && Enumerates(bk, binary) && '/' !in meta.name
    requires forall k :: k in text || k in binary ==> '/' !in k
    requires !d.Exists(TargetFolder(cfg.folderAnnotation, cfg.folder, meta))
    ensures var folder := TargetFolder(cfg.folderAnnotation, cfg.folder, meta);
            var ops := ProcessOps(cfg, meta, tk, text, bk, binary);
            ProcessSpec(cfg, d, meta, tk, text, bk, binary) ==
              if HasPut(ops) then ProcessSpec(cfg, d.Mkdir(folder), meta, tk, text, bk, binary) else Step(d, false)
  {
    ProcessOpsInFolder(cfg, meta, tk, text, bk, binary);
    ApplyCreatesFolder(d, ProcessOps(cfg, meta, tk, text, bk, binary), TargetFolder(cfg.folderAnnotation, cfg.folder, meta), cfg.fileMode);
  }

  /** Every write of an event goes directly into the resource's target folder. */
  lemma ProcessOpsInFolder(cfg: Config, meta: ObjectMeta, tk: seq<string>, text: Payload, bk: seq<string>, binary: Payload)
    requires Enumerates(tk, text) && Enumerates(bk, binary) && '/' !in meta.name
    requires forall k :: k in text || k in binary ==> '/' !in k
    ensures var ops := ProcessOps(cfg, meta, tk, text, bk, binary);
            forall i :: 0 <= i < |ops| && ops[i].Put? ==> Dir(ops[i].path) == TargetFolder(cfg.folderAnnotation, cfg.folder, meta)
  {
    var a := KeyOps(cfg, meta, tk, TextContent(text));
    var b := KeyOps(cfg, meta, bk, BinaryContent(binary));
    var ops: seq<Op> := a + b;
    forall i | 0 <= i < |ops| && ops[i].Put? ensures Dir(ops[i].path) == TargetFolder(cfg.folderAnnotation, cfg.folder, meta) {
      var k := if i < |a| then tk[i] else bk[i - |a|];
      if i < |a| {
        assert ops[i] == a[i];
      } else {
        assert ops[i] == b[i - |a|];
      }
      ComputePathParts(cfg, meta, k);
    }
  }

  // ----- processData over writeData as written -----

  /** One iteration of the loops of `processData`, with `writeData` as written. */
  function NextAsWritten(prev: Step, op: Op, mode: uint32): Step {
    match op
    case Skip => prev
    case Put(p, data) =>
      var r := WriteStepAsWritten(prev.disk, p, data, mode);
      Step(r.disk, prev.changed || (r.changed && !r.failed))
  }

  /** The writes of `processData`, in order, with `writeData` as written. */
  function ApplyAsWritten(d: Disk, ops: seq<Op>, mode: uint32): (s: Step)
    ensures !s.changed ==> s.disk.files == d.files
    ensures d.dirs <= s.disk.dirs
    ensures d.Valid() ==> s.disk.Valid()
    decreases |ops|
  {
    if ops == [] then Step(d, false)
    else NextAsWritten(ApplyAsWritten(d, ops[..|ops| - 1], mode), ops[|ops| - 1], mode)
  }

  lemma {:induction false} ApplyAsWrittenSkips(d: Disk, ops: seq<Op>, mode: uint32)
    requires forall i :: 0 <= i < |ops| ==> !ops[i].Put?
    ensures ApplyAsWritten(d, ops, mode) == Step(d, false)
  {
    if ops != [] {
      var prefix := ops[..|ops| - 1];
      forall i | 0 <= i < |prefix| ensures !prefix[i].Put? {
        assert prefix[i] == ops[i];
      }
      ApplyAsWrittenSkips(d, prefix, mode);
      assert !ops[|ops| - 1].Put?;
    }
  }

  /**
   * As written, with every write going into one missing folder: the first
   * write only creates the folder, reports no change and is lost; the writes
   * after it run as the intended ones do with the folder present.
   */
  lemma {:induction false} AsWrittenDropsFirstWrite(d: Disk, ops: seq<Op>, i: nat, folder: Path, mode: uint32)
    requires !d.Exists(folder)
    requires forall j :: 0 <= j < |ops| && ops[j].Put? ==> Dir(ops[j].path) == folder
    requires i < |ops| && ops[i].Put? && forall j :: 0 <= j < i ==> !ops[j].Put?
    ensures ApplyAsWritten(d, ops, mode) == Apply(d.Mkdir(folder), ops[i + 1..], mode)
  {
    var n := |ops| - 1;
    var prefix := ops[..n];
    if n == i {
      forall j | 0 <= j < |prefix| ensures !prefix[j].Put? {
        assert prefix[j] == ops[j];
      }
      ApplyAsWrittenSkips(d, prefix, mode);
      assert ops[i + 1..] == [];
    } else {
      forall j | 0 <= j < |prefix| && prefix[j].Put? ensures Dir(prefix[j].path) == folder {
        assert prefix[j] == ops[j];
      }
      forall j | 0 <= j < i ensures !prefix[j].Put? {
        assert prefix[j] == ops[j];
      }
      assert prefix[i] == ops[i];
      AsWrittenDropsFirstWrite(d, prefix, i, folder, mode);
      var post := ops[i + 1..];
      assert post[..|post| - 1] == prefix[i + 1..];
      assert post[|post| - 1] == ops[n];
      var prev := Apply(d.Mkdir(folder), prefix[i + 1..], mode);
      if ops[n].Put? {
        AsWrittenAgreesWithFolder(prev.disk, ops[n].path, ops[n].data, mode);
      }
    }
  }

  /** `processData` with `writeData` as written. */
  function ProcessSpecAsWritten(cfg: Config, d: Disk, meta: ObjectMeta, tk: seq<string>, text: Payload, bk: seq<string>, binary: Payload): (s: Step)
    requires Enumerates(tk, text) && Enumerates(bk, binary)
    ensures !s.changed ==> s.disk.files == d.files
    ensures d.dirs <= s.disk.dirs
    ensures d.Valid() ==> s.disk.Valid()
  {
    ApplyAsWritten(d, ProcessOps(cfg, meta, tk, text, bk, binary), cfg.fileMode)
  }

  /**
   * As written, an event for a resource whose target folder is missing loses
   * the first key it writes, in iteration order: that key only creates the
   * folder, and the keys after it are processed as with the folder present.
   */
  lemma ProcessAsWrittenLosesFirstKey(cfg: Config, d: Disk, meta: ObjectMeta, tk: seq<string>, text: Payload, bk: seq<string>, binary: Payload, i: nat)
    requires Enumerates(tk, text) && Enumerates(bk, binary) && '/' !in meta.name
    requires forall k :: k in text || k in binary ==> '/' !in k
    requires !d.Exists(TargetFolder(cfg.folderAnnotation, cfg.folder, meta))
    requires var ops := ProcessOps(cfg, meta, tk, text, bk, binary);
             i < |ops| && ops[i].Put? && forall j :: 0 <= j < i ==> !ops[j].Put?
    ensures var folder := TargetFolder(cfg.folderAnnotation, cfg.folder, meta);
            ProcessSpecAsWritten(cfg, d, meta, tk, text, bk, binary) ==
              Apply(d.Mkdir(folder), ProcessOps(cfg, meta, tk, text, bk, binary)[i + 1..], cfg.fileMode)
  {
    ProcessOpsInFolder(cfg, meta, tk, text, bk, binary);
    AsWrittenDropsFirstWrite(d, ProcessOps(cfg, meta, tk, text, bk, binary), i, TargetFolder(cfg.folderAnnotation, cfg.folder, meta), cfg.fileMode);
  }

  /**
   * As written, a one-key resource whose target folder is missing: the folder
   * is created, the file is not, and no change is reported.
   */
  lemma AsWrittenSingleKeyLost(cfg: Config, d: Disk, meta: ObjectMeta, key: string, value: Bytes)
    requires '/' !in key && '/' !in meta.name
    requires !d.Exists(TargetFolder(cfg.folderAnnotation, cfg.folder, meta))
    ensures ProcessSpecAsWritten(cfg, d, meta, [key], map[key := value], [], map[]) ==
              Step(d.Mkdir(TargetFolder(cfg.folderAnnotation, cfg.folder, meta)), false)
  {
    var ops := ProcessOps(cfg, meta, [key], map[key := value], [], map[]);
    assert ops == [Put(ComputePath(cfg, meta, key), value)];
    ProcessAsWrittenLosesFirstKey(cfg, d, meta, [key], map[key := value], [], map[], 0);
  }

  /**
   * As written, a two-key resource whose target folder is missing: the file of
   * the first key is never written, the second lands, and the event reports a
   * change iff the second key's bytes are new.
   */
  lemma AsWrittenTwoKeys(cfg: Config, d: Disk, meta: ObjectMeta, k1: string, v1: Bytes, k2: string, v2: Bytes)
    requires d.Valid() && k1 != k2 && '/' !in k1 && '/' !in k2 && '/' !in meta.name
    requires !d.Exists(TargetFolder(cfg.folderAnnotation, cfg.folder, meta)) && ComputePath(cfg, meta, k2) !in d.dirs
    ensures var s := ProcessSpecAsWritten(cfg, d, meta, [k1, k2], map[k1 := v1, k2 := v2], [], map[]);
            var p1, p2 := ComputePath(cfg, meta, k1), ComputePath(cfg, meta, k2);
            && (p1 in s.disk.files <==> p1 in d.files)
            && s.disk.files == d.files[p2 := v2]
            && (s.changed <==> Differs(d.files, p2, v2))
  {
    var p1, p2 := ComputePath(cfg, meta, k1), ComputePath(cfg, meta, k2);
    var text := map[k1 := v1, k2 := v2];
    assert ProcessOps(cfg, meta, [k1, k2], text, [], map[]) == [Put(p1, v1), Put(p2, v2)];
    ComputePathParts(cfg, meta, k1);
    ComputePathParts(cfg, meta, k2);
    ComputePathInjective(cfg, meta, k1, k2);
    AsWrittenTwoPuts(d, p1, v1, p2, v2, cfg.fileMode);
  }

  /** Two writes into one missing folder, as written: only the second lands. */
  lemma AsWrittenTwoPuts(d: Disk, p1: Path, v1: Bytes, p2: Path, v2: Bytes, mode: uint32)
    requires d.Valid() && !d.Exists(Dir(p1)) && Dir(p2) == Dir(p1) && p2 != Dir(p1) && p2 !in d.dirs
    ensures var s := ApplyAsWritten(d, [Put(p1, v1), Put(p2, v2)], mode);
            && s.disk.files == d.files[p2 := v2]
            && (s.changed <==> Differs(d.files, p2, v2))
  {
    var ops := [Put(p1, v1), Put(p2, v2)];
    AsWrittenDropsFirstWrite(d, ops, 0, Dir(p1), mode);
    assert ops[1..] == [Put(p2, v2)] && ops[1..][..0] == [];
    WriteStepLands(d.Mkdir(Dir(p1)), p2, v2, mode);
  }

  // ----- OnDelete -----

  function KeyPaths(cfg: Config, meta: ObjectMeta, keys: seq<string>): (ps: seq<Path>)
    ensures |ps| == |keys| && forall i :: 0 <= i < |keys| ==> ps[i] == ComputePath(cfg, meta, keys[i])
  {
    seq(|keys|, i requires 0 <= i < |keys| => ComputePath(cfg, meta, keys[i]))
  }

  /**
   * The removals of `OnDelete`, in order: a path that exists is removed; a
   * directory cannot be removed and is skipped; a missing path is ignored.
   */
  function DeleteAll(d: Disk, paths: seq<Path>): (s: Step)
    ensures !s.changed ==> s.disk == d
    ensures s.disk.dirs == d.dirs && s.disk.files.Keys <= d.files.Keys
    ensures s.disk.files == d.files - (d.files.Keys - s.disk.files.Keys)
    ensures d.Valid() ==> s.disk.Valid()
    decreases |paths|
  {
    if paths == [] then Step(d, false)
    else
      var prev := DeleteAll(d, paths[..|paths| - 1]);
      var p := paths[|paths| - 1];
      if p in prev.disk.files then Step(prev.disk.Remove(p), true) else prev
  }

  function PathSet(paths: seq<Path>): set<Path> {
    set p | p in paths
  }

  /** Delete removes exactly the files at the given paths, and reports a change iff one of them existed. */
  lemma {:induction false} DeleteAllExact(d: Disk, paths: seq<Path>)
    requires d.Valid()
    ensures DeleteAll(d, paths).disk == Disk(d.files - PathSet(paths), d.modes - PathSet(paths), d.dirs)
    ensures DeleteAll(d, paths).changed <==> exists i :: 0 <= i < |paths| && paths[i] in d.files
  {
    if paths == [] {
      assert d.files - PathSet(paths) == d.files;
      assert d.modes - PathSet(paths) == d.modes;
    } else {
      var n := |paths| - 1;
      var init := paths[..n];
      DeleteAllExact(d, init);
      var removed := PathSet(paths);
      assert removed == PathSet(init) + {paths[n]} by {
        assert paths == init + [paths[n]];
      }
      var prev := DeleteAll(d, init);
      assert prev.disk.Remove(paths[n]) == Disk(d.files - removed, d.modes - removed, d.dirs);
      if paths[n] !in prev.disk.files {
        assert d.files - removed == prev.disk.files;
        assert d.modes - removed == prev.disk.modes;
      }
      if exists i :: 0 <= i < |paths| && paths[i] in d.files {
        var i :| 0 <= i < |paths| && paths[i] in d.files;
        if i < n {
          assert init[i] == paths[i];
        }
      }
      if exists i :: 0 <= i < |init| && init[i] in d.files {
        var i :| 0 <= i < |init| && init[i] in d.files;
        assert paths[i] == init[i];
      }
    }
  }

  lemma DeleteAllSnoc(d: Disk, paths: seq<Path>, p: Path)
    ensures DeleteAll(d, paths + [p]) ==
      var prev := DeleteAll(d, paths);
      if p in prev.disk.files then Step(prev.disk.Remove(p), true) else prev
  {
    assert (paths + [p])[..|paths|] == paths;
  }

  lemma KeyPathsSnoc(cfg: Config, meta: ObjectMeta, keys: seq<string>, n: nat)
    requires n < |keys|
    ensures KeyPaths(cfg, meta, keys[..n + 1]) == KeyPaths(cfg, meta, keys[..n]) + [ComputePath(cfg, meta, keys[n])]
  {
  }

  /** Every path `OnDelete` visits: text keys, then binary keys. */
  function DeletePaths(cfg: Config, meta: ObjectMeta, tk: seq<string>, bk: seq<string>): seq<Path> {
    KeyPaths(cfg, meta, tk) + KeyPaths(cfg, meta, bk)
  }

  lemma DeletePathsCover(cfg: Config, meta: ObjectMeta, tk: seq<string>, text: Payload, bk: seq<string>, binary: Payload, k: string)
    requires Enumerates(tk, text) && Enumerates(bk, binary) && (k in text || k in binary)
    ensures ComputePath(cfg, meta, k) in PathSet(DeletePaths(cfg, meta, tk, bk))
  {
    var paths := DeletePaths(cfg, meta, tk, bk);
    if k in text {
      var i :| 0 <= i < |tk| && tk[i] == k;
      assert paths[i] == ComputePath(cfg, meta, k);
    } else {
      var i :| 0 <= i < |bk| && bk[i] == k;
      assert paths[|tk| + i] == ComputePath(cfg, meta, k);
    }
  }

  /** After a delete, no key of the resource has a file. */
  lemma DeleteRemovesResource(cfg: Config, d: Disk, meta: ObjectMeta, tk: seq<string>, text: Payload, bk: seq<string>, binary: Payload, k: string)
    requires d.Valid() && Enumerates(tk, text) && Enumerates(bk, binary) && (k in text || k in binary)
    ensures ComputePath(cfg, meta, k) !in DeleteAll(d, DeletePaths(cfg, meta, tk, bk)).disk.files
  {
    DeleteAllExact(d, DeletePaths(cfg, meta, tk, bk));
    DeletePathsCover(cfg, meta, tk, text, bk, binary, k);
  }

  /** A delete leaves every path that no key of the resource maps to as it was. */
  lemma DeleteIsolation(cfg: Config, d: Disk, meta: ObjectMeta, tk: seq<string>, text: Payload, bk: seq<string>, binary: Payload, p: Path)
    requires d.Valid() && Enumerates(tk, text) && Enumerates(bk, binary)
    requires forall k :: k in text || k in binary ==> ComputePath(cfg, meta, k) != p
    ensures var f := DeleteAll(d, DeletePaths(cfg, meta, tk, bk)).disk.files;
            (p in f <==> p in d.files) && (p in f ==> f[p] == d.files[p])
  {
    var paths := DeletePaths(cfg, meta, tk, bk);
    DeleteAllExact(d, paths);
    forall i | 0 <= i < |paths| ensures paths[i] != p {
      if i < |tk| {
        assert tk[i] in text;
      } else {
        assert bk[i - |tk|] in binary;
      }
    }
    assert p !in PathSet(paths);
  }

  /** Deleting again what was just deleted removes nothing and reports no change. */
  lemma DeleteIdempotent(d: Disk, paths: seq<Path>)
    requires d.Valid()
    ensures var s := DeleteAll(d, paths);
            DeleteAll(s.disk, paths) == Step(s.disk, false)
  {
    var s := DeleteAll(d, paths);
    DeleteAllExact(d, paths);
    DeleteAllExact(s.disk, paths);
    assert s.disk.files - PathSet(paths) == s.disk.files;
    assert s.disk.modes - PathSet(paths) == s.disk.modes;
  }

  /**
   * Deleting a resource a second time, visiting its keys in any order, removes
   * nothing and reports no change.
   */
  lemma DeleteIdempotentAnyOrder(cfg: Config, d: Disk, meta: ObjectMeta, tk: seq<string>, text: Payload, bk: seq<string>, binary: Payload,
                                 tk2: seq<string>, bk2: seq<string>)
    requires d.Valid() && Enumerates(tk, text) && Enumerates(bk, binary)
    requires Enumerates(tk2, text) && Enumerates(bk2, binary)
    ensures var s := DeleteAll(d, DeletePaths(cfg, meta, tk, bk));
            DeleteAll(s.disk, DeletePaths(cfg, meta, tk2, bk2)) == Step(s.disk, false)
  {
    DeletedPathsGone(cfg, d, meta, tk, text, bk, binary, tk2, bk2);
    DeleteAbsent(DeleteAll(d, DeletePaths(cfg, meta, tk, bk)).disk, DeletePaths(cfg, meta, tk2, bk2));
  }

  /** Removing paths none of which names a file does nothing. */
  lemma {:induction false} DeleteAbsent(e: Disk, paths: seq<Path>)
    requires forall i :: 0 <= i < |paths| ==> paths[i] !in e.files
    ensures DeleteAll(e, paths) == Step(e, false)
  {
    if paths != [] {
      var init := paths[..|paths| - 1];
      forall i | 0 <= i < |init| ensures init[i] !in e.files {
        assert init[i] == paths[i];
      }
      DeleteAbsent(e, init);
    }
  }

  /** After a delete, no key of the resource, in any order, names a file. */
  lemma DeletedPathsGone(cfg: Config, d: Disk, meta: ObjectMeta, tk: seq<string>, text: Payload, bk: seq<string>, binary: Payload,
                         tk2: seq<string>, bk2: seq<string>)
    requires d.Valid() && Enumerates(tk, text) && Enumerates(bk, binary)
    requires Enumerates(tk2, text) && Enumerates(bk2, binary)
    ensures var s := DeleteAll(d, DeletePaths(cfg, meta, tk, bk));
            forall i :: 0 <= i < |DeletePaths(cfg, meta, tk2, bk2)| ==> DeletePaths(cfg, meta, tk2, bk2)[i] !in s.disk.files
  {
    var paths2 := DeletePaths(cfg, meta, tk2, bk2);
    var f := DeleteAll(d, DeletePaths(cfg, meta, tk, bk)).disk.files;
    var kt, kb := KeyPaths(cfg, meta, tk2), KeyPaths(cfg, meta, bk2);
    forall i | 0 <= i < |paths2| ensures paths2[i] !in f {
      if i < |tk2| {
        assert paths2[i] == kt[i] == ComputePath(cfg, meta, tk2[i]) && tk2[i] in text;
        DeleteRemovesResource(cfg, d, meta, tk, text, bk, binary, tk2[i]);
      } else {
        assert paths2[i] == kb[i - |tk2|] == ComputePath(cfg, meta, bk2[i - |tk2|]) && bk2[i - |tk2|] in binary;
        DeleteRemovesResource(cfg, d, meta, tk, text, bk, binary, bk2[i - |tk2|]);
      }
    }
  }

  // ----- The three events -----

  /** A call of the GenericHandler interface, with the maps it passes. */
  datatype Call =
    | Add(meta: ObjectMeta, text: Payload, binary: Payload, initial: bool)
    | Update(meta: ObjectMeta, oldText: Payload, oldBinary: Payload, text: Payload, binary: Payload)
    | Delete(meta: ObjectMeta, text: Payload, binary: Payload)

  /** The disk a call leaves, and whether it runs the callback. */
  datatype Outcome = Outcome(disk: Disk, callback: bool)

  /** What a call does, with `tk` and `bk` the iteration orders of its maps. */
  function Effect(cfg: Config, d: Disk, call: Call, tk: seq<string>, bk: seq<string>): (o: Outcome)
    requires Enumerates(tk, call.text) && Enumerates(bk, call.binary)
    ensures !o.callback ==> o.disk.files == d.files
    ensures d.Valid() ==> o.disk.Valid()
  {
    match call
    case Add(meta, text, binary, _) =>
      var s := ProcessSpec(cfg, d, meta, tk, text, bk, binary);
      Outcome(s.disk, s.changed)
    case Update(meta, _, _, text, binary) =>
      var s := ProcessSpec(cfg, d, meta, tk, text, bk, binary);
      Outcome(s.disk, s.changed)
    case Delete(meta, text, binary) =>
      var s := DeleteAll(d, DeletePaths(cfg, meta, tk, bk));
      Outcome(s.disk, s.changed)
  }

  /** An update ignores the old maps and does what an add of the new maps does. */
  lemma UpdateIsAdd(cfg: Config, d: Disk, meta: ObjectMeta, oldText: Payload, oldBinary: Payload, text: Payload, binary: Payload,
                    initial: bool, tk: seq<string>, bk: seq<string>)
    requires Enumerates(tk, text) && Enumerates(bk, binary)
    ensures Effect(cfg, d, Update(meta, oldText, oldBinary, text, binary), tk, bk) == Effect(cfg, d, Add(meta, text, binary, initial), tk, bk)
  {
  }

  /**
   * Where every write lands and every key in both maps agrees, adding the same
   * resource twice, the second time in any key order, fires the callback at
   * most once.
   */
  lemma RepeatedAddIsQuiet(cfg: Config, d: Disk, meta: ObjectMeta, tk: seq<string>, text: Payload, bk: seq<string>, binary: Payload,
                           tk2: seq<string>, bk2: seq<string>)
    requires d.Valid() && Enumerates(tk, text) && Enumerates(bk, binary)
    requires Enumerates(tk2, text) && Enumerates(bk2, binary)
    requires Materializable(cfg, d, meta, text, binary) && SharedKeysAgree(text, binary)
    ensures var o := Effect(cfg, d, Add(meta, text, binary, false), tk, bk);
            Effect(cfg, o.disk, Add(meta, text, binary, false), tk2, bk2) == Outcome(o.disk, false)
  {
    ProcessIdempotent(cfg, d, meta, tk, text, bk, binary, tk2, bk2);
  }

  /** Deleting the same resource twice, the second time in any key order, fires the callback at most once. */
  lemma RepeatedDeleteIsQuiet(cfg: Config, d: Disk, meta: ObjectMeta, tk: seq<string>, text: Payload, bk: seq<string>, binary: Payload,
                              tk2: seq<string>, bk2: seq<string>)
    requires d.Valid() && Enumerates(tk, text) && Enumerates(bk, binary)
    requires Enumerates(tk2, text) && Enumerates(bk2, binary)
    ensures var o := Effect(cfg, d, Delete(meta, text, binary), tk, bk);
            Effect(cfg, o.disk, Delete(meta, text, binary), tk2, bk2) == Outcome(o.disk, false)
  {
    DeleteIdempotentAnyOrder(cfg, d, meta, tk, text, bk, binary, tk2, bk2);
  }

  /** Running two sequences of writes one after the other is running their concatenation. */
  lemma {:induction false} ApplyAppend(d: Disk, a: seq<Op>, b: seq<Op>, mode: uint32)
    ensures var s := Apply(d, a, mode);
            var t := Apply(s.disk, b, mode);
            Apply(d, a + b, mode) == Step(t.disk, s.changed || t.changed)
  {
    if b == [] {
      assert a + b == a;
    } else {
      var init := b[..|b| - 1];
      ApplyAppend(d, a, init, mode);
      assert a + b == (a + init) + [b[|b| - 1]];
      ApplySnoc(d, a + init, b[|b| - 1], mode);
    }
  }

  /** Deleting two sequences of paths one after the other is deleting their concatenation. */
  lemma {:induction false} DeleteAllAppend(d: Disk, a: seq<Path>, b: seq<Path>)
    ensures var s := DeleteAll(d, a);
            var t := DeleteAll(s.disk, b);
            DeleteAll(d, a + b) == Step(t.disk, s.changed || t.changed)
  {
    if b == [] {
      assert a + b == a;
    } else {
      var init := b[..|b| - 1];
      DeleteAllAppend(d, a, init);
      assert a + b == (a + init) + [b[|b| - 1]];
      DeleteAllSnoc(d, a + init, b[|b| - 1]);
    }
  }

  // ----- The handler -----

  /** A `genericHandlerImpl` writing into `store`; `fired` counts the callbacks it has run. */
  class Handler {
    const cfg: Config
    const store: FileStore
    var fired: nat

    ghost predicate Valid()
      reads this, store
    {
      store.Valid()
    }

    constructor (cfg: Config, store: FileStore)
      requires store.Valid()
      ensures this.cfg == cfg && this.store == store && fired == 0 && Valid()
    {
      this.cfg := cfg;
      this.store := store;
      fired := 0;
    }

    /**
     * `writeData` as evidently intended: a missing folder is created and the
     * write goes on (the code as written returns an error there instead, see
     * WriteStepAsWritten). The lock only orders concurrent calls and is left out.
     */
    method WriteData(path: Path, data: Bytes) returns (changed: bool, failed: bool)
      requires Valid()
      modifies store
      ensures Valid()
      ensures WriteResult(store.State(), changed, failed) == WriteStep(old(store.State()), path, data, cfg.fileMode)
    {
      var dir := Dir(path);
      var dirFound := store.Stat(dir);
      if !dirFound {
        // Stat found neither a file nor a directory at `dir`, so MkdirAll succeeds.
        var created := store.MkdirAll(dir);
      }
      var found := store.Stat(path);
      if !found {
        var ok := store.WriteFile(path, data, cfg.fileMode);
        return true, !ok;
      }
      var read := store.ReadFile(path);
      var current := if read.Some? then read.value else [];
      if current == data {
        return false, false;
      }
      var ok := store.WriteFile(path, data, cfg.fileMode);
      return true, !ok;
    }

    /** The first loop of `processData`: writes every text value. */
    method WriteText(meta: ObjectMeta, text: Payload, tk: seq<string>) returns (filesChanged: bool)
      requires Valid() && Enumerates(tk, text)
      modifies store
      ensures Valid()
      ensures Step(store.State(), filesChanged) == Apply(old(store.State()), KeyOps(cfg, meta, tk, TextContent(text)), cfg.fileMode)
    {
      ghost var d0 := store.State();
      ghost var tc := TextContent(text);
      filesChanged := false;
      for i := 0 to |tk|
        invariant Valid()
        invariant Step(store.State(), filesChanged) == Apply(d0, KeyOps(cfg, meta, tk[..i], tc), cfg.fileMode)
      {
        var key := tk[i];
        ghost var prev := Step(store.State(), filesChanged);
        ghost var op := Put(ComputePath(cfg, meta, key), text[key]);
        assert KeyOp(cfg, meta, key, tc[key]) == op;
        KeyOpsSnoc(cfg, meta, tk, tc, i);
        ApplySnoc(d0, KeyOps(cfg, meta, tk[..i], tc), op, cfg.fileMode);
        var changed, failed := WriteData(ComputePath(cfg, meta, key), text[key]);
        assert Next(prev, op, cfg.fileMode) == Step(store.State(), filesChanged || (changed && !failed));
        if failed {
          continue;
        }
        if changed {
          filesChanged := true;
        }
      }
      assert tk[..|tk|] == tk;
    }

    /** The second loop of `processData`: writes every binary value that decodes, and skips the rest. */
    method WriteBinary(meta: ObjectMeta, binary: Payload, bk: seq<string>) returns (filesChanged: bool)
      requires Valid() && Enumerates(bk, binary)
      modifies store
      ensures Valid()
      ensures Step(store.State(), filesChanged) == Apply(old(store.State()), KeyOps(cfg, meta, bk, BinaryContent(binary)), cfg.fileMode)
    {
      ghost var d0 := store.State();
      ghost var bc := BinaryContent(binary);
      filesChanged := false;
      for j := 0 to |bk|
        invariant Valid()
        invariant Step(store.State(), filesChanged) == Apply(d0, KeyOps(cfg, meta, bk[..j], bc), cfg.fileMode)
      {
        var key := bk[j];
        ghost var prev := Step(store.State(), filesChanged);
        ghost var op := KeyOp(cfg, meta, key, bc[key]);
        KeyOpsSnoc(cfg, meta, bk, bc, j);
        ApplySnoc(d0, KeyOps(cfg, meta, bk[..j], bc), op, cfg.fileMode);
        var decoded := Base64.Decode(binary[key]);
        assert bc[key] == decoded;
        if decoded.None? {
          assert Next(prev, op, cfg.fileMode) == prev;
          continue;
        }
        assert op == Put(ComputePath(cfg, meta, key), decoded.value);
        var changed, failed := WriteData(ComputePath(cfg, meta, key), decoded.value);
        assert Next(prev, op, cfg.fileMode) == Step(store.State(), filesChanged || (changed && !failed));
        if failed {
          continue;
        }
        if changed {
          filesChanged := true;
        }
      }
      assert bk[..|bk|] == bk;
    }

    /** `processData`: the text loop, then the binary loop; true if either wrote new bytes. */
    method ProcessData(meta: ObjectMeta, text: Payload, binary: Payload, isInInitialList: bool, tk: seq<string>, bk: seq<string>)
      returns (filesChanged: bool)
      requires Valid() && Enumerates(tk, text) && Enumerates(bk, binary)
      modifies store
      ensures Valid()
      ensures Step(store.State(), filesChanged) == ProcessSpec(cfg, old(store.State()), meta, tk, text, bk, binary)
    {
      ghost var d0 := store.State();
      var textChanged := WriteText(meta, text, tk);
      var binaryChanged := WriteBinary(meta, binary, bk);
      filesChanged := textChanged || binaryChanged;
      ApplyAppend(d0, KeyOps(cfg, meta, tk, TextContent(text)), KeyOps(cfg, meta, bk, BinaryContent(binary)), cfg.fileMode);
    }

    method OnAdd(meta: ObjectMeta, text: Payload, binary: Payload, isInInitialList: bool, tk: seq<string>, bk: seq<string>)
      requires Valid() && Enumerates(tk, text) && Enumerates(bk, binary)
      modifies this, store
      ensures Valid()
      ensures var o := Effect(cfg, old(store.State()), Add(meta, text, binary, isInInitialList), tk, bk);
              store.State() == o.disk && fired == old(fired) + (if o.callback then 1 else 0)
    {
      var changed := ProcessData(meta, text, binary, isInInitialList, tk, bk);
      if changed {
        fired := fired + 1;
      }
    }

    /** The old maps are not looked at. */
    method OnUpdate(meta: ObjectMeta, oldText: Payload, oldBinary: Payload, text: Payload, binary: Payload, tk: seq<string>, bk: seq<string>)
      requires Valid() && Enumerates(tk, text) && Enumerates(bk, binary)
      modifies this, store
      ensures Valid()
      ensures var o := Effect(cfg, old(store.State()), Update(meta, oldText, oldBinary, text, binary), tk, bk);
              store.State() == o.disk && fired == old(fired) + (if o.callback then 1 else 0)
    {
      var changed := ProcessData(meta, text, binary, false, tk, bk);
      if changed {
        fired := fired + 1;
      }
    }

    /** One loop of `OnDelete`: removes the file of every key; a path that cannot be removed is skipped. */
    method RemoveKeys(meta: ObjectMeta, keys: seq<string>) returns (deletedFiles: bool)
      requires Valid()
      modifies store
      ensures Valid()
      ensures Step(store.State(), deletedFiles) == DeleteAll(old(store.State()), KeyPaths(cfg, meta, keys))
    {
      ghost var d0 := store.State();
      deletedFiles := false;
      for i := 0 to |keys|
        invariant Valid()
        invariant Step(store.State(), deletedFiles) == DeleteAll(d0, KeyPaths(cfg, meta, keys[..i]))
      {
        var path := ComputePath(cfg, meta, keys[i]);
        KeyPathsSnoc(cfg, meta, keys, i);
        DeleteAllSnoc(d0, KeyPaths(cfg, meta, keys[..i]), path);
        var found := store.Stat(path);
        if found {
          var ok := store.Remove(path);
          if !ok {
            continue;
          }
          deletedFiles := true;
        }
      }
      assert keys[..|keys|] == keys;
    }

    method OnDelete(meta: ObjectMeta, text: Payload, binary: Payload, tk: seq<string>, bk: seq<string>)
      requires Valid() && Enumerates(tk, text) && Enumerates(bk, binary)
      modifies this, store
      ensures Valid()
      ensures var o := Effect(cfg, old(store.State()), Delete(meta, text, binary), tk, bk);
              store.State() == o.disk && fired == old(fired) + (if o.callback then 1 else 0)
    {
      ghost var d0 := store.State();
      var textDeleted := RemoveKeys(meta, tk);
      var binaryDeleted := RemoveKeys(meta, bk);
      DeleteAllAppend(d0, KeyPaths(cfg, meta, tk), KeyPaths(cfg, meta, bk));
      if textDeleted || binaryDeleted {
        fired := fired + 1;
      }
    }
  }
}
