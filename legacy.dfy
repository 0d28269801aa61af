/**
 * The older `secretsHandler` and `cmHandler` of the main package. Each writes
 * every key with a plain `os.WriteFile` (no folder creation, no comparison with
 * what is on disk), treats a delete like an add, and reports a change whenever
 * the resource has any key at all.
 */
module Legacy {
  import opened Basics
  import opened Paths
  import opened FileSystem
  import opened Kube
  import Base64
  import Generic

  /** One `os.WriteFile`: it succeeds where the folder exists and the path is not a directory. */
  function BlindStep(d: Disk, op: Op, mode: uint32): (r: Disk)
    ensures r.dirs == d.dirs
    ensures op.Put? && d.CanWrite(op.path) ==> r.files == d.files[op.path := op.data]
    ensures !(op.Put? && d.CanWrite(op.path)) ==> r == d
    ensures d.Valid() ==> r.Valid()
  {
    match op
    case Skip => d
    case Put(p, data) => if d.CanWrite(p) then d.Write(p, data, mode) else d
  }

  function ApplyBlind(d: Disk, ops: seq<Op>, mode: uint32): (r: Disk)
    ensures r.dirs == d.dirs
    ensures d.Valid() ==> r.Valid()
    decreases |ops|
  {
    if ops == [] then d else BlindStep(ApplyBlind(d, ops[..|ops| - 1], mode), ops[|ops| - 1], mode)
  }

  lemma ApplyBlindSnoc(d: Disk, ops: seq<Op>, op: Op, mode: uint32)
    ensures ApplyBlind(d, ops + [op], mode) == BlindStep(ApplyBlind(d, ops, mode), op, mode)
  {
    assert (ops + [op])[..|ops|] == ops;
  }

  /** Where every folder exists, the blind writes leave what plain overwrites would. */
  lemma {:induction false} BlindIsOverlay(d: Disk, ops: seq<Op>, mode: uint32)
    requires d.Valid() && Generic.Writable(d, ops)
    ensures ApplyBlind(d, ops, mode).files == Overlay(d.files, ops)
  {
    if ops != [] {
      var prefix := ops[..|ops| - 1];
      assert Generic.Writable(d, prefix) by {
        forall i | 0 <= i < |prefix| && prefix[i].Put? ensures d.CanWrite(prefix[i].path) {
          assert prefix[i] == ops[i];
        }
      }
      BlindIsOverlay(d, prefix, mode);
    }
  }

  /** Where no folder exists, nothing at all is written. */
  lemma {:induction false} BlindMissingFolder(d: Disk, ops: seq<Op>, mode: uint32)
    requires forall i :: 0 <= i < |ops| && ops[i].Put? ==> Dir(ops[i].path) !in d.dirs
    ensures ApplyBlind(d, ops, mode) == d
  {
    if ops != [] {
      var prefix := ops[..|ops| - 1];
      forall i | 0 <= i < |prefix| && prefix[i].Put? ensures Dir(prefix[i].path) !in d.dirs {
        assert prefix[i] == ops[i];
      }
      BlindMissingFolder(d, prefix, mode);
    }
  }

  /**
   * The legacy handlers' settings as a generic Config: the same folder
   * resolution, file names without the unique-name prefix.
   */
  function AsConfig(folder: string, mode: uint32, folderAnnotation: string): (cfg: Generic.Config)
    ensures !cfg.uniqFilenames
  {
    Generic.Config(folder, mode, folderAnnotation, false)
  }

  /** The legacy file name is the bare key, in the annotated folder when the annotation is present. */
  lemma LegacyPathIsBareKey(folder: string, mode: uint32, folderAnnotation: string, meta: ObjectMeta, key: string)
    requires '/' !in key
    ensures var p := Generic.ComputePath(AsConfig(folder, mode, folderAnnotation), meta, key);
            && Base(p) == key
            && Dir(p) == if folderAnnotation in meta.annotations then meta.annotations[folderAnnotation] else folder
  {
    SplitJoin(Generic.TargetFolder(folderAnnotation, folder, meta), key);
  }

  lemma {:induction false} ApplyBlindAppend(d: Disk, a: seq<Op>, b: seq<Op>, mode: uint32)
    ensures ApplyBlind(d, a + b, mode) == ApplyBlind(ApplyBlind(d, a, mode), b, mode)
  {
    if b == [] {
      assert a + b == a;
    } else {
      var init := b[..|b| - 1];
      ApplyBlindAppend(d, a, init, mode);
      assert a + b == (a + init) + [b[|b| - 1]];
      ApplyBlindSnoc(d, a + init, b[|b| - 1], mode);
      ApplyBlindSnoc(ApplyBlind(d, a, mode), init, b[|b| - 1], mode);
    }
  }

  /** The first loop of `processConfigMap`: every text key is written and sets the flag. */
  method WriteText(store: FileStore, cfg: Generic.Config, folder: string, meta: ObjectMeta, data: Payload, tk: seq<string>)
    returns (filesChanged: bool)
    requires store.Valid() && !cfg.uniqFilenames && Enumerates(tk, data)
    requires folder == Generic.TargetFolder(cfg.folderAnnotation, cfg.folder, meta)
    modifies store
    ensures store.Valid()
    ensures store.State() == ApplyBlind(old(store.State()), Generic.KeyOps(cfg, meta, tk, Generic.TextContent(data)), cfg.fileMode)
    ensures filesChanged == (|tk| > 0)
  {
    ghost var d0 := store.State();
    ghost var tc := Generic.TextContent(data);
    filesChanged := false;
    for i := 0 to |tk|
      invariant store.Valid()
      invariant store.State() == ApplyBlind(d0, Generic.KeyOps(cfg, meta, tk[..i], tc), cfg.fileMode)
      invariant filesChanged == (i > 0)
    {
      var key := tk[i];
      filesChanged := true;
      var filePath := Join(folder, key);
      assert Generic.KeyOp(cfg, meta, key, tc[key]) == Put(filePath, data[key]);
      Generic.KeyOpsSnoc(cfg, meta, tk, tc, i);
      ApplyBlindSnoc(d0, Generic.KeyOps(cfg, meta, tk[..i], tc), Put(filePath, data[key]), cfg.fileMode);
      var ok := store.WriteFile(filePath, data[key], cfg.fileMode);
    }
    assert tk[..|tk|] == tk;
  }

  /** The second loop: every binary key sets the flag; one that decodes is written. */
  method WriteBinary(store: FileStore, cfg: Generic.Config, folder: string, meta: ObjectMeta, dataBinary: Payload, bk: seq<string>)
    returns (filesChanged: bool)
    requires store.Valid() && !cfg.uniqFilenames && Enumerates(bk, dataBinary)
    requires folder == Generic.TargetFolder(cfg.folderAnnotation, cfg.folder, meta)
    modifies store
    ensures store.Valid()
    ensures store.State() == ApplyBlind(old(store.State()), Generic.KeyOps(cfg, meta, bk, Generic.BinaryContent(dataBinary)), cfg.fileMode)
    ensures filesChanged == (|bk| > 0)
  {
    ghost var d0 := store.State();
    ghost var bc := Generic.BinaryContent(dataBinary);
    filesChanged := false;
    for j := 0 to |bk|
      invariant store.Valid()
      invariant store.State() == ApplyBlind(d0, Generic.KeyOps(cfg, meta, bk[..j], bc), cfg.fileMode)
      invariant filesChanged == (j > 0)
    {
      var key := bk[j];
      filesChanged := true;
      var filePath := Join(folder, key);
      ghost var op := Generic.KeyOp(cfg, meta, key, bc[key]);
      Generic.KeyOpsSnoc(cfg, meta, bk, bc, j);
      ApplyBlindSnoc(d0, Generic.KeyOps(cfg, meta, bk[..j], bc), op, cfg.fileMode);
      var decoded := Base64.Decode(dataBinary[key]);
      assert bc[key] == decoded;
      if decoded.None? {
        continue;
      }
      assert op == Put(filePath, decoded.value);
      var ok := store.WriteFile(filePath, decoded.value, cfg.fileMode);
    }
    assert bk[..|bk|] == bk;
  }

  /** A map has an iteration order of positive length exactly when it is not empty. */
  lemma NonEmptyOrder<V>(keys: seq<string>, m: map<string, V>)
    requires Enumerates(keys, m)
    ensures |keys| > 0 <==> m != map[]
  {
    if m != map[] {
      var k :| k in m;
      assert k in keys;
    }
    if |keys| > 0 {
      assert keys[0] in m;
    }
  }

  /**
   * The shared body of both `processConfigMap`s: resolve the folder, write
   * every text value, then every binary value that decodes. `isDeleted` is
   * never read. The result says only whether the maps were empty.
   */
  method Materialize(store: FileStore, cfg: Generic.Config, meta: ObjectMeta, data: Payload, dataBinary: Payload,
                     tk: seq<string>, bk: seq<string>) returns (filesChanged: bool)
    requires store.Valid() && !cfg.uniqFilenames && Enumerates(tk, data) && Enumerates(bk, dataBinary)
    modifies store
    ensures store.Valid()
    ensures store.State() == ApplyBlind(old(store.State()), Generic.ProcessOps(cfg, meta, tk, data, bk, dataBinary), cfg.fileMode)
    ensures filesChanged == (data != map[] || dataBinary != map[])
  {
    ghost var d0 := store.State();
    var folder := Generic.TargetFolder(cfg.folderAnnotation, cfg.folder, meta);
    var textChanged := WriteText(store, cfg, folder, meta, data, tk);
    var binaryChanged := WriteBinary(store, cfg, folder, meta, dataBinary, bk);
    filesChanged := textChanged || binaryChanged;
    ApplyBlindAppend(d0, Generic.KeyOps(cfg, meta, tk, Generic.TextContent(data)), Generic.KeyOps(cfg, meta, bk, Generic.BinaryContent(dataBinary)), cfg.fileMode);
    NonEmptyOrder(tk, data);
    NonEmptyOrder(bk, dataBinary);
  }

  /**
   * Where every folder exists, the legacy handler leaves the same contents as
   * the generic one; it differs in the callback and on missing folders.
   */
  lemma LegacyWritesLikeGeneric(cfg: Generic.Config, d: Disk, meta: ObjectMeta, tk: seq<string>, text: Payload, bk: seq<string>, binary: Payload)
    requires d.Valid() && Enumerates(tk, text) && Enumerates(bk, binary) && Generic.Materializable(cfg, d, meta, text, binary)
    ensures ApplyBlind(d, Generic.ProcessOps(cfg, meta, tk, text, bk, binary), cfg.fileMode).files ==
            Generic.ProcessSpec(cfg, d, meta, tk, text, bk, binary).disk.files
  {
    Generic.ProcessWritable(cfg, d, meta, tk, text, bk, binary);
    BlindIsOverlay(d, Generic.ProcessOps(cfg, meta, tk, text, bk, binary), cfg.fileMode);
    Generic.ApplyIsOverlay(d, Generic.ProcessOps(cfg, meta, tk, text, bk, binary), cfg.fileMode);
  }

  /**
   * Where every folder exists, each key of the event holds its expected bytes
   * (a decodable binary value over a text value), and every other key keeps
   * what it had.
   */
  lemma LegacyLands(cfg: Generic.Config, d: Disk, meta: ObjectMeta, tk: seq<string>, text: Payload, bk: seq<string>, binary: Payload, key: string)
    requires d.Valid() && Enumerates(tk, text) && Enumerates(bk, binary) && Generic.Materializable(cfg, d, meta, text, binary)
    ensures var f := ApplyBlind(d, Generic.ProcessOps(cfg, meta, tk, text, bk, binary), cfg.fileMode).files;
            var p := Generic.ComputePath(cfg, meta, key);
            var e := Generic.Expected(text, binary, key);
            && (e.Some? ==> p in f && f[p] == e.value)
            && (e.None? ==> (p in f <==> p in d.files) && (p in d.files ==> f[p] == d.files[p]))
  {
    LegacyWritesLikeGeneric(cfg, d, meta, tk, text, bk, binary);
    Generic.ProcessLands(cfg, d, meta, tk, text, bk, binary, key);
  }

  /**
   * A delete event: the legacy handler writes the text key's file back, where
   * the generic handler removes it.
   */
  lemma DeleteWritesInstead(cfg: Generic.Config, d: Disk, meta: ObjectMeta, tk: seq<string>, text: Payload, bk: seq<string>, binary: Payload, key: string)
    requires d.Valid() && Enumerates(tk, text) && Enumerates(bk, binary) && Generic.Materializable(cfg, d, meta, text, binary)
    requires key in text && key !in binary
    ensures var p := Generic.ComputePath(cfg, meta, key);
            var legacy := ApplyBlind(d, Generic.ProcessOps(cfg, meta, tk, text, bk, binary), cfg.fileMode).files;
            var generic := Generic.Effect(cfg, d, Generic.Delete(meta, text, binary), tk, bk).disk.files;
            p in legacy && legacy[p] == text[key] && p !in generic
  {
    LegacyWritesLikeGeneric(cfg, d, meta, tk, text, bk, binary);
    Generic.ProcessLands(cfg, d, meta, tk, text, bk, binary, key);
    Generic.DeleteRemovesResource(cfg, d, meta, tk, text, bk, binary, key);
  }

  /**
   * With the target folder missing, nothing is written. (Materialize reports a
   * change for any non-empty resource all the same, so the callback fires.)
   */
  lemma MissingFolderWritesNothing(cfg: Generic.Config, d: Disk, meta: ObjectMeta, tk: seq<string>, text: Payload, bk: seq<string>, binary: Payload)
    requires Enumerates(tk, text) && Enumerates(bk, binary) && '/' !in meta.name
    requires Generic.TargetFolder(cfg.folderAnnotation, cfg.folder, meta) !in d.dirs
    requires forall k :: k in text || k in binary ==> '/' !in k
    ensures ApplyBlind(d, Generic.ProcessOps(cfg, meta, tk, text, bk, binary), cfg.fileMode) == d
  {
    Generic.ProcessOpsInFolder(cfg, meta, tk, text, bk, binary);
    BlindMissingFolder(d, Generic.ProcessOps(cfg, meta, tk, text, bk, binary), cfg.fileMode);
  }

  /** The main package's `secretsHandler`. */
  class SecretsHandler {
    const folder: string
    const defaultFileMode: uint32
    const folderAnnotation: string
    const store: FileStore
    var fired: nat

    constructor (folder: string, defaultFileMode: uint32, folderAnnotation: string, store: FileStore)
      ensures this.folder == folder && this.defaultFileMode == defaultFileMode && this.folderAnnotation == folderAnnotation
      ensures this.store == store && fired == 0
    {
      this.folder := folder;
      this.defaultFileMode := defaultFileMode;
      this.folderAnnotation := folderAnnotation;
      this.store := store;
      fired := 0;
    }

    function Config(): Generic.Config {
      AsConfig(folder, defaultFileMode, folderAnnotation)
    }

    method ProcessConfigMap(meta: ObjectMeta, data: Payload, dataBinary: Payload, isDeleted: bool, tk: seq<string>, bk: seq<string>)
      returns (filesChanged: bool)
      requires store.Valid() && Enumerates(tk, data) && Enumerates(bk, dataBinary)
      modifies store
      ensures store.Valid()
      ensures store.State() == ApplyBlind(old(store.State()), Generic.ProcessOps(Config(), meta, tk, data, bk, dataBinary), defaultFileMode)
      ensures filesChanged == (data != map[] || dataBinary != map[])
    {
      filesChanged := Materialize(store, Config(), meta, data, dataBinary, tk, bk);
    }

    method OnAdd(secret: Secret, isInInitialList: bool, tk: seq<string>, bk: seq<string>)
      requires store.Valid() && Enumerates(tk, secret.stringData) && Enumerates(bk, secret.data)
      modifies this, store
      ensures store.Valid()
      ensures store.State() == ApplyBlind(old(store.State()), Generic.ProcessOps(Config(), secret.meta, tk, secret.stringData, bk, secret.data), defaultFileMode)
      ensures fired == old(fired) + if secret.stringData != map[] || secret.data != map[] then 1 else 0
    {
      var changed := ProcessConfigMap(secret.meta, secret.stringData, secret.data, false, tk, bk);
      if changed {
        fired := fired + 1;
      }
    }

    method OnUpdate(oldSecret: Secret, newSecret: Secret, tk: seq<string>, bk: seq<string>)
      requires store.Valid() && Enumerates(tk, newSecret.stringData) && Enumerates(bk, newSecret.data)
      modifies this, store
      ensures store.Valid()
      ensures store.State() == ApplyBlind(old(store.State()), Generic.ProcessOps(Config(), newSecret.meta, tk, newSecret.stringData, bk, newSecret.data), defaultFileMode)
      ensures fired == old(fired) + if newSecret.stringData != map[] || newSecret.data != map[] then 1 else 0
    {
      var changed := ProcessConfigMap(newSecret.meta, newSecret.stringData, newSecret.data, false, tk, bk);
      if changed {
        fired := fired + 1;
      }
    }

    /** Writes the Secret's files again instead of removing them. */
    method OnDelete(secret: Secret, tk: seq<string>, bk: seq<string>)
      requires store.Valid() && Enumerates(tk, secret.stringData) && Enumerates(bk, secret.data)
      modifies this, store
      ensures store.Valid()
      ensures store.State() == ApplyBlind(old(store.State()), Generic.ProcessOps(Config(), secret.meta, tk, secret.stringData, bk, secret.data), defaultFileMode)
      ensures fired == old(fired) + if secret.stringData != map[] || secret.data != map[] then 1 else 0
    {
      var changed := ProcessConfigMap(secret.meta, secret.stringData, secret.data, true, tk, bk);
      if changed {
        fired := fired + 1;
      }
    }
  }

  /** The main package's `cmHandler`. */
  class CmHandler {
    const folder: string
    const defaultFileMode: uint32
    const folderAnnotation: string
    const store: FileStore
    var fired: nat

    constructor (folder: string, defaultFileMode: uint32, folderAnnotation: string, store: FileStore)
      ensures this.folder == folder && this.defaultFileMode == defaultFileMode && this.folderAnnotation == folderAnnotation
      ensures this.store == store && fired == 0
    {
      this.folder := folder;
      this.defaultFileMode := defaultFileMode;
      this.folderAnnotation := folderAnnotation;
      this.store := store;
      fired := 0;
    }

    function Config(): Generic.Config {
      AsConfig(folder, defaultFileMode, folderAnnotation)
    }

    method ProcessConfigMap(meta: ObjectMeta, data: Payload, dataBinary: Payload, isDeleted: bool, tk: seq<string>, bk: seq<string>)
      returns (filesChanged: bool)
      requires store.Valid() && Enumerates(tk, data) && Enumerates(bk, dataBinary)
      modifies store
      ensures store.Valid()
      ensures store.State() == ApplyBlind(old(store.State()), Generic.ProcessOps(Config(), meta, tk, data, bk, dataBinary), defaultFileMode)
      ensures filesChanged == (data != map[] || dataBinary != map[])
    {
      filesChanged := Materialize(store, Config(), meta, data, dataBinary, tk, bk);
    }

    method OnAdd(cm: ConfigMap, isInInitialList: bool, tk: seq<string>, bk: seq<string>)
      requires store.Valid() && Enumerates(tk, cm.data) && Enumerates(bk, cm.binaryData)
      modifies this, store
      ensures store.Valid()
      ensures store.State() == ApplyBlind(old(store.State()), Generic.ProcessOps(Config(), cm.meta, tk, cm.data, bk, cm.binaryData), defaultFileMode)
      ensures fired == old(fired) + if cm.data != map[] || cm.binaryData != map[] then 1 else 0
    {
      var changed := ProcessConfigMap(cm.meta, cm.data, cm.binaryData, false, tk, bk);
      if changed {
        fired := fired + 1;
      }
    }

    method OnUpdate(oldCm: ConfigMap, newCm: ConfigMap, tk: seq<string>, bk: seq<string>)
      requires store.Valid() && Enumerates(tk, newCm.data) && Enumerates(bk, newCm.binaryData)
      modifies this, store
      ensures store.Valid()
      ensures store.State() == ApplyBlind(old(store.State()), Generic.ProcessOps(Config(), newCm.meta, tk, newCm.data, bk, newCm.binaryData), defaultFileMode)
      ensures fired == old(fired) + if newCm.data != map[] || newCm.binaryData != map[] then 1 else 0
    {
      var changed := ProcessConfigMap(newCm.meta, newCm.data, newCm.binaryData, false, tk, bk);
      if changed {
        fired := fired + 1;
      }
    }

    /** Writes the ConfigMap's files again instead of removing them. */
    method OnDelete(cm: ConfigMap, tk: seq<string>, bk: seq<string>)
      requires store.Valid() && Enumerates(tk, cm.data) && Enumerates(bk, cm.binaryData)
      modifies this, store
      ensures store.Valid()
      ensures store.State() == ApplyBlind(old(store.State()), Generic.ProcessOps(Config(), cm.meta, tk, cm.data, bk, cm.binaryData), defaultFileMode)
      ensures fired == old(fired) + if cm.data != map[] || cm.binaryData != map[] then 1 else 0
    {
      var changed := ProcessConfigMap(cm.meta, cm.data, cm.binaryData, true, tk, bk);
      if changed {
        fired := fired + 1;
      }
    }
  }
}
