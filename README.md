# k8s-sidecar materializer, modelled in Dafny

k8s-sidecar watches ConfigMaps and Secrets and mirrors their keys into files in
a folder. Each key becomes one file, and a callback runs when the folder
changes. This project models the part that decides what lands on disk:

- **Generic handler** (`handlers/generic.go`):
  - `NewGenericHandlerImpl` parses the octal file mode.
  - `computePath` picks the folder (a resource annotation can override it) and
    the file name (the plain key, or the unique-name form).
  - `writeData` writes a file only when its bytes differ, and reports whether
    anything changed.
  - `processData` runs the text loop and then the binary (base64) loop.
  - `OnAdd`, `OnUpdate` and `OnDelete` run the callback only when a file was
    written or removed.
- **Resource adapters** (`handlers/configmaps.go`, `handlers/secrets.go`):
  - A ConfigMap's `Data`/`BinaryData` become the text and binary maps.
  - A Secret's `StringData`/`Data` become the text and binary maps.
- **Legacy handlers** (`handlers.go`, package main, not wired from `main.go`):
  - They write every key unconditionally.
  - They never create a folder.
  - They treat a delete like an add.
  - They report a change whenever the resource has any key.

Layout, one module per file:

| file | module | what it holds |
|---|---|---|
| `basics.dfy` | `Basics` | `byte`, `uint32`, `Option` |
| `paths.dfy` | `Paths` | `filepath.Join`, `Dir`, `Base` as string functions |
| `kube.dfy` | `Kube` | `ObjectMeta`, `ConfigMap`, `Secret`; `Enumerates`, one iteration order of a Go map |
| `filesystem.dfy` | `FileSystem` | the `Disk` value; the `FileStore` class with `Stat`, `MkdirAll`, `ReadFile`, `WriteFile`, `Remove`; the reference `Overlay` |
| `strconv.dfy` | `Strconv` | `strconv.ParseUint(s, 8, 32)` |
| `base64.dfy` | `Base64` | `base64.StdEncoding.DecodeString`, with a reference encoder |
| `generic.dfy` | `Generic` | value-level specification functions (`WriteStep`, `Apply`, `ProcessSpec`, `DeleteAll`, `Effect`), their lemmas, and the `Handler` class whose methods are proved equal to them |
| `configmaps.dfy`, `secrets.dfy` | `ConfigMaps`, `Secrets` | the adapters |
| `legacy.dfy` | `Legacy` | the older handlers and their contrast with the generic one |

Modelling choices:

- Go map iteration order is unspecified. Every loop over a map therefore takes
  the iteration order as a parameter `tk`/`bk`, constrained by `Enumerates`,
  and the lemmas hold for every order.
- The callback is modelled as a counter `fired` that the handler increments.
- The mutex, the logging and the callback's HTTP machinery are outside the model.

## Model

| member | source | states |
|---|---|---|
| Strconv.ParseFormatRoundTrip | handlers/generic.go:55-58 | every 32-bit mode, spelled in octal, parses back to itself |
| Strconv.ParseSound | handlers/generic.go:55-58 | a successful parse means a non-empty all-octal string whose octal value is the result |
| Strconv.ParseRejectsNonOctal | handlers/generic.go:55-58 | any character outside '0'..'7' makes the parse fail |
| Strconv.ParseExamples | handlers/generic.go:55-58 | "0755" is 493, "644" is 420; "0o755" and "" are errors |
| Strconv.ParseUint32Octal | handlers/generic.go:59 | `ParseUint(mode, 8, 32)` succeeds iff the string is non-empty, all octal digits, and its value is below 2^32; the result is that value |
| Strconv.ParseOverflow | handlers/generic.go:55-58 | 2^32 ("40000000000") does not fit the 32-bit size and is an error |
| Generic.NewConfigParsesOctal | handlers/generic.go:54-67 | a handler is made iff the mode string is non-empty, octal and below 2^32, and it then carries that value |
| Generic.NewConfigExamples | handlers/generic.go:54-67 | "0755" gives mode 0o755; "0855" gives no handler |
| Paths.SplitJoin | handlers/generic.go:152 | Dir and Base recover folder and name from a joined path whose name has no '/' |
| Paths.JoinInjective | handlers/generic.go:152 | joining two names onto one folder gives one path only for equal names |
| Generic.ComputePath | handlers/generic.go:143-153 | for a key and a name without '/', the file lies directly in the resource's target folder |
| Generic.FileNameNoSlash | handlers/generic.go:148-151 | the file name, plain or unique, has no '/' when the key and the resource name have none |
| Generic.ComputePathParts | handlers/generic.go:143-153 | the folder is the annotation value whenever the annotation key is present (even empty), else the configured folder; the name is the key, or "namespace_"+name+".resource_"+name+"."+key with unique names |
| Generic.ComputePathInjective | handlers/generic.go:143-153 | two keys of one resource share a path iff they are equal |
| Generic.UniqueNameIgnoresNamespace | handlers/generic.go:149-151 | the unique name does not use the namespace, so same-named resources of two namespaces collide |
| Base64.Decode | handlers/generic.go:128 | a successful decode of n characters yields between 3*(n/4)-2 and 3*(n/4) bytes |
| Base64.DecodeEncode | handlers/generic.go:125 | decoding inverts the standard padded encoding for every byte string |
| Base64.DecodeNeedsQuanta | handlers/generic.go:125-129 | input whose length is not a multiple of four is a decode error |
| Base64.DecodeExamples | handlers/generic_test.go:26-31 | "ZGVtbw==" decodes to "demo"; "ZGVtbw" and "ZGVt====" are errors |
| Base64.DecodeIgnoresUnusedBits | handlers/generic.go:125 | the non-strict decoder accepts non-zero unused bits ("ZGVtbx==" is "demo") |
| FileSystem.FileStore.Stat | handlers/generic.go:21 | Stat succeeds iff a file or a directory is at the path |
| FileSystem.FileStore.MkdirAll | handlers/generic.go:23 | the folder is added unless a file is in its place |
| FileSystem.FileStore.ReadFile | handlers/generic.go:34 | reading yields the file's bytes, and fails on a directory or a missing path |
| FileSystem.FileStore.WriteFile | handlers/generic.go:32 | writing succeeds iff the parent is a directory and the path is not; a new file gets the mode, a rewritten one keeps its bits |
| FileSystem.FileStore.Remove | handlers/generic.go:86 | removal succeeds iff a regular file is at the path, and removes only it |
| FileSystem.OverlayAt | handlers/generic.go:113-138 | after a sequence of overwrites each path holds its last write, or its old bytes |
| Generic.WriteFileStep | handlers/generic.go:31-42 | a missing file is created and reported changed; an existing one is rewritten and reported changed iff its bytes differ; wherever the write can land it succeeds and reports a change iff the bytes differ; nothing else changes |
| Generic.WriteStep | handlers/generic.go:17-43 | only the target file changes; a reported change means new bytes landed; the mode is set only on creation; folders only grow |
| Generic.WriteStepLands | handlers/generic.go:31-42 | with the folder present, the file ends holding the data, and the call reports a change iff the bytes were new |
| Generic.WriteStepIdempotent | handlers/generic.go:38-40 | repeating an identical write reports no change and leaves the disk alone |
| Generic.WriteStepCreatesFolder | handlers/generic.go:20-42 | as intended (corrected writeData): a missing folder is created and the file still lands |
| Generic.WriteStepAsWritten | handlers/generic.go:17-43 | as written: when it does not fail it acts as the corrected write; when the folder is missing it creates the folder, writes no file and fails; the disk stays consistent |
| Generic.AsWrittenLosesFirstWrite | handlers/generic.go:20-30 | as written, the first write into a missing folder creates the folder, writes nothing and fails |
| Generic.AsWrittenAgreesWithFolder | handlers/generic.go:20-30 | where the folder exists, the code as written and as intended agree |
| Generic.Apply | handlers/generic.go:113-138 | a run of writes with no reported change leaves the files as they were, and keeps the disk consistent |
| Generic.ApplyIsOverlay | handlers/generic.go:113-138 | where every folder exists, the diffing writes leave exactly what plain overwrites would |
| Generic.ApplyIsolation | handlers/generic.go:113-138 | a path no write names keeps its existence and bytes |
| Generic.ApplyIdempotent | handlers/generic.go:38-40 | agreeing writes, run again, change nothing and report nothing |
| Generic.ApplyChanged | handlers/generic.go:112-140 | where every write can land, the loop flag is set iff some write brings bytes its file lacked before the run |
| Generic.ProcessSpec | handlers/generic.go:110-141 | `processData` as a whole: an event that reports no change leaves every file as it was, removes no folder and keeps the disk consistent |
| Generic.ProcessSpecAsWritten | handlers/generic.go:110-141 | as written: the same three guarantees hold for the event run with the shadowed-error write |
| Generic.ApplyChangedSticks | handlers/generic.go:119-121 | once set, the flag stays set through later writes |
| Generic.ApplyAppend | handlers/generic.go:110-141 | the text loop followed by the binary loop is one run over both |
| Generic.LastWriteKeyOps | handlers/generic.go:113-138 | the last write a loop makes to a key's path is that key's content |
| Generic.LastWriteProcessOps | handlers/generic.go:110-141 | the last write to a key's path is its decodable binary value, else its text value |
| Generic.ProcessLands | handlers/generic.go:110-141 | every key of the event ends holding its expected bytes (a decodable binary value over the text value); an undecodable-only key keeps its old file |
| Generic.ProcessIsolation | handlers/generic.go:110-141 | paths outside the event's keys are untouched |
| Generic.ProcessIdempotent | handlers/generic.go:110-141 | where every write lands and every key in both maps has a binary value that does not decode or decodes to its text value, running the same event again, with its keys visited in any order, writes nothing and reports no change |
| Generic.ProcessChanged | handlers/generic.go:110-141 | where every write lands and every shared key agrees as above, `processData` returns true iff some key brings bytes its file lacks |
| Generic.ProcessChangedAnyValue | handlers/generic.go:110-141 | where every write lands, with no condition on shared keys, `processData` returns true iff some text value, or some decodable binary value, differs from what its file held before the event |
| Generic.ProcessOpValue | handlers/generic.go:113-138 | the i-th write of an event is the i-th visited text key with its value, or the matching binary key with its decoded value (or nothing when it does not decode) |
| Generic.DifferingOpIsValue | handlers/generic.go:113-138 | a write of the event that brings new bytes is a text value or a decodable binary value that differs from its file |
| Generic.DifferingValueIsOp | handlers/generic.go:113-138 | a text value or decodable binary value that differs from its file is written by the event |
| Generic.SharedKeyRepeatsChange | handlers/generic.go:113-138 | a key in both maps whose binary value decodes to bytes other than its text value makes the repeated event report a change, in any key order of the repeat |
| Generic.RepeatIsQuietIff | handlers/generic.go:110-141 | where every write lands, a repeated event, in any key order, reports no change iff every shared key's binary value does not decode or decodes to its text value |
| Generic.ProcessCreatesFolder | handlers/generic.go:20-30 | as intended (corrected writeData): with the target folder missing, an event that writes anything acts as if the folder had existed; otherwise nothing happens |
| Generic.ProcessOpsInFolder | handlers/generic.go:113-138 | every write of an event goes directly into the resource's target folder |
| Generic.MissingFolderIsCreated | handlers/generic.go:20-42 | as intended (corrected writeData): a one-key event into a missing folder creates it and lands the file |
| Generic.ApplyAsWrittenSkips | handlers/generic.go:113-138 | with writeData as written, an event whose keys all skip changes nothing |
| Generic.AsWrittenDropsFirstWrite | handlers/generic.go:20-30 | with writeData as written and every write going into one missing folder, the first write only creates the folder and is lost, reporting no change; the later writes run as the intended ones do with the folder present |
| Generic.ProcessAsWrittenLosesFirstKey | handlers/generic.go:20-30 | with writeData as written, an event for a resource whose folder is missing loses its first written key in iteration order; the rest is processed as with the folder present |
| Generic.AsWrittenSingleKeyLost | handlers/generic.go:20-30 | with writeData as written, a one-key event into a missing folder creates the folder, writes no file and reports no change, so the callback does not fire |
| Generic.AsWrittenTwoKeys | handlers/generic.go:20-30 | with writeData as written, a two-key event into a missing folder leaves the first key's file as it was, lands the second, and reports a change iff the second key's bytes are new |
| Generic.AsWrittenTwoPuts | handlers/generic.go:20-30 | with writeData as written, of two writes into one missing folder only the second lands |
| Generic.ScenarioExpected | handlers/generic_test.go:33-49 | in the "ovewritten" scenario the shared key and both binary-only keys expect "demo", and the text-only key expects its text |
| Generic.OverwrittenScenario | handlers/generic_test.go:33-49 | after that event the four files hold exactly those bytes, and any other key's file is untouched |
| Generic.DeleteAll | handlers/generic.go:81-108 | a delete only removes files: no folder changes, every remaining file keeps its bytes, and a delete that reports no change leaves the disk as it was |
| Generic.Effect | handlers/generic.go:69-108 | an event that does not fire the callback leaves every file as it was, and every event keeps the disk consistent |
| Generic.DeleteAllExact | handlers/generic.go:81-104 | a delete removes exactly the existing files at the visited paths; it reports a change iff one existed |
| Generic.DeleteAllAppend | handlers/generic.go:81-104 | the text loop followed by the binary loop is one delete over both path lists |
| Generic.DeleteRemovesResource | handlers/generic.go:81-104 | after a delete no key of either map has a file |
| Generic.DeleteIsolation | handlers/generic.go:81-104 | a delete leaves every other path as it was |
| Generic.DeleteIdempotent | handlers/generic.go:85 | deleting again removes nothing and reports no change |
| Generic.DeleteIdempotentAnyOrder | handlers/generic.go:81-107 | deleting a resource again, with its keys visited in any order, removes nothing and reports no change |
| Generic.DeletedPathsGone | handlers/generic.go:81-104 | after a delete, no path of the resource's keys, in any order, names a file |
| Generic.DeleteAbsent | handlers/generic.go:83-93 | removing paths none of which names a file changes nothing and reports no change |
| Generic.UpdateIsAdd | handlers/generic.go:75-79 | an update ignores the old maps and acts as an add of the new ones |
| Generic.RepeatedAddIsQuiet | handlers/generic.go:69-73 | where the target folder exists, no key or name holds '/', no target path is a directory and every shared key agrees, repeating an add in any key order does not fire the callback again |
| Generic.RepeatedDeleteIsQuiet | handlers/generic.go:81-108 | repeating a delete, in any key order, does not fire the callback again, on any valid disk |
| Generic.Handler.constructor | handlers/generic.go:59-66 | the handler holds its settings and has fired no callback |
| Generic.Handler.WriteData | handlers/generic.go:17-43 | as intended (corrected writeData): the store and the result are exactly WriteStep of the old store |
| Generic.Handler.WriteText | handlers/generic.go:113-122 | the text loop leaves exactly Apply of the text keys' writes, and returns its flag |
| Generic.Handler.WriteBinary | handlers/generic.go:124-138 | the binary loop skips undecodable values and leaves exactly Apply of the decoded writes |
| Generic.Handler.ProcessData | handlers/generic.go:110-141 | store and result are ProcessSpec of the old store |
| Generic.Handler.OnAdd | handlers/generic.go:69-73 | the store is as processData leaves it; the callback fires once iff it reported a change |
| Generic.Handler.OnUpdate | handlers/generic.go:75-79 | the same, using only the new maps |
| Generic.Handler.RemoveKeys | handlers/generic.go:83-93 | one delete loop leaves exactly DeleteAll of its keys' paths and returns whether a file was removed |
| Generic.Handler.OnDelete | handlers/generic.go:81-108 | the store is as DeleteAll leaves it; the callback fires once iff some removal succeeded |
| ConfigMaps.BinaryDataWins | handlers/configmaps.go:16-19 | `Data` is the text map and `BinaryData` the binary one: a shared key ends holding the decoded `BinaryData` value, or the `Data` value when it does not decode |
| ConfigMaps.UpdateIgnoresOld | handlers/configmaps.go:21-25 | the old ConfigMap's maps only fill the old positions; the update acts as an add of the new one |
| ConfigMaps.DeleteRemovesEveryKey | handlers/configmaps.go:27-30 | a delete removes the files of both maps' keys |
| ConfigMaps.CmHandler.constructor | handlers/configmaps.go:12-14 | the adapter holds the generic handler |
| ConfigMaps.CmHandler.OnAdd | handlers/configmaps.go:16-19 | forwards meta, `Data`, `BinaryData` and `isInInitialList`; store and callback as the generic add |
| ConfigMaps.CmHandler.OnUpdate | handlers/configmaps.go:21-25 | forwards the new meta and maps, the old maps in the old positions |
| ConfigMaps.CmHandler.OnDelete | handlers/configmaps.go:27-30 | forwards meta, `Data` and `BinaryData` to the generic delete |
| Secrets.DataWins | handlers/secrets.go:16-19 | `StringData` is the text map and `Data` the binary one: a shared key ends holding the decoded `Data` value, or the `StringData` value when it does not decode |
| Secrets.UndecodableDataSkipped | handlers/secrets.go:16-19 | for a key not in `StringData`, a `Data` value that is not base64 leaves its file as it was |
| Secrets.UpdateIgnoresOld | handlers/secrets.go:21-25 | the old Secret's maps only fill the old positions; the update acts as an add of the new one |
| Secrets.DeleteRemovesEveryKey | handlers/secrets.go:27-30 | a delete removes the files of both maps' keys |
| Secrets.SecretsHandler.constructor | handlers/secrets.go:12-14 | the adapter holds the generic handler |
| Secrets.SecretsHandler.OnAdd | handlers/secrets.go:16-19 | forwards meta, `StringData`, `Data` and `isInInitialList`; store and callback as the generic add |
| Secrets.SecretsHandler.OnUpdate | handlers/secrets.go:21-25 | forwards the new meta and maps, the old maps in the old positions |
| Secrets.SecretsHandler.OnDelete | handlers/secrets.go:27-30 | forwards meta, `StringData` and `Data` to the generic delete |
| Legacy.BlindStep | handlers.go:58-71 | a blind write replaces the file's bytes whenever the path is writable, and otherwise changes nothing; folders never change |
| Legacy.ApplyBlind | handlers.go:53-77 | the blind writes never create a folder and keep the disk consistent |
| Legacy.BlindIsOverlay | handlers.go:53-77 | where the folder exists, the blind writes leave what plain overwrites would |
| Legacy.BlindMissingFolder | handlers.go:56 | where no folder exists, nothing is written |
| Legacy.LegacyPathIsBareKey | handlers.go:49-55 | the file is the bare key in the annotated folder when the annotation is present, else in the configured one |
| Legacy.WriteText | handlers.go:53-61 | every text key is written unconditionally, and the flag is set iff there is a text key |
| Legacy.WriteBinary | handlers.go:63-77 | every decodable binary key is written; the flag is set for every key, decodable or not |
| Legacy.Materialize | handlers.go:45-79 | the store is the blind writes of text then binary keys; the result is true iff either map is non-empty |
| Legacy.LegacyWritesLikeGeneric | handlers.go:53-77 | where folders exist, the legacy files equal the generic handler's |
| Legacy.LegacyLands | handlers.go:53-77 | each key ends holding its decodable binary value, else its text value; other keys keep their files |
| Legacy.DeleteWritesInstead | handlers.go:36-42 | a delete writes the text key's file, where the generic handler removes it |
| Legacy.MissingFolderWritesNothing | handlers.go:53-78 | with the folder missing nothing is written |
| Legacy.SecretsHandler.constructor | handlers.go:13-18 | the handler holds its settings and has fired no callback |
| Legacy.SecretsHandler.ProcessConfigMap | handlers.go:45-79 | store as Materialize; result true iff `StringData` or `Data` is non-empty; `isDeleted` is ignored |
| Legacy.SecretsHandler.OnAdd | handlers.go:20-26 | processes the Secret and fires the callback iff it has any key |
| Legacy.SecretsHandler.OnUpdate | handlers.go:28-34 | reads only the new Secret; same effect as an add |
| Legacy.SecretsHandler.OnDelete | handlers.go:36-42 | writes the Secret's files again and fires the callback iff it has any key |
| Legacy.CmHandler.constructor | handlers.go:81-86 | the handler holds its settings and has fired no callback |
| Legacy.CmHandler.ProcessConfigMap | handlers.go:113-147 | store as Materialize; result true iff `Data` or `BinaryData` is non-empty; `isDeleted` is ignored |
| Legacy.CmHandler.OnAdd | handlers.go:88-95 | processes the ConfigMap and fires the callback iff it has any key |
| Legacy.CmHandler.OnUpdate | handlers.go:97-102 | reads only the new ConfigMap; same effect as an add |
| Legacy.CmHandler.OnDelete | handlers.go:104-110 | writes the ConfigMap's files again and fires the callback iff it has any key |

## Left out

- ConfigMaps.CmHandler.OnAdd, OnUpdate and OnDelete, Secrets.SecretsHandler.OnAdd, OnUpdate and OnDelete, and Legacy.SecretsHandler and Legacy.CmHandler OnAdd, OnUpdate and OnDelete take a typed ConfigMap or Secret. The source takes `interface{}` and uses a single-value type assertion (handlers/configmaps.go:17,22,23,28; handlers/secrets.go:17,22,23,28; handlers.go:21,29,37,89,98,105), so it panics on any other object, for example a delete tombstone; that panic is not modelled.
- callback.go is not part of this model: it is an HTTP client with TLS settings, retry and a wall-clock budget. The handlers see the callback only as a function they invoke, modelled as the `fired` counter.
- main.go and metrics.go are not part of this model: they are configuration, client wiring, signal handling and an HTTP metrics server.
- The mutex in `writeData` (handlers/generic.go:18-19) is left out: calls are modelled one at a time, which is what the lock enforces.
- Logging and printing are left out.
- Real permission effects are left out: the mode is stored per file and nothing more.
- `isInInitialList` is carried through the calls but never read, as in `processData` (handlers/generic.go:110).
- Generic.Handler.WriteData follows the corrected `writeData` (see Findings): a missing folder is created and the write goes on, so it never fails for that reason. The code as written is Generic.WriteStepAsWritten, and its effect on whole events is Generic.ProcessSpecAsWritten with the lemmas about it. Generic.Handler and everything built on Generic.ProcessSpec describe the corrected behaviour.
- Generic.Handler.WriteData: I/O failures are modelled only where the disk model produces them:
  - a file in the way of the folder;
  - a directory at the path.

  A read failure of a regular file, a Stat error other than "not exist", and a MkdirAll failure after Stat found nothing (for example a permission error) are not modelled.
- FileSystem.FileStore.MkdirAll adds only the folder itself, not its missing ancestors, and keeps no permission bits for it.
- FileSystem.FileStore.Remove reports failure on any directory, while Go's `os.Remove` would remove an empty one.
- Paths.Join is plain concatenation with one '/'. It does not clean the path (double separators, `..`, an absolute second part). It also keeps an empty folder: Go's `filepath.Join("", key)` drops the empty element and gives the relative path `key`, while the model gives `"/" + key`. This is the case of a folder annotation that is present with an empty value (handlers/generic.go:145-146).
- Base64.Decode rejects '\r' and '\n', which Go's decoder skips.
- Text values are modelled as the byte sequences Go's `[]byte(value)` conversion yields.
- Keys and names are Dafny strings compared as character sequences, with no encoding.
- Generic.ProcessLands, Generic.ProcessIdempotent, Generic.ProcessChanged, Generic.SharedKeyRepeatsChange, Generic.RepeatIsQuietIff and Generic.RepeatedAddIsQuiet assume the target folder exists. No key or name may hold '/', and no target path may be a directory. For the corrected write, Generic.ProcessCreatesFolder reduces a missing folder to the existing-folder case. For the code as written, Generic.ProcessAsWrittenLosesFirstKey gives the reduction, minus the first written key.
- Generic.ProcessIdempotent, Generic.ProcessChanged and Generic.RepeatedAddIsQuiet require every key in both maps to agree (Generic.ProcessChangedAnyValue states the change flag without this condition): its binary value does not decode, or decodes to its text value. For a shared key whose binary value decodes to other bytes, Generic.SharedKeyRepeatsChange shows that a repeated event reports a change, and Generic.RepeatIsQuietIff shows that the condition is exact. The promise that a repeated identical add is quiet holds only under this condition. A repeated delete is quiet without it (Generic.RepeatedDeleteIsQuiet).
- Secrets: client-go already delivers `Secret.Data` decoded from base64. Like the code, the model decodes it again, so a Secret value is materialized only if it is itself valid base64.
- ConfigMaps: `ConfigMap.BinaryData` also arrives from client-go as raw bytes, not base64 (handlers/configmaps.go:18). It is handed on as the binary map and decoded again, like `Secret.Data`. A binary ConfigMap value is therefore materialized only if its raw bytes are themselves valid base64; otherwise the key is skipped, or falls back to its `Data` value.
- The test in handlers/generic_test.go:52 uses `NewGenericHandlerImpl` as if it returned a single value. Its scenario is modelled as Generic.OverwrittenScenario with the configuration it intends (folder annotation "some-annotation").
- The mode is applied only when a file is created (handlers/generic.go:32, 42 via `os.WriteFile`); a rewrite keeps the file's existing permission bits. Generic.WriteStep states this.
- An existing path that cannot be read compares as empty (handlers/generic.go:34-38). A directory at the path, with empty data, therefore reports "unchanged" and no error. Generic.WriteFileStep states this.

## Findings

| source | as written | input that shows it | evidently intended | confidence | as-written member | corrected member |
|---|---|---|---|---|---|---|
| handlers/generic.go:20-30 | when the parent folder is missing, `MkdirAll`'s error is held in a shadowing `err`, and the outer `err` from the first Stat ("not exist") is then returned; the folder is created but the file is not written, and the key counts as an error | an empty disk and the path "/config/app.conf" with any data | create the folder and go on to write the file | high; not executed | Generic.AsWrittenLosesFirstWrite (over Generic.WriteStepAsWritten); at event level Generic.AsWrittenSingleKeyLost and Generic.AsWrittenTwoKeys | Generic.WriteStepCreatesFolder (over Generic.WriteStep, used by Generic.Handler.WriteData and everything above it) |
