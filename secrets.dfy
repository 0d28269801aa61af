/**
 * `secretsHandler`: the informer's Secret events, forwarded to the generic
 * handler with `StringData` as the text map and `Data` as the binary map.
 */
module Secrets {
  import opened Basics
  import opened FileSystem
  import opened Kube
  import Base64
  import Generic

  function AddCall(secret: Secret, isInInitialList: bool): Generic.Call {
    Generic.Add(secret.meta, secret.stringData, secret.data, isInInitialList)
  }

  /** The new object's metadata and maps; the old maps are passed along. */
  function UpdateCall(oldSecret: Secret, newSecret: Secret): Generic.Call {
    Generic.Update(newSecret.meta, oldSecret.stringData, oldSecret.data, newSecret.stringData, newSecret.data)
  }

  function DeleteCall(secret: Secret): Generic.Call {
    Generic.Delete(secret.meta, secret.stringData, secret.data)
  }

  /**
   * `Data` is the binary map: a key in both `StringData` and `Data` ends up
   * holding the decoded `Data` value when it decodes, and the `StringData`
   * value when it does not.
   */
  lemma DataWins(cfg: Generic.Config, d: Disk, secret: Secret, isInInitialList: bool, tk: seq<string>, bk: seq<string>, key: string)
    requires d.Valid() && Enumerates(tk, secret.stringData) && Enumerates(bk, secret.data)
    requires Generic.Materializable(cfg, d, secret.meta, secret.stringData, secret.data)
    requires key in secret.stringData && key in secret.data
    ensures var f := Generic.Effect(cfg, d, AddCall(secret, isInInitialList), tk, bk).disk.files;
            var p := Generic.ComputePath(cfg, secret.meta, key);
            p in f && f[p] == match Base64.Decode(secret.data[key]) case Some(v) => v case None => secret.stringData[key]
  {
    Generic.ProcessLands(cfg, d, secret.meta, tk, secret.stringData, bk, secret.data, key);
  }

  /** A `Data` value that is not valid base64 is skipped: its file keeps what it held. */
  lemma UndecodableDataSkipped(cfg: Generic.Config, d: Disk, secret: Secret, isInInitialList: bool, tk: seq<string>, bk: seq<string>, key: string)
    requires d.Valid() && Enumerates(tk, secret.stringData) && Enumerates(bk, secret.data)
    requires Generic.Materializable(cfg, d, secret.meta, secret.stringData, secret.data)
    requires key !in secret.stringData && key in secret.data && Base64.Decode(secret.data[key]).None?
    ensures var f := Generic.Effect(cfg, d, AddCall(secret, isInInitialList), tk, bk).disk.files;
            var p := Generic.ComputePath(cfg, secret.meta, key);
            (p in f <==> p in d.files) && (p in f ==> f[p] == d.files[p])
  {
    Generic.ProcessLands(cfg, d, secret.meta, tk, secret.stringData, bk, secret.data, key);
  }

  /** An update acts as an add of the new Secret, whatever the old one held. */
  lemma UpdateIgnoresOld(cfg: Generic.Config, d: Disk, oldSecret: Secret, newSecret: Secret, tk: seq<string>, bk: seq<string>)
    requires Enumerates(tk, newSecret.stringData) && Enumerates(bk, newSecret.data)
    ensures Generic.Effect(cfg, d, UpdateCall(oldSecret, newSecret), tk, bk) == Generic.Effect(cfg, d, AddCall(newSecret, false), tk, bk)
  {
    Generic.UpdateIsAdd(cfg, d, newSecret.meta, oldSecret.stringData, oldSecret.data, newSecret.stringData, newSecret.data, false, tk, bk);
  }

  /** After a delete, no key of either map has a file. */
  lemma DeleteRemovesEveryKey(cfg: Generic.Config, d: Disk, secret: Secret, tk: seq<string>, bk: seq<string>, key: string)
    requires d.Valid() && Enumerates(tk, secret.stringData) && Enumerates(bk, secret.data)
    requires key in secret.stringData || key in secret.data
    ensures Generic.ComputePath(cfg, secret.meta, key) !in Generic.Effect(cfg, d, DeleteCall(secret), tk, bk).disk.files
  {
    Generic.DeleteRemovesResource(cfg, d, secret.meta, tk, secret.stringData, bk, secret.data, key);
  }

  class SecretsHandler {
    const globalHandler: Generic.Handler

    constructor (globalHandler: Generic.Handler)
      ensures this.globalHandler == globalHandler
    {
      this.globalHandler := globalHandler;
    }

    method OnAdd(secret: Secret, isInInitialList: bool, tk: seq<string>, bk: seq<string>)
      requires globalHandler.Valid() && Enumerates(tk, secret.stringData) && Enumerates(bk, secret.data)
      modifies globalHandler, globalHandler.store
      ensures globalHandler.Valid()
      ensures var o := Generic.Effect(globalHandler.cfg, old(globalHandler.store.State()), AddCall(secret, isInInitialList), tk, bk);
              globalHandler.store.State() == o.disk &&
              globalHandler.fired == old(globalHandler.fired) + (if o.callback then 1 else 0)
    {
      globalHandler.OnAdd(secret.meta, secret.stringData, secret.data, isInInitialList, tk, bk);
    }

    method OnUpdate(oldSecret: Secret, newSecret: Secret, tk: seq<string>, bk: seq<string>)
      requires globalHandler.Valid() && Enumerates(tk, newSecret.stringData) && Enumerates(bk, newSecret.data)
      modifies globalHandler, globalHandler.store
      ensures globalHandler.Valid()
      ensures var o := Generic.Effect(globalHandler.cfg, old(globalHandler.store.State()), UpdateCall(oldSecret, newSecret), tk, bk);
              globalHandler.store.State() == o.disk &&
              globalHandler.fired == old(globalHandler.fired) + (if o.callback then 1 else 0)
    {
      globalHandler.OnUpdate(newSecret.meta, oldSecret.stringData, oldSecret.data, newSecret.stringData, newSecret.data, tk, bk);
    }

    method OnDelete(secret: Secret, tk: seq<string>, bk: seq<string>)
      requires globalHandler.Valid() && Enumerates(tk, secret.stringData) && Enumerates(bk, secret.data)
      modifies globalHandler, globalHandler.store
      ensures globalHandler.Valid()
      ensures var o := Generic.Effect(globalHandler.cfg, old(globalHandler.store.State()), DeleteCall(secret), tk, bk);
              globalHandler.store.State() == o.disk &&
              globalHandler.fired == old(globalHandler.fired) + (if o.callback then 1 else 0)
    {
      globalHandler.OnDelete(secret.meta, secret.stringData, secret.data, tk, bk);
    }
  }
}
