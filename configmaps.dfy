/**
 * `cmHandler`: the informer's ConfigMap events, forwarded to the generic
 * handler with `Data` as the text map and `BinaryData` as the binary map.
 */
module ConfigMaps {
  import opened Basics
  import opened FileSystem
  import opened Kube
  import Base64
  import Generic

  function AddCall(cm: ConfigMap, isInInitialList: bool): Generic.Call {
    Generic.Add(cm.meta, cm.data, cm.binaryData, isInInitialList)
  }

  /** The new object's metadata and maps; the old maps are passed along. */
  function UpdateCall(oldCm: ConfigMap, newCm: ConfigMap): Generic.Call {
    Generic.Update(newCm.meta, oldCm.data, oldCm.binaryData, newCm.data, newCm.binaryData)
  }

  function DeleteCall(cm: ConfigMap): Generic.Call {
    Generic.Delete(cm.meta, cm.data, cm.binaryData)
  }

  /**
   * A key in both `Data` and `BinaryData` ends up holding the decoded binary
   * value when it decodes, and the text value when it does not.
   */
  lemma BinaryDataWins(cfg: Generic.Config, d: Disk, cm: ConfigMap, isInInitialList: bool, tk: seq<string>, bk: seq<string>, key: string)
    requires d.Valid() && Enumerates(tk, cm.data) && Enumerates(bk, cm.binaryData)
    requires Generic.Materializable(cfg, d, cm.meta, cm.data, cm.binaryData)
    requires key in cm.data && key in cm.binaryData
    ensures var f := Generic.Effect(cfg, d, AddCall(cm, isInInitialList), tk, bk).disk.files;
            var p := Generic.ComputePath(cfg, cm.meta, key);
            p in f && f[p] == match Base64.Decode(cm.binaryData[key]) case Some(v) => v case None => cm.data[key]
  {
    Generic.ProcessLands(cfg, d, cm.meta, tk, cm.data, bk, cm.binaryData, key);
  }

  /** An update acts as an add of the new ConfigMap, whatever the old one held. */
  lemma UpdateIgnoresOld(cfg: Generic.Config, d: Disk, oldCm: ConfigMap, newCm: ConfigMap, tk: seq<string>, bk: seq<string>)
    requires Enumerates(tk, newCm.data) && Enumerates(bk, newCm.binaryData)
    ensures Generic.Effect(cfg, d, UpdateCall(oldCm, newCm), tk, bk) == Generic.Effect(cfg, d, AddCall(newCm, false), tk, bk)
  {
    Generic.UpdateIsAdd(cfg, d, newCm.meta, oldCm.data, oldCm.binaryData, newCm.data, newCm.binaryData, false, tk, bk);
  }

  /** After a delete, no key of either map has a file. */
  lemma DeleteRemovesEveryKey(cfg: Generic.Config, d: Disk, cm: ConfigMap, tk: seq<string>, bk: seq<string>, key: string)
    requires d.Valid() && Enumerates(tk, cm.data) && Enumerates(bk, cm.binaryData)
    requires key in cm.data || key in cm.binaryData
    ensures Generic.ComputePath(cfg, cm.meta, key) !in Generic.Effect(cfg, d, DeleteCall(cm), tk, bk).disk.files
  {
    Generic.DeleteRemovesResource(cfg, d, cm.meta, tk, cm.data, bk, cm.binaryData, key);
  }

  class CmHandler {
    const globalHandler: Generic.Handler

    constructor (globalHandler: Generic.Handler)
      ensures this.globalHandler == globalHandler
    {
      this.globalHandler := globalHandler;
    }

    method OnAdd(cm: ConfigMap, isInInitialList: bool, tk: seq<string>, bk: seq<string>)
      requires globalHandler.Valid() && Enumerates(tk, cm.data) && Enumerates(bk, cm.binaryData)
      modifies globalHandler, globalHandler.store
      ensures globalHandler.Valid()
      ensures var o := Generic.Effect(globalHandler.cfg, old(globalHandler.store.State()), AddCall(cm, isInInitialList), tk, bk);
              globalHandler.store.State() == o.disk &&
              globalHandler.fired == old(globalHandler.fired) + (if o.callback then 1 else 0)
    {
      globalHandler.OnAdd(cm.meta, cm.data, cm.binaryData, isInInitialList, tk, bk);
    }

    method OnUpdate(oldCm: ConfigMap, newCm: ConfigMap, tk: seq<string>, bk: seq<string>)
      requires globalHandler.Valid() && Enumerates(tk, newCm.data) && Enumerates(bk, newCm.binaryData)
      modifies globalHandler, globalHandler.store
      ensures globalHandler.Valid()
      ensures var o := Generic.Effect(globalHandler.cfg, old(globalHandler.store.State()), UpdateCall(oldCm, newCm), tk, bk);
              globalHandler.store.State() == o.disk &&
              globalHandler.fired == old(globalHandler.fired) + (if o.callback then 1 else 0)
    {
      globalHandler.OnUpdate(newCm.meta, oldCm.data, oldCm.binaryData, newCm.data, newCm.binaryData, tk, bk);
    }

    method OnDelete(cm: ConfigMap, tk: seq<string>, bk: seq<string>)
      requires globalHandler.Valid() && Enumerates(tk, cm.data) && Enumerates(bk, cm.binaryData)
      modifies globalHandler, globalHandler.store
      ensures globalHandler.Valid()
      ensures var o := Generic.Effect(globalHandler.cfg, old(globalHandler.store.State()), DeleteCall(cm), tk, bk);
              globalHandler.store.State() == o.disk &&
              globalHandler.fired == old(globalHandler.fired) + (if o.callback then 1 else 0)
    {
      globalHandler.OnDelete(cm.meta, cm.data, cm.binaryData, tk, bk);
    }
  }
}
