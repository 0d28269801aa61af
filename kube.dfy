/** The parts of the Kubernetes API types the handlers read. */
module Kube {
  import opened Basics

  /** Key to value; a Go `map[string]string` or `map[string][]byte`. */
  type Payload = map<string, Bytes>

  /** `v1.ObjectMeta`: namespace, name and annotations. */
  datatype ObjectMeta = ObjectMeta(namespace: string, name: string, annotations: map<string, string>)

  /** `v1.ConfigMap`: `Data` holds text, `BinaryData` holds bytes. */
  datatype ConfigMap = ConfigMap(meta: ObjectMeta, data: Payload, binaryData: Payload)

  /** `v1.Secret`: `StringData` holds text, `Data` holds bytes. */
  datatype Secret = Secret(meta: ObjectMeta, stringData: Payload, data: Payload)

  /**
   * `keys` is one iteration order of `m`: every key exactly once. Go leaves the
   * order of `for k := range m` unspecified, so the model takes it as a parameter.
   */
  predicate Enumerates<V>(keys: seq<string>, m: map<string, V>) {
    && (forall i :: 0 <= i < |keys| ==> keys[i] in m)
    && (forall k :: k in m ==> k in keys)
    && (forall i, j :: 0 <= i < j < |keys| ==> keys[i] != keys[j])
  }
}
