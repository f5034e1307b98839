/** The key-value store: its sequential specification and the class of backend_data_structure. */
module KeyValue {
  import opened Primitives

  type Store = map<Bytes, Bytes>

  /** What a get request is answered with: a missing key reads as the empty string. */
  function Lookup(m: Store, key: Bytes): Bytes {
    if key in m then m[key] else []
  }

  function Lookups(m: Store, keys: seq<Bytes>): (values: seq<Bytes>)
    ensures |values| == |keys|
    ensures forall i :: 0 <= i < |keys| ==> values[i] == Lookup(m, keys[i])
  {
    seq(|keys|, i requires 0 <= i < |keys| => Lookup(m, keys[i]))
  }

  class BackendDataStructure {
    var keyValueMap: Store

    constructor ()
      ensures keyValueMap == map[]
    {
      keyValueMap := map[];
    }

    method Put(key: Bytes, value: Bytes) returns (ok: bool)
      modifies this
      ensures ok
      ensures keyValueMap == old(keyValueMap)[key := value]
    {
      keyValueMap := keyValueMap[key := value];
      ok := true;
    }

    method Get(key: Bytes) returns (ok: bool, value: Bytes)
      ensures ok <==> key in keyValueMap
      ensures value == Lookup(keyValueMap, key)
    {
      if key !in keyValueMap {
        return false, [];
      }
      return true, keyValueMap[key];
    }

    method DeleteKey(key: Bytes) returns (ok: bool)
      modifies this
      ensures ok <==> key in old(keyValueMap)
      ensures keyValueMap == old(keyValueMap) - {key}
    {
      ok := key in keyValueMap;
      keyValueMap := keyValueMap - {key};
    }
  }
}
