/** The two backend clients: the standard one, and the debug one that inserts keys when it reads. */
module Client {
  import opened Primitives
  import opened KeyValue

  datatype ClientKind = Standard | Debug

  /** Two stores that no get request can tell apart; they may differ in keys that hold nothing. */
  ghost predicate SameLookups(a: Store, b: Store) {
    forall key :: Lookup(a, key) == Lookup(b, key)
  }

  class BackendClient {
    const kind: ClientKind
    /** The server's data for the standard client, the private map for the debug one. */
    const store: BackendDataStructure

    constructor (kind: ClientKind)
      ensures this.kind == kind
      ensures fresh(store) && store.keyValueMap == map[]
    {
      this.kind := kind;
      store := new BackendDataStructure();
    }

    method SendPutRequest(key: Bytes, value: Bytes) returns (ok: bool)
      modifies store
      ensures ok
      ensures store.keyValueMap == old(store.keyValueMap)[key := value]
    {
      match kind
      case Standard =>
        ok := store.Put(key, value);
      case Debug =>
        store.keyValueMap := store.keyValueMap[key := value];
        ok := true;
    }

    /** Appends one reply per key, the empty string where the key holds nothing. */
    method SendGetRequest(keys: seq<Bytes>, replyValues: seq<Bytes>) returns (ok: bool, values: seq<Bytes>)
      modifies store
      ensures ok
      ensures values == replyValues + Lookups(old(store.keyValueMap), keys)
      ensures SameLookups(old(store.keyValueMap), store.keyValueMap)
      ensures kind.Standard? ==> store.keyValueMap == old(store.keyValueMap)
      ensures kind.Debug? ==> store.keyValueMap.Keys == old(store.keyValueMap).Keys + (set k | k in keys)
    {
      values := replyValues;
      for n := 0 to |keys|
        invariant values == replyValues + Lookups(old(store.keyValueMap), keys[..n])
        invariant SameLookups(old(store.keyValueMap), store.keyValueMap)
        invariant kind.Standard? ==> store.keyValueMap == old(store.keyValueMap)
        invariant kind.Debug? ==> store.keyValueMap.Keys == old(store.keyValueMap).Keys + (set k | k in keys[..n])
      {
        match kind {
          case Standard =>
            var found, value := store.Get(keys[n]);
            values := values + [value];
          case Debug =>
            if keys[n] !in store.keyValueMap {
              store.keyValueMap := store.keyValueMap[keys[n] := []];
            }
            values := values + [store.keyValueMap[keys[n]]];
        }
        assert keys[..n + 1] == keys[..n] + [keys[n]];
      }
      assert keys[..|keys|] == keys;
      ok := true;
    }

    method SendDeleteKeyRequest(key: Bytes) returns (ok: bool)
      modifies store
      ensures ok <==> key in old(store.keyValueMap)
      ensures store.keyValueMap == old(store.keyValueMap) - {key}
    {
      match kind
      case Standard =>
        ok := store.DeleteKey(key);
      case Debug =>
        ok := key in store.keyValueMap;
        store.keyValueMap := store.keyValueMap - {key};
    }
  }
}
