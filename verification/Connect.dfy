/** chirp_connect_backend: typed records over the flat byte store, and the refinement they give. */
module Connect {
  import opened Primitives
  import opened Records
  import opened KeyValue
  import opened Keys
  import opened Tags
  import opened Model
  import opened Client

  function DecodeCounter(codec: Codec, entry: Bytes): uint64 {
    if entry == [] then 0 else codec.decodeCounter(entry)
  }

  /** The bytes stored under a key are what the state says about it. */
  predicate Holds(codec: Codec, st: State, k: Key, entry: Bytes) {
    match k
    case NextChirpIdKey => st.counter == DecodeCounter(codec, entry)
    case UserKey(u) => if u in st.users then entry != [] && codec.decodeUser(entry) == st.users[u] else entry == []
    case FollowingKey(u) => codec.decodeNames(entry) == FollowingOf(st, u)
    case ChirpListKey(u) => codec.decodeIds(entry) == ChirpListOf(st, u)
    case ChirpKey(id) =>
      if id in st.chirps then entry != [] && codec.decodeChirp(entry) == st.chirps[id] else entry == []
    case TagKey(t) => codec.decodeIds(entry) == TagList(st.tags, t)
  }

  /** The flat store holds, under prefixed keys and serialised, the six components of the state. */
  ghost predicate Represents(codec: Codec, m: Store, st: State) {
    forall k :: Holds(codec, st, k, Entry(m, k))
  }

  lemma EmptyStoreRepresentsInitial(codec: Codec)
    requires codec.Faithful()
    ensures Represents(codec, map[], INITIAL)
  {
  }

  /** A store represents one state only, up to lists that are absent and lists that are empty. */
  lemma RepresentsOne(codec: Codec, m: Store, a: State, b: State)
    requires Represents(codec, m, a) && Represents(codec, m, b)
    ensures a.counter == b.counter && a.users == b.users && a.chirps == b.chirps
    ensures forall u :: FollowingOf(a, u) == FollowingOf(b, u) && ChirpListOf(a, u) == ChirpListOf(b, u)
    ensures forall t :: TagList(a.tags, t) == TagList(b.tags, t)
  {
    SameAt(codec, m, a, b, NextChirpIdKey);
    forall u
      ensures u in a.users <==> u in b.users
      ensures u in a.users ==> a.users[u] == b.users[u]
      ensures FollowingOf(a, u) == FollowingOf(b, u) && ChirpListOf(a, u) == ChirpListOf(b, u)
    {
      SameAt(codec, m, a, b, UserKey(u));
      SameAt(codec, m, a, b, FollowingKey(u));
      SameAt(codec, m, a, b, ChirpListKey(u));
    }
    forall id
      ensures id in a.chirps <==> id in b.chirps
      ensures id in a.chirps ==> a.chirps[id] == b.chirps[id]
    {
      SameAt(codec, m, a, b, ChirpKey(id));
    }
    forall t
      ensures TagList(a.tags, t) == TagList(b.tags, t)
    {
      SameAt(codec, m, a, b, TagKey(t));
    }
  }

  lemma SameAt(codec: Codec, m: Store, a: State, b: State, k: Key)
    requires Represents(codec, m, a) && Represents(codec, m, b)
    ensures Holds(codec, a, k, Entry(m, k)) && Holds(codec, b, k, Entry(m, k))
  {
  }

  /** Reads on either backend leave the represented state alone. */
  lemma SameLookupsRepresents(codec: Codec, a: Store, b: Store, st: State)
    requires Represents(codec, a, st) && SameLookups(a, b)
    ensures Represents(codec, b, st)
  {
    forall k
      ensures Holds(codec, st, k, Entry(b, k))
    {
      assert Entry(a, k) == Entry(b, k);
    }
  }

  // ---------- each save changes its own component only ----------

  lemma SaveRefines(codec: Codec, m: Store, st: State, st': State, k: Key, value: Bytes)
    requires Represents(codec, m, st) && Holds(codec, st', k, value)
    requires forall other, entry :: other != k && Holds(codec, st, other, entry) ==> Holds(codec, st', other, entry)
    ensures Represents(codec, m[KeyBytes(k) := value], st')
  {
    var m' := m[KeyBytes(k) := value];
    forall other
      ensures Holds(codec, st', other, Entry(m', other))
    {
      PutEntry(m, k, value, other);
    }
  }

  lemma SaveCounterRefines(codec: Codec, m: Store, st: State, n: uint64)
    requires codec.Faithful() && Represents(codec, m, st)
    ensures Represents(codec, m[KeyBytes(NextChirpIdKey) := codec.encodeCounter(n)], st.(counter := n))
  {
    SaveRefines(codec, m, st, st.(counter := n), NextChirpIdKey, codec.encodeCounter(n));
  }

  lemma SaveUserRefines(codec: Codec, m: Store, st: State, username: Bytes, user: User)
    requires codec.Faithful() && Represents(codec, m, st) && user.username != []
    ensures Represents(codec, m[KeyBytes(UserKey(username)) := codec.encodeUser(user)],
                       st.(users := st.users[username := user]))
  {
    SaveRefines(codec, m, st, st.(users := st.users[username := user]), UserKey(username), codec.encodeUser(user));
  }

  lemma SaveFollowingRefines(codec: Codec, m: Store, st: State, username: Bytes, names: set<Bytes>)
    requires codec.Faithful() && Represents(codec, m, st)
    ensures Represents(codec, m[KeyBytes(FollowingKey(username)) := codec.encodeNames(names)],
                       st.(followings := st.followings[username := names]))
  {
    SaveRefines(codec, m, st, st.(followings := st.followings[username := names]),
                FollowingKey(username), codec.encodeNames(names));
  }

  lemma SaveChirpListRefines(codec: Codec, m: Store, st: State, username: Bytes, ids: set<uint64>)
    requires codec.Faithful() && Represents(codec, m, st)
    ensures Represents(codec, m[KeyBytes(ChirpListKey(username)) := codec.encodeIds(ids)],
                       st.(chirpLists := st.chirpLists[username := ids]))
  {
    SaveRefines(codec, m, st, st.(chirpLists := st.chirpLists[username := ids]),
                ChirpListKey(username), codec.encodeIds(ids));
  }

  lemma SaveChirpRefines(codec: Codec, m: Store, st: State, id: uint64, chirp: Chirp)
    requires codec.Faithful() && Represents(codec, m, st) && (chirp.id > 0 || chirp.username != [])
    ensures Represents(codec, m[KeyBytes(ChirpKey(id)) := codec.encodeChirp(chirp)],
                       st.(chirps := st.chirps[id := chirp]))
  {
    SaveRefines(codec, m, st, st.(chirps := st.chirps[id := chirp]), ChirpKey(id), codec.encodeChirp(chirp));
  }

  lemma SaveTagRefines(codec: Codec, m: Store, st: State, tag: Bytes, ids: set<uint64>)
    requires codec.Faithful() && Represents(codec, m, st)
    ensures Represents(codec, m[KeyBytes(TagKey(tag)) := codec.encodeIds(ids)],
                       st.(tags := st.tags[tag := ids]))
  {
    SaveRefines(codec, m, st, st.(tags := st.tags[tag := ids]), TagKey(tag), codec.encodeIds(ids));
  }

  lemma DeleteChirpRefines(codec: Codec, m: Store, st: State, id: uint64)
    requires Represents(codec, m, st)
    ensures Represents(codec, m - {KeyBytes(ChirpKey(id))}, st.(chirps := st.chirps - {id}))
  {
    var st' := st.(chirps := st.chirps - {id});
    var m' := m - {KeyBytes(ChirpKey(id))};
    forall other
      ensures Holds(codec, st', other, Entry(m', other))
    {
      DeleteEntry(m, ChirpKey(id), other);
      assert Holds(codec, st, other, Entry(m, other));
    }
  }

  // ---------- the wrappers ----------

  class ChirpConnect {
    const codec: Codec
    const client: BackendClient
    /** The state that the client's store represents. */
    ghost var st: State

    ghost predicate Valid()
      reads this, client.store
    {
      codec.Faithful() && Represents(codec, client.store.keyValueMap, st)
    }

    constructor (codec: Codec, kind: ClientKind)
      requires codec.Faithful()
      ensures Valid() && st == INITIAL
      ensures this.codec == codec && client.kind == kind
      ensures fresh(client) && fresh(client.store)
    {
      this.codec := codec;
      client := new BackendClient(kind);
      st := INITIAL;
      EmptyStoreRepresentsInitial(codec);
    }

    /** One record's bytes; on the debug backend even this writes. */
    method GetEntry(k: Key) returns (entry: Bytes)
      requires Valid()
      modifies client.store
      ensures Valid() && st == old(st)
      ensures Holds(codec, st, k, entry)
    {
      var ok, reply := client.SendGetRequest([KeyBytes(k)], []);
      SameLookupsRepresents(codec, old(client.store.keyValueMap), client.store.keyValueMap, st);
      entry := reply[0];
      assert entry == Entry(old(client.store.keyValueMap), k);
    }

    method GetNextChirpId() returns (id: uint64)
      requires Valid()
      modifies this, client.store
      ensures Valid() && st == old(st).(counter := id)
      ensures id == NextId(old(st).counter)
    {
      var entry := GetEntry(NextChirpIdKey);
      if entry != [] {
        id := codec.decodeCounter(entry);
      } else {
        id := 0;
      }
      id := NextId(id);
      SaveCounterRefines(codec, client.store.keyValueMap, st, id);
      var ok := client.SendPutRequest(KeyBytes(NextChirpIdKey), codec.encodeCounter(id));
      st := st.(counter := id);
    }

    method GetUser(username: Bytes) returns (found: bool, user: User)
      requires Valid()
      modifies client.store
      ensures Valid() && st == old(st)
      ensures found <==> username in st.users
      ensures found ==> user == st.users[username]
    {
      var entry := GetEntry(UserKey(username));
      if entry == [] {
        return false, User([], Timeval(0, 0));
      }
      return true, codec.decodeUser(entry);
    }

    method SaveUser(username: Bytes, user: User) returns (ok: bool)
      requires Valid() && user.username != []
      modifies this, client.store
      ensures Valid() && st == old(st).(users := old(st).users[username := user])
      ensures ok
    {
      SaveUserRefines(codec, client.store.keyValueMap, st, username, user);
      ok := client.SendPutRequest(KeyBytes(UserKey(username)), codec.encodeUser(user));
      st := st.(users := st.users[username := user]);
    }

    method GetUserFollowingList(username: Bytes) returns (names: set<Bytes>)
      requires Valid()
      modifies client.store
      ensures Valid() && st == old(st)
      ensures names == FollowingOf(st, username)
    {
      var entry := GetEntry(FollowingKey(username));
      names := codec.decodeNames(entry);
    }

    method SaveUserFollowingList(username: Bytes, names: set<Bytes>) returns (ok: bool)
      requires Valid()
      modifies this, client.store
      ensures Valid() && st == old(st).(followings := old(st).followings[username := names])
      ensures ok
    {
      SaveFollowingRefines(codec, client.store.keyValueMap, st, username, names);
      ok := client.SendPutRequest(KeyBytes(FollowingKey(username)), codec.encodeNames(names));
      st := st.(followings := st.followings[username := names]);
    }

    method GetUserChirpList(username: Bytes) returns (ids: set<uint64>)
      requires Valid()
      modifies client.store
      ensures Valid() && st == old(st)
      ensures ids == ChirpListOf(st, username)
    {
      var entry := GetEntry(ChirpListKey(username));
      ids := codec.decodeIds(entry);
    }

    method SaveUserChirpList(username: Bytes, ids: set<uint64>) returns (ok: bool)
      requires Valid()
      modifies this, client.store
      ensures Valid() && st == old(st).(chirpLists := old(st).chirpLists[username := ids])
      ensures ok
    {
      SaveChirpListRefines(codec, client.store.keyValueMap, st, username, ids);
      ok := client.SendPutRequest(KeyBytes(ChirpListKey(username)), codec.encodeIds(ids));
      st := st.(chirpLists := st.chirpLists[username := ids]);
    }

    method GetChirpTagList(tag: Bytes) returns (ids: set<uint64>)
      requires Valid()
      modifies client.store
      ensures Valid() && st == old(st)
      ensures ids == TagList(st.tags, tag)
    {
      var entry := GetEntry(TagKey(tag));
      ids := codec.decodeIds(entry);
    }

    method SaveChirpTag(tag: Bytes, ids: set<uint64>) returns (ok: bool)
      requires Valid()
      modifies this, client.store
      ensures Valid() && st == old(st).(tags := old(st).tags[tag := ids])
      ensures ok
    {
      SaveTagRefines(codec, client.store.keyValueMap, st, tag, ids);
      ok := client.SendPutRequest(KeyBytes(TagKey(tag)), codec.encodeIds(ids));
      st := st.(tags := st.tags[tag := ids]);
    }

    method GetChirp(id: uint64) returns (found: bool, chirp: Chirp)
      requires Valid()
      modifies client.store
      ensures Valid() && st == old(st)
      ensures found <==> id in st.chirps
      ensures found ==> chirp == st.chirps[id]
    {
      var entry := GetEntry(ChirpKey(id));
      if entry == [] {
        return false, Chirp(0, [], 0, [], Timeval(0, 0), {});
      }
      return true, codec.decodeChirp(entry);
    }

    method SaveChirp(id: uint64, chirp: Chirp) returns (ok: bool)
      requires Valid() && (chirp.id > 0 || chirp.username != [])
      modifies this, client.store
      ensures Valid() && st == old(st).(chirps := old(st).chirps[id := chirp])
      ensures ok
    {
      SaveChirpRefines(codec, client.store.keyValueMap, st, id, chirp);
      ok := client.SendPutRequest(KeyBytes(ChirpKey(id)), codec.encodeChirp(chirp));
      st := st.(chirps := st.chirps[id := chirp]);
    }

    /** Succeeds on either backend for a chirp that exists. */
    method DeleteChirp(id: uint64) returns (ok: bool)
      requires Valid()
      modifies this, client.store
      ensures Valid() && st == old(st).(chirps := old(st).chirps - {id})
      ensures id in old(st).chirps ==> ok
    {
      DeleteChirpRefines(codec, client.store.keyValueMap, st, id);
      assert Holds(codec, st, ChirpKey(id), Entry(client.store.keyValueMap, ChirpKey(id)));
      ok := client.SendDeleteKeyRequest(KeyBytes(ChirpKey(id)));
      st := st.(chirps := st.chirps - {id});
    }
  }
}
