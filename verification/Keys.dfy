/** How the service layer names its records inside one flat byte-keyed map. */
module Keys {
  import opened Primitives
  import opened KeyValue

  datatype Key =
    | NextChirpIdKey
    | UserKey(username: Bytes)
    | FollowingKey(username: Bytes)
    | ChirpListKey(username: Bytes)
    | ChirpKey(id: uint64)
    | TagKey(tag: Bytes)

  const TYPE_NEXT_CHIRP_ID: Bytes := [0, 0, 0, 1]
  const TYPE_USERNAME_TO_USER: Bytes := [0, 0, 0, 2]
  const TYPE_USERNAME_TO_FOLLOWING: Bytes := [0, 0, 0, 3]
  const TYPE_USERNAME_TO_CHIRP: Bytes := [0, 0, 0, 4]
  const TYPE_CHIRP_ID_TO_CHIRP: Bytes := [0, 0, 0, 5]
  const TYPE_CHIRP_TAG: Bytes := [0, 0, 0, 6]

  function KeyBytes(k: Key): Bytes {
    match k
    case NextChirpIdKey => TYPE_NEXT_CHIRP_ID
    case UserKey(u) => TYPE_USERNAME_TO_USER + u
    case FollowingKey(u) => TYPE_USERNAME_TO_FOLLOWING + u
    case ChirpListKey(u) => TYPE_USERNAME_TO_CHIRP + u
    case ChirpKey(id) => TYPE_CHIRP_ID_TO_CHIRP + Uint64ToBinary(id)
    case TagKey(t) => TYPE_CHIRP_TAG + t
  }

  /** Prefixed keys never collide, whatever user names and tags contain. */
  lemma KeyBytesInjective(a: Key, b: Key)
    requires KeyBytes(a) == KeyBytes(b)
    ensures a == b
  {
    var s, t := KeyBytes(a), KeyBytes(b);
    assert s[3] == t[3];
    assert s[4..] == t[4..];
    match a
    case NextChirpIdKey =>
    case UserKey(u) => assert s[4..] == u && t[4..] == b.username;
    case FollowingKey(u) => assert s[4..] == u && t[4..] == b.username;
    case ChirpListKey(u) => assert s[4..] == u && t[4..] == b.username;
    case ChirpKey(id) =>
      assert s[4..] == Uint64ToBinary(id) && t[4..] == Uint64ToBinary(b.id);
      Uint64BinaryBijection(id, []);
      Uint64BinaryBijection(b.id, []);
    case TagKey(u) => assert s[4..] == u && t[4..] == b.tag;
  }

  /** The serialised record under a key, empty when there is none. */
  function Entry(m: Store, k: Key): Bytes {
    Lookup(m, KeyBytes(k))
  }

  /** Writing a record changes that record and no other. */
  lemma PutEntry(m: Store, k: Key, value: Bytes, other: Key)
    ensures Entry(m[KeyBytes(k) := value], other) == if other == k then value else Entry(m, other)
  {
    if KeyBytes(other) == KeyBytes(k) {
      KeyBytesInjective(other, k);
    }
  }

  /** So does deleting one. */
  lemma DeleteEntry(m: Store, k: Key, other: Key)
    ensures Entry(m - {KeyBytes(k)}, other) == if other == k then [] else Entry(m, other)
  {
    if KeyBytes(other) == KeyBytes(k) {
      KeyBytesInjective(other, k);
    }
  }
}
