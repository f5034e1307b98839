/** The records of the service layer, and what is assumed of their wire encoding. */
module Records {
  import opened Primitives

  datatype ReturnCode =
    | OK
    | INVALID_ARGUMENT
    | USER_EXISTS
    | FOLLOWEE_NOT_FOUND
    | CHIRP_ID_NOT_FOUND
    | REPLY_ID_NOT_FOUND
    | PERMISSION_DENIED
    | INTERNAL_BACKEND_ERROR

  datatype User = User(username: Bytes, lastUpdate: Timeval)

  datatype Chirp = Chirp(id: uint64, username: Bytes, parentId: uint64, text: Bytes,
                         time: Timeval, childrenIds: set<uint64>)

  /** A chirp as the RPC messages carry it: ids are byte strings, children are dropped. */
  datatype GrpcChirp = GrpcChirp(username: Bytes, text: Bytes, id: Bytes, parentId: Bytes, timestamp: Timeval)

  /** A chirp as the command line tool sees it. */
  datatype ClientChirp = ClientChirp(username: Bytes, text: Bytes, id: uint64, parentId: uint64, timestamp: Timeval)

  function InternalChirpToGrpcChirp(c: Chirp): (g: GrpcChirp)
    ensures |g.id| == 8 && |g.parentId| == 8
  {
    GrpcChirp(c.username, c.text, Uint64ToBinary(c.id), Uint64ToBinary(c.parentId), c.time)
  }

  function GrpcChirpToClientChirp(g: GrpcChirp): ClientChirp
    requires |g.id| >= 8 && |g.parentId| >= 8
  {
    ClientChirp(g.username, g.text, BinaryToUint64(g.id), BinaryToUint64(g.parentId), g.timestamp)
  }

  /** What reaches the client of a stored chirp. */
  function ClientView(c: Chirp): ClientChirp {
    GrpcChirpToClientChirp(InternalChirpToGrpcChirp(c))
  }

  /** The trip through the wire format loses nothing but the children set. */
  lemma ClientViewFields(c: Chirp)
    ensures ClientView(c) == ClientChirp(c.username, c.text, c.id, c.parentId, c.time)
  {
    Uint64BinaryBijection(c.id, []);
    Uint64BinaryBijection(c.parentId, []);
  }

  /** The serialisers that protobuf generates for the five stored record types. */
  datatype Codec = Codec(
    encodeUser: User -> Bytes, decodeUser: Bytes -> User,
    encodeNames: set<Bytes> -> Bytes, decodeNames: Bytes -> set<Bytes>,
    encodeIds: set<uint64> -> Bytes, decodeIds: Bytes -> set<uint64>,
    encodeChirp: Chirp -> Bytes, decodeChirp: Bytes -> Chirp,
    encodeCounter: uint64 -> Bytes, decodeCounter: Bytes -> uint64)
  {
    /** Parsing undoes serialising; the empty string parses to the empty list; a user with a name,
        a chirp with an id or an author, and a positive counter do not serialise to the empty string. */
    ghost predicate Faithful() {
      && (forall u: User :: decodeUser(encodeUser(u)) == u)
      && (forall u: User :: u.username != [] ==> encodeUser(u) != [])
      && (forall s: set<Bytes> :: decodeNames(encodeNames(s)) == s)
      && decodeNames([]) == {}
      && (forall s: set<uint64> :: decodeIds(encodeIds(s)) == s)
      && decodeIds([]) == {}
      && (forall c: Chirp :: decodeChirp(encodeChirp(c)) == c)
      && (forall c: Chirp :: c.id > 0 || c.username != [] ==> encodeChirp(c) != [])
      && (forall n: uint64 :: decodeCounter(encodeCounter(n)) == n)
      && (forall n: uint64 :: n > 0 ==> encodeCounter(n) != [])
    }
  }
}
