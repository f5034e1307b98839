/** The assumption on the wire encoding can be met: a length-prefixed encoding meets it. */
module CodecWitness {
  import opened Primitives
  import opened Records

  /** No encoding is a prefix of another's, so encodings can be put one after the other. */
  ghost predicate PrefixFree<T(!new)>(enc: T -> Bytes) {
    forall a, b, r: Bytes, s: Bytes :: enc(a) + r == enc(b) + s ==> a == b && r == s
  }

  function EncNat(n: nat): Bytes {
    if n == 0 then [0] else [1] + EncNat(n - 1)
  }

  lemma {:induction false} EncNatPrefixFree(a: nat, b: nat, r: Bytes, s: Bytes)
    requires EncNat(a) + r == EncNat(b) + s
    ensures a == b && r == s
  {
    var x, y := EncNat(a) + r, EncNat(b) + s;
    assert x[0] == EncNat(a)[0] && y[0] == EncNat(b)[0];
    assert x[1..] == (if a == 0 then r else EncNat(a - 1) + r);
    assert y[1..] == (if b == 0 then s else EncNat(b - 1) + s);
    if a > 0 {
      EncNatPrefixFree(a - 1, b - 1, r, s);
    }
  }

  /** Non-negative numbers at even places, negative ones at odd places. */
  function EncInt(i: int): Bytes {
    EncNat(if i < 0 then -2 * i - 1 else 2 * i)
  }

  lemma EncIntPrefixFree(a: int, b: int, r: Bytes, s: Bytes)
    requires EncInt(a) + r == EncInt(b) + s
    ensures a == b && r == s
  {
    EncNatPrefixFree(if a < 0 then -2 * a - 1 else 2 * a, if b < 0 then -2 * b - 1 else 2 * b, r, s);
  }

  function EncBytes(b: Bytes): Bytes {
    EncNat(|b|) + b
  }

  lemma EncBytesPrefixFree(a: Bytes, b: Bytes, r: Bytes, s: Bytes)
    requires EncBytes(a) + r == EncBytes(b) + s
    ensures a == b && r == s
  {
    Regroup(EncNat(|a|), a, r);
    Regroup(EncNat(|b|), b, s);
    EncNatPrefixFree(|a|, |b|, a + r, b + s);
    assert a == (a + r)[..|a|] && r == (a + r)[|a|..];
    assert b == (b + s)[..|b|] && s == (b + s)[|b|..];
  }

  function EncAll<T>(enc: T -> Bytes, xs: seq<T>): Bytes {
    if xs == [] then [] else enc(xs[0]) + EncAll(enc, xs[1..])
  }

  function EncSeq<T>(enc: T -> Bytes, xs: seq<T>): Bytes {
    EncNat(|xs|) + EncAll(enc, xs)
  }

  lemma {:induction false} EncAllPrefixFree<T(!new)>(enc: T -> Bytes, xs: seq<T>, ys: seq<T>, r: Bytes, s: Bytes)
    requires PrefixFree(enc) && |xs| == |ys|
    requires EncAll(enc, xs) + r == EncAll(enc, ys) + s
    ensures xs == ys && r == s
  {
    if xs == [] {
      assert EncAll(enc, xs) + r == r && EncAll(enc, ys) + s == s;
    } else {
      assert EncAll(enc, xs) + r == enc(xs[0]) + (EncAll(enc, xs[1..]) + r);
      assert EncAll(enc, ys) + s == enc(ys[0]) + (EncAll(enc, ys[1..]) + s);
      EncAllPrefixFree(enc, xs[1..], ys[1..], r, s);
      assert xs == [xs[0]] + xs[1..] && ys == [ys[0]] + ys[1..];
    }
  }

  lemma EncSeqPrefixFree<T(!new)>(enc: T -> Bytes, xs: seq<T>, ys: seq<T>, r: Bytes, s: Bytes)
    requires PrefixFree(enc)
    requires EncSeq(enc, xs) + r == EncSeq(enc, ys) + s
    ensures xs == ys && r == s
  {
    Regroup(EncNat(|xs|), EncAll(enc, xs), r);
    Regroup(EncNat(|ys|), EncAll(enc, ys), s);
    EncNatPrefixFree(|xs|, |ys|, EncAll(enc, xs) + r, EncAll(enc, ys) + s);
    EncAllPrefixFree(enc, xs, ys, r, s);
  }

  /** The members of a set in some order. */
  ghost function Listing<T(!new)>(s: set<T>): (xs: seq<T>)
    ensures forall x :: x in xs <==> x in s
    decreases |s|
  {
    if s == {} then []
    else
      var x :| x in s;
      [x] + Listing(s - {x})
  }

  /** A set as the listing of its members; the empty set as nothing at all. */
  ghost function EncSet<T(!new)>(enc: T -> Bytes, s: set<T>): Bytes {
    if s == {} then [] else EncSeq(enc, Listing(s))
  }

  lemma EncSetInjective<T(!new)>(enc: T -> Bytes, a: set<T>, b: set<T>)
    requires PrefixFree(enc) && EncSet(enc, a) == EncSet(enc, b)
    ensures a == b
  {
    if a != {} && b != {} {
      assert EncSeq(enc, Listing(a)) + [] == EncSeq(enc, Listing(b)) + [];
      EncSeqPrefixFree(enc, Listing(a), Listing(b), [], []);
      assert forall x :: x in a <==> x in Listing(a);
    } else {
      assert forall n :: EncNat(n) != [];
    }
  }

  /** Decodes by looking for what was encoded. */
  ghost function Decode<T(!new)>(enc: T -> Bytes, default: T, b: Bytes): T {
    if t :| enc(t) == b then t else default
  }

  // ---------- the five record types ----------

  function EncTime(t: Timeval): Bytes {
    EncInt(t.sec) + EncInt(t.usec)
  }

  lemma EncTimePrefixFree(a: Timeval, b: Timeval, r: Bytes, s: Bytes)
    requires EncTime(a) + r == EncTime(b) + s
    ensures a == b && r == s
  {
    Regroup(EncInt(a.sec), EncInt(a.usec), r);
    Regroup(EncInt(b.sec), EncInt(b.usec), s);
    EncIntPrefixFree(a.sec, b.sec, EncInt(a.usec) + r, EncInt(b.usec) + s);
    EncIntPrefixFree(a.usec, b.usec, r, s);
  }

  function EncUser(u: User): Bytes {
    EncBytes(u.username) + EncTime(u.lastUpdate)
  }

  lemma EncUserInjective(a: User, b: User)
    requires EncUser(a) == EncUser(b)
    ensures a == b
  {
    EncBytesPrefixFree(a.username, b.username, EncTime(a.lastUpdate), EncTime(b.lastUpdate));
    assert EncTime(a.lastUpdate) + [] == EncTime(b.lastUpdate) + [];
    EncTimePrefixFree(a.lastUpdate, b.lastUpdate, [], []);
  }

  function EncId(id: uint64): Bytes {
    EncNat(id)
  }

  lemma EncIdPrefixFree()
    ensures PrefixFree(EncId)
  {
    forall a: uint64, b: uint64, r: Bytes, s: Bytes | EncId(a) + r == EncId(b) + s
      ensures a == b && r == s
    {
      EncNatPrefixFree(a, b, r, s);
    }
  }

  lemma EncNamePrefixFree()
    ensures PrefixFree(EncBytes)
  {
    forall a, b, r: Bytes, s: Bytes | EncBytes(a) + r == EncBytes(b) + s
      ensures a == b && r == s
    {
      EncBytesPrefixFree(a, b, r, s);
    }
  }

  ghost function EncIds(ids: set<uint64>): Bytes {
    EncSet(EncId, ids)
  }

  ghost function EncNames(names: set<Bytes>): Bytes {
    EncSet(EncBytes, names)
  }

  ghost function EncChirp(c: Chirp): Bytes {
    EncNat(c.id) + (EncBytes(c.username) + (EncNat(c.parentId) +
      (EncBytes(c.text) + (EncTime(c.time) + EncIds(c.childrenIds)))))
  }

  lemma EncChirpInjective(a: Chirp, b: Chirp)
    requires EncChirp(a) == EncChirp(b)
    ensures a == b
  {
    var (a5, b5) := (EncIds(a.childrenIds), EncIds(b.childrenIds));
    var (a4, b4) := (EncTime(a.time) + a5, EncTime(b.time) + b5);
    var (a3, b3) := (EncBytes(a.text) + a4, EncBytes(b.text) + b4);
    var (a2, b2) := (EncNat(a.parentId) + a3, EncNat(b.parentId) + b3);
    EncNatPrefixFree(a.id, b.id, EncBytes(a.username) + a2, EncBytes(b.username) + b2);
    EncBytesPrefixFree(a.username, b.username, a2, b2);
    EncNatPrefixFree(a.parentId, b.parentId, a3, b3);
    EncBytesPrefixFree(a.text, b.text, a4, b4);
    EncTimePrefixFree(a.time, b.time, a5, b5);
    EncIdPrefixFree();
    EncSetInjective(EncId, a.childrenIds, b.childrenIds);
  }

  lemma EncSetsInjective()
    ensures forall a: set<uint64>, b: set<uint64> :: EncIds(a) == EncIds(b) ==> a == b
    ensures forall a: set<Bytes>, b: set<Bytes> :: EncNames(a) == EncNames(b) ==> a == b
  {
    EncIdPrefixFree();
    EncNamePrefixFree();
    forall a: set<uint64>, b: set<uint64> | EncIds(a) == EncIds(b)
      ensures a == b
    {
      EncSetInjective(EncId, a, b);
    }
    forall a: set<Bytes>, b: set<Bytes> | EncNames(a) == EncNames(b)
      ensures a == b
    {
      EncSetInjective(EncBytes, a, b);
    }
  }

  lemma EncRecordsInjective()
    ensures forall a, b :: EncUser(a) == EncUser(b) ==> a == b
    ensures forall a, b :: EncChirp(a) == EncChirp(b) ==> a == b
    ensures forall a: uint64, b: uint64 :: EncId(a) == EncId(b) ==> a == b
  {
    forall a, b | EncUser(a) == EncUser(b)
      ensures a == b
    {
      EncUserInjective(a, b);
    }
    forall a, b | EncChirp(a) == EncChirp(b)
      ensures a == b
    {
      EncChirpInjective(a, b);
    }
    forall a: uint64, b: uint64 | EncId(a) == EncId(b)
      ensures a == b
    {
      assert EncNat(a) + [] == EncNat(b) + [];
      EncNatPrefixFree(a, b, [], []);
    }
  }

  ghost function WitnessCodec(): Codec {
    var noTime := Timeval(0, 0);
    Codec(
      EncUser, b => Decode(EncUser, User([], noTime), b),
      EncNames, b => Decode(EncNames, {}, b),
      EncIds, b => Decode(EncIds, {}, b),
      EncChirp, b => Decode(EncChirp, Chirp(0, [], 0, [], noTime, {}), b),
      EncId, b => Decode(EncId, 0, b))
  }

  /** So results that assume a faithful codec are about something. */
  lemma FaithfulCodecExists()
    ensures WitnessCodec().Faithful()
  {
    EncSetsInjective();
    EncRecordsInjective();
    assert EncNames({}) == [] && EncIds({}) == [];
  }
}
