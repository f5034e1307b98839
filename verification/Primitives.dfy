/** Bytes, 64-bit ids and clock readings: the vocabulary of src/utility.h. */
module Primitives {
  newtype byte = b: int | 0 <= b < 256

  type Bytes = seq<byte>

  const UINT64_LIMIT: int := 0x1_0000_0000_0000_0000

  type uint64 = x: int | 0 <= x < UINT64_LIMIT

  datatype Option<+T> = None | Some(value: T)

  lemma Regroup<T>(a: seq<T>, b: seq<T>, c: seq<T>)
    ensures (a + b) + c == a + (b + c)
  {
  }

  // ---------- ids as byte strings ----------

  ghost function Pow256(n: nat): nat {
    if n == 0 then 1 else 256 * Pow256(n - 1)
  }

  /** The n low bytes of x, least significant first. */
  function LittleEndian(x: nat, n: nat): (s: Bytes)
    ensures |s| == n
  {
    if n == 0 then [] else [(x % 256) as byte] + LittleEndian(x / 256, n - 1)
  }

  function FromLittleEndian(s: Bytes): (x: nat)
    ensures x < Pow256(|s|)
  {
    if s == [] then 0 else s[0] as int + 256 * FromLittleEndian(s[1..])
  }

  lemma {:induction false} LittleEndianRoundTrip(x: nat, n: nat)
    requires x < Pow256(n)
    ensures FromLittleEndian(LittleEndian(x, n)) == x
  {
    if n > 0 {
      LittleEndianRoundTrip(x / 256, n - 1);
      assert LittleEndian(x, n)[1..] == LittleEndian(x / 256, n - 1);
    }
  }

  lemma LowDigit(digit: nat, rest: nat)
    requires digit < 256
    ensures (digit + 256 * rest) % 256 == digit && (digit + 256 * rest) / 256 == rest
  {
  }

  lemma {:induction false} FromLittleEndianRoundTrip(s: Bytes)
    ensures LittleEndian(FromLittleEndian(s), |s|) == s
  {
    if s != [] {
      FromLittleEndianRoundTrip(s[1..]);
      LowDigit(s[0] as int, FromLittleEndian(s[1..]));
      assert s == [s[0]] + s[1..];
    }
  }

  lemma Pow256Of8()
    ensures Pow256(8) == UINT64_LIMIT
  {
    assert Pow256(4) == 0x1_0000_0000;
    assert Pow256(6) == 256 * 256 * Pow256(4);
    assert Pow256(8) == 256 * 256 * Pow256(6);
  }

  /** The eight bytes of an id as a little-endian host lays them out. */
  function Uint64ToBinary(x: uint64): (s: Bytes)
    ensures |s| == 8
  {
    LittleEndian(x, 8)
  }

  /** Reads the first eight bytes. */
  function BinaryToUint64(s: Bytes): uint64
    requires |s| >= 8
  {
    Pow256Of8();
    FromLittleEndian(s[..8])
  }

  /** Eight-byte strings and 64-bit ids are in bijection. */
  lemma Uint64BinaryBijection(x: uint64, s: Bytes)
    ensures BinaryToUint64(Uint64ToBinary(x)) == x
    ensures |s| == 8 ==> Uint64ToBinary(BinaryToUint64(s)) == s
  {
    Pow256Of8();
    LittleEndianRoundTrip(x, 8);
    assert Uint64ToBinary(x)[..8] == Uint64ToBinary(x);
    if |s| == 8 {
      FromLittleEndianRoundTrip(s);
      assert s[..8] == s;
    }
  }

  /** x without its k low bytes. */
  function ShiftedRight(x: nat, k: nat): nat {
    if k == 0 then x else ShiftedRight(x / 256, k - 1)
  }

  lemma {:induction false} LittleEndianByte(x: nat, n: nat, k: nat)
    requires k < n
    ensures LittleEndian(x, n)[k] as int == ShiftedRight(x, k) % 256
  {
    if k > 0 {
      LittleEndianByte(x / 256, n - 1, k - 1);
    }
  }

  /** Byte k of an id's string is its k-th byte counted from the least significant. */
  lemma Uint64Byte(x: uint64, k: nat)
    requires k < 8
    ensures Uint64ToBinary(x)[k] as int == ShiftedRight(x, k) % 256
  {
    LittleEndianByte(x, 8, k);
  }

  // ---------- clock readings ----------

  /** `struct timeval`, compared the way the timercmp macro does it. */
  datatype Timeval = Timeval(sec: int, usec: int)

  predicate Before(a: Timeval, b: Timeval) {
    if a.sec == b.sec then a.usec < b.usec else a.sec < b.sec
  }

  predicate AtLeast(a: Timeval, b: Timeval) {
    if a.sec == b.sec then a.usec >= b.usec else a.sec >= b.sec
  }

  /** The half-open window in which both pollers select. */
  predicate InWindow(t: Timeval, from: Timeval, now: Timeval) {
    AtLeast(t, from) && Before(t, now)
  }

  /** Readings are ordered by seconds and then by microseconds, and AtLeast is the complement of Before. */
  lemma TimeOrder(a: Timeval, b: Timeval)
    ensures Before(a, b) <==> a.sec < b.sec || (a.sec == b.sec && a.usec < b.usec)
    ensures AtLeast(a, b) <==> !Before(a, b)
    ensures (Before(a, b) || Before(b, a) || a == b) && !(Before(a, b) && Before(b, a))
  {
  }

  function Micros(t: Timeval): int {
    1_000_000 * t.sec + t.usec
  }

  predicate Normal(t: Timeval) {
    0 <= t.usec < 1_000_000
  }

  /** Readings as gettimeofday gives them compare as the points in time that they are; a window takes in
      its beginning and leaves out its end. */
  lemma WindowIsInterval(t: Timeval, from: Timeval, now: Timeval)
    requires Normal(t) && Normal(from) && Normal(now)
    ensures InWindow(t, from, now) <==> Micros(from) <= Micros(t) < Micros(now)
  {
  }
}
