/** Fixed-width integers and byte helpers shared by every module.
    C integers are bounded `int`s; their wrap-around is written out, and the
    bitwise operators the firmware uses on bytes are defined arithmetically
    (XOR bit by bit, masks as `%` and `/` by powers of two). */
module Bytes {

  type Byte = x: int | 0 <= x < 0x100
  type U16 = x: int | 0 <= x < 0x1_0000
  type U32 = x: int | 0 <= x < 0x1_0000_0000
  type I8 = x: int | -0x80 <= x < 0x80
  type I16 = x: int | -0x8000 <= x < 0x8000

  const INT16_MIN: I16 := -0x8000

  function Pow2(n: nat): (r: nat)
    ensures r >= 1
  {
    if n == 0 then 1 else 2 * Pow2(n - 1)
  }

  /** XOR of the low `n` bits of `a` and `b`, least significant bit first. */
  function XorN(a: nat, b: nat, n: nat): (r: nat)
    ensures r < Pow2(n)
  {
    if n == 0 then 0
    else 2 * XorN(a / 2, b / 2, n - 1) + (if a % 2 == b % 2 then 0 else 1)
  }

  /** `a ^ b` on `uint8_t`. */
  function Xor(a: Byte, b: Byte): Byte
  {
    XorN(a, b, 8)
  }

  lemma {:induction false} XorNZero(a: nat, n: nat)
    requires a < Pow2(n)
    ensures XorN(a, 0, n) == a
  {
    if n > 0 {
      XorNZero(a / 2, n - 1);
    }
  }

  lemma {:induction false} XorNSelf(a: nat, n: nat)
    ensures XorN(a, a, n) == 0
  {
    if n > 0 {
      XorNSelf(a / 2, n - 1);
    }
  }

  lemma {:induction false} XorNComm(a: nat, b: nat, n: nat)
    ensures XorN(a, b, n) == XorN(b, a, n)
  {
    if n > 0 {
      XorNComm(a / 2, b / 2, n - 1);
    }
  }

  lemma {:induction false} XorNAssoc(a: nat, b: nat, c: nat, n: nat)
    ensures XorN(XorN(a, b, n), c, n) == XorN(a, XorN(b, c, n), n)
  {
    if n > 0 {
      var ab := XorN(a, b, n);
      var bc := XorN(b, c, n);
      assert ab / 2 == XorN(a / 2, b / 2, n - 1);
      assert bc / 2 == XorN(b / 2, c / 2, n - 1);
      XorNAssoc(a / 2, b / 2, c / 2, n - 1);
    }
  }

  /** XOR on bytes: zero is neutral, every byte is its own inverse, and the
      operation associates and commutes. */
  lemma XorZero(a: Byte)
    ensures Xor(a, 0) == a && Xor(0, a) == a
  {
    XorNZero(a, 8);
    XorNComm(a, 0, 8);
  }

  lemma XorSelf(a: Byte)
    ensures Xor(a, a) == 0
  {
    XorNSelf(a, 8);
  }

  lemma XorAssoc(a: Byte, b: Byte, c: Byte)
    ensures Xor(Xor(a, b), c) == Xor(a, Xor(b, c))
  {
    XorNAssoc(a, b, c, 8);
  }

  lemma XorComm(a: Byte, b: Byte)
    ensures Xor(a, b) == Xor(b, a)
  {
    XorNComm(a, b, 8);
  }

  /** Applying the same byte twice undoes it. */
  lemma XorCancel(a: Byte, k: Byte)
    ensures Xor(Xor(a, k), k) == a
  {
    XorAssoc(a, k, k);
    XorSelf(k);
    XorZero(a);
  }

  /** XOR of all bytes, folded from the left as the C checksum loops do. */
  function XorAll(s: seq<Byte>): Byte
  {
    if |s| == 0 then 0 else Xor(XorAll(s[..|s| - 1]), s[|s| - 1])
  }

  /** One more byte folds in with a single XOR. */
  lemma XorAllSnoc(s: seq<Byte>, b: Byte)
    ensures XorAll(s + [b]) == Xor(XorAll(s), b)
  {
    var t := s + [b];
    assert t[..|t| - 1] == s;
  }

  lemma XorAllPair(a: Byte, b: Byte)
    ensures XorAll([a, b]) == Xor(a, b)
  {
    var one := [a];
    assert one[..0] == [];
    XorZero(a);
    assert XorAll(one) == a;
    var two := [a, b];
    assert two[..1] == one;
    assert XorAll(two) == Xor(XorAll(one), b);
  }

  lemma {:induction false} XorAllAppend(s: seq<Byte>, t: seq<Byte>)
    ensures XorAll(s + t) == Xor(XorAll(s), XorAll(t))
    decreases |t|
  {
    if |t| == 0 {
      assert s + t == s;
      XorZero(XorAll(s));
    } else {
      var t0 := t[..|t| - 1];
      var b := t[|t| - 1];
      assert s + t == (s + t0) + [b];
      assert t == t0 + [b];
      XorAllSnoc(s + t0, b);
      XorAllSnoc(t0, b);
      XorAllAppend(s, t0);
      XorAssoc(XorAll(s), XorAll(t0), b);
    }
  }

  /** Byte-wise XOR of two equally long buffers (a stream-cipher step). */
  function XorBytes(a: seq<Byte>, b: seq<Byte>): (r: seq<Byte>)
    requires |a| == |b|
    ensures |r| == |a|
    ensures forall i :: 0 <= i < |a| ==> r[i] == Xor(a[i], b[i])
  {
    seq(|a|, i requires 0 <= i < |a| => Xor(a[i], b[i]))
  }

  /** XOR with the same key stream twice gives the input back. */
  lemma XorBytesInvolutive(a: seq<Byte>, k: seq<Byte>)
    requires |a| == |k|
    ensures XorBytes(XorBytes(a, k), k) == a
  {
    var once := XorBytes(a, k);
    var twice := XorBytes(once, k);
    forall i | 0 <= i < |a|
      ensures twice[i] == a[i]
    {
      XorCancel(a[i], k[i]);
    }
  }

  /** `b & 0x7F`. */
  function Low7(b: Byte): Byte { b % 0x80 }

  /** `(b & 0x80) != 0`. */
  predicate HighBit(b: Byte) { b >= 0x80 }

  /** `b | 0x80`. */
  function SetHighBit(b: Byte): (r: Byte)
    ensures HighBit(r) && Low7(r) == Low7(b)
  {
    if b >= 0x80 then b else b + 0x80
  }

  /** `(hi << 8) | lo` on `uint16_t`. */
  function Be16(hi: Byte, lo: Byte): (r: U16)
    ensures r / 256 == hi && r % 256 == lo
  {
    hi * 256 + lo
  }

  /** The two bytes of a `uint16_t`, as `putBe16` writes them. */
  function HiByte(v: U16): Byte { v / 256 }
  function LoByte(v: U16): Byte { v % 256 }

  lemma Be16OfSplit(v: U16)
    ensures Be16(HiByte(v), LoByte(v)) == v
  {
  }

  function Zeros(n: nat): (r: seq<Byte>)
    ensures |r| == n && forall i :: 0 <= i < n ==> r[i] == 0
  {
    seq(n, _ => 0)
  }

  /** Little-endian image of a `uint16_t`, as it lies in memory. */
  function Le16(v: U16): (r: seq<Byte>)
    ensures |r| == 2
  {
    [LoByte(v), HiByte(v)]
  }

  function FromLe16(s: seq<Byte>): U16
    requires |s| == 2
  {
    Be16(s[1], s[0])
  }

  lemma FromLe16OfLe16(v: U16)
    ensures FromLe16(Le16(v)) == v
  {
    Be16OfSplit(v);
  }

  lemma Le16OfFromLe16(s: seq<Byte>)
    requires |s| == 2
    ensures Le16(FromLe16(s)) == s
  {
  }

  /** Little-endian image of a `uint32_t`. */
  function Le32(v: U32): (r: seq<Byte>)
    ensures |r| == 4
  {
    Le16(v % 0x1_0000) + Le16(v / 0x1_0000)
  }

  function FromLe32(s: seq<Byte>): U32
    requires |s| == 4
  {
    FromLe16(s[..2]) + 0x1_0000 * FromLe16(s[2..])
  }

  lemma FromLe32OfLe32(v: U32)
    ensures FromLe32(Le32(v)) == v
  {
    var s := Le32(v);
    assert s[..2] == Le16(v % 0x1_0000);
    assert s[2..] == Le16(v / 0x1_0000);
    FromLe16OfLe16(v % 0x1_0000);
    FromLe16OfLe16(v / 0x1_0000);
  }

  lemma Le32OfFromLe32(s: seq<Byte>)
    requires |s| == 4
    ensures Le32(FromLe32(s)) == s
  {
    var lo := FromLe16(s[..2]);
    var hi := FromLe16(s[2..]);
    assert FromLe32(s) % 0x1_0000 == lo;
    assert FromLe32(s) / 0x1_0000 == hi;
    Le16OfFromLe16(s[..2]);
    Le16OfFromLe16(s[2..]);
    assert s == s[..2] + s[2..];
  }

  /** Bit pattern of a signed byte (`int8_t` stored in memory). */
  function I8Bits(x: I8): Byte
  {
    if x < 0 then x + 256 else x
  }

  function I8OfBits(b: Byte): I8
  {
    if b >= 128 then b - 256 else b
  }

  lemma I8RoundTrip(x: I8)
    ensures I8OfBits(I8Bits(x)) == x
  {
  }

  /** Bit pattern of an `int16_t`. */
  function I16Bits(x: I16): U16
  {
    if x < 0 then x + 0x1_0000 else x
  }

  function I16OfBits(v: U16): I16
  {
    if v >= 0x8000 then v - 0x1_0000 else v
  }

  lemma I16RoundTrip(x: I16)
    ensures I16OfBits(I16Bits(x)) == x
  {
  }

  /** The C conversion `(int8_t)x` of an `int`: wraps modulo 256. */
  function ToI8(x: int): (r: I8)
    ensures (r - x) % 256 == 0
  {
    I8OfBits(x % 256)
  }

  /** `uint8_t` arithmetic result. */
  function Wrap8(x: int): (r: Byte)
    ensures 0 <= x < 0x100 ==> r == x
  {
    x % 0x100
  }

  /** `uint16_t` arithmetic result. */
  function Wrap16(x: int): (r: U16)
    ensures 0 <= x < 0x1_0000 ==> r == x
  {
    x % 0x1_0000
  }

  /** `uint32_t` arithmetic result. */
  function Wrap32(x: int): (r: U32)
    ensures 0 <= x < 0x1_0000_0000 ==> r == x
  {
    x % 0x1_0000_0000
  }

  /** Elapsed time `now - since` on `uint32_t` millisecond counters. */
  function Elapsed(now: U32, since: U32): (r: U32)
    ensures since <= now ==> r == now - since
    ensures now < since ==> r == now - since + 0x1_0000_0000
  {
    Wrap32(now - since)
  }
}
