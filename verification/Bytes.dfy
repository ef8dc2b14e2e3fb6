/** Byte buffers and the little-endian integers stored in them. */
module Bytes {

  newtype u8 = x: int | 0 <= x < 256

  type Buffer = seq<u8>

  const U16_SIZE: nat := 0x1_0000
  const U32_SIZE: nat := 0x1_0000_0000

  datatype Option<+T> = None | Some(value: T) {
    function GetOr(default: T): T {
      match this
      case None => default
      case Some(v) => v
    }
  }

  lemma {:induction false} PrefixSnoc<T>(s: seq<T>, i: nat)
    requires i < |s|
    ensures s[..i + 1] == s[..i] + [s[i]]
  {
  }

  lemma {:induction false} FrontAndLast<T>(s: seq<T>)
    requires s != []
    ensures s == s[..|s| - 1] + [s[|s| - 1]]
  {
  }

  lemma {:induction false} Regroup<T>(a: seq<T>, b: seq<T>, c: seq<T>)
    ensures (a + b) + c == a + (b + c)
  {
  }

  function Zeros(n: nat): (b: Buffer)
    ensures |b| == n
  {
    seq(n, _ => 0 as u8)
  }

  /** A store through a `uint16_t*`: the value is truncated to 16 bits. */
  function Put16(v: nat): (b: Buffer)
    ensures |b| == 2
  {
    var m := v % U16_SIZE;
    [(m % 256) as u8, (m / 256) as u8]
  }

  lemma {:induction false} Put16Wraps(v: nat, n: nat)
    ensures Put16(v % U16_SIZE + n) == Put16(v + n)
  {
    assert (v % U16_SIZE + n) % U16_SIZE == (v + n) % U16_SIZE;
  }

  function U16At(b: Buffer, i: nat): nat
    requires i + 2 <= |b|
  {
    b[i] as int + 256 * b[i + 1] as int
  }

  lemma {:induction false} Put16Reads(v: nat, rest: Buffer)
    ensures U16At(Put16(v) + rest, 0) == v % U16_SIZE
  {
    var b := Put16(v) + rest;
    assert b[0] == Put16(v)[0] && b[1] == Put16(v)[1];
  }

  function Pow256(n: nat): nat {
    if n == 0 then 1 else 256 * Pow256(n - 1)
  }

  /** A store of an unsigned integer of `width` bytes, truncated to that width. */
  function LittleEndian(v: nat, width: nat): (b: Buffer)
    ensures |b| == width
  {
    if width == 0 then [] else [(v % 256) as u8] + LittleEndian(v / 256, width - 1)
  }

  /** The unsigned integer that the bytes hold. */
  function Value(b: Buffer): nat {
    if b == [] then 0 else b[0] as int + 256 * Value(b[1..])
  }

  lemma {:induction false} ValueOfLittleEndian(v: nat, width: nat)
    requires v < Pow256(width)
    ensures Value(LittleEndian(v, width)) == v
  {
    if width > 0 {
      assert LittleEndian(v, width)[1..] == LittleEndian(v / 256, width - 1);
      ValueOfLittleEndian(v / 256, width - 1);
    }
  }

  lemma {:induction false} LittleEndianOfValue(b: Buffer)
    ensures Value(b) < Pow256(|b|)
    ensures LittleEndian(Value(b), |b|) == b
  {
    if b != [] {
      LittleEndianOfValue(b[1..]);
      assert Value(b) / 256 == Value(b[1..]);
    }
  }

  lemma {:induction false} Pow256Of4()
    ensures Pow256(4) == U32_SIZE
  {
    assert Pow256(2) == 65536;
  }

  /** The 32-bit field at offset `i`. */
  function U32At(b: Buffer, i: nat): nat
    requires i + 4 <= |b|
  {
    Value(b[i..i + 4])
  }

  /** A store through a `uint32_t*`: the value is truncated to 32 bits. */
  function Put32(v: nat): (b: Buffer)
    ensures |b| == 4
  {
    LittleEndian(v % U32_SIZE, 4)
  }

  lemma {:induction false} Put32Wraps(v: nat, n: nat)
    ensures Put32(v % U32_SIZE + n) == Put32(v + n)
  {
    assert (v % U32_SIZE + n) % U32_SIZE == (v + n) % U32_SIZE;
  }

  lemma {:induction false} Put32Reads(pre: Buffer, v: nat, post: Buffer)
    ensures U32At(pre + Put32(v) + post, |pre|) == v % U32_SIZE
  {
    assert (pre + Put32(v) + post)[|pre|..|pre| + 4] == Put32(v);
    Pow256Of4();
    ValueOfLittleEndian(v % U32_SIZE, 4);
  }

  /** Bitwise or. */
  function BitOr(a: nat, b: nat): nat {
    if a == 0 && b == 0 then 0
    else (if a % 2 == 1 || b % 2 == 1 then 1 else 0) + 2 * BitOr(a / 2, b / 2)
  }

  /** Bitwise and. */
  function BitAnd(a: nat, b: nat): nat {
    if a == 0 || b == 0 then 0
    else (if a % 2 == 1 && b % 2 == 1 then 1 else 0) + 2 * BitAnd(a / 2, b / 2)
  }

  function Pow2(n: nat): nat {
    if n == 0 then 1 else 2 * Pow2(n - 1)
  }

  /** The bits of both operands are set in their bitwise or. */
  lemma {:induction false} OrSetsBits(a: nat, b: nat)
    ensures BitAnd(BitOr(a, b), a) == a && BitAnd(BitOr(a, b), b) == b
  {
    if a != 0 || b != 0 {
      OrSetsBits(a / 2, b / 2);
      assert BitOr(a, b) / 2 == BitOr(a / 2, b / 2);
    }
  }

  /** Whether bit `n` is set, the lowest being bit 0. */
  predicate Bit(x: nat, n: nat) {
    if n == 0 then x % 2 == 1 else Bit(x / 2, n - 1)
  }

  lemma {:induction false} ZeroHasNoBits(n: nat)
    ensures !Bit(0, n)
  {
    if n > 0 {
      ZeroHasNoBits(n - 1);
    }
  }

  lemma {:induction false} Pow2IsPositive(n: nat)
    ensures Pow2(n) > 0
  {
    if n > 0 {
      Pow2IsPositive(n - 1);
    }
  }

  /** The bitwise and with a power of two tests one bit. */
  lemma {:induction false} AndTestsBit(x: nat, n: nat)
    ensures BitAnd(x, Pow2(n)) != 0 <==> Bit(x, n)
  {
    Pow2IsPositive(n);
    if x == 0 {
      ZeroHasNoBits(n);
    } else if n > 0 {
      AndTestsBit(x / 2, n - 1);
    }
  }

  lemma {:induction false} OrStaysBelow(a: nat, b: nat, n: nat)
    requires a < Pow2(n) && b < Pow2(n)
    ensures BitOr(a, b) < Pow2(n)
  {
    if a != 0 || b != 0 {
      OrStaysBelow(a / 2, b / 2, n - 1);
    }
  }

  lemma {:induction false} OrOf16Bits(a: nat, b: nat)
    requires a < U16_SIZE && b < U16_SIZE
    ensures BitOr(a, b) < U16_SIZE
  {
    assert Pow2(8) == 256;
    assert Pow2(16) == U16_SIZE;
    OrStaysBelow(a, b, 16);
  }

  /** The bytes of a 16-bit field are those a store of its value leaves. */
  lemma {:induction false} Put16OfU16At(b: Buffer, i: nat)
    requires i + 2 <= |b|
    ensures U16At(b, i) < U16_SIZE && Put16(U16At(b, i)) == b[i..i + 2]
  {
    var low, high := b[i] as int, b[i + 1] as int;
    TwoBytes(low, high);
    assert b[i..i + 2] == [b[i], b[i + 1]];
  }

  lemma {:induction false} TwoBytes(low: nat, high: nat)
    requires low < 256 && high < 256
    ensures (low + 256 * high) % 256 == low && (low + 256 * high) / 256 == high && low + 256 * high < U16_SIZE
    ensures (low + 256 * high) % U16_SIZE == low + 256 * high
  {
  }
}
