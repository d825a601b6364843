/** Bytes, and the fixed-width big-endian integers Kafka's wire format is made of. */
module Bytes {

  type byte = x: int | 0 <= x < 256

  type i16 = x: int | -0x8000 <= x < 0x8000
  type i32 = x: int | -0x8000_0000 <= x < 0x8000_0000
  type u32 = x: int | 0 <= x < 0x1_0000_0000
  type i64 = x: int | -0x8000_0000_0000_0000 <= x < 0x8000_0000_0000_0000
  type u64 = x: int | 0 <= x < 0x1_0000_0000_0000_0000

  const MAX_I32: nat := 0x7FFF_FFFF
  const MAX_U32: nat := 0xFFFF_FFFF
  const MAX_I64: nat := 0x7FFF_FFFF_FFFF_FFFF
  const MAX_U64: nat := 0xFFFF_FFFF_FFFF_FFFF

  datatype Option<+T> = None | Some(value: T)

  datatype Result<+T, +E> = Ok(value: T) | Err(error: E) {
    predicate IsFailure() { Err? }

    function PropagateFailure<U>(): Result<U, E>
      requires Err?
    {
      Err(error)
    }

    function Extract(): T
      requires Ok?
    {
      value
    }
  }

  function Pow256(n: nat): (p: nat)
    ensures p >= 1
  {
    if n == 0 then 1 else 256 * Pow256(n - 1)
  }

  /** `v` in `n` bytes, most significant first. */
  function PutBe(v: nat, n: nat): (s: seq<byte>)
    requires v < Pow256(n)
    ensures |s| == n
  {
    if n == 0 then [] else PutBe(v / 256, n - 1) + [v % 256]
  }

  function ReadBe(s: seq<byte>): (v: nat)
    ensures v < Pow256(|s|)
  {
    if s == [] then 0 else 256 * ReadBe(s[..|s| - 1]) + s[|s| - 1]
  }

  lemma {:induction false} ReadPutBe(v: nat, n: nat)
    requires v < Pow256(n)
    ensures ReadBe(PutBe(v, n)) == v
  {
    if n > 0 {
      var front := PutBe(v / 256, n - 1);
      assert PutBe(v, n)[..n - 1] == front;
      ReadPutBe(v / 256, n - 1);
    }
  }

  lemma {:induction false} PutReadBe(s: seq<byte>)
    ensures PutBe(ReadBe(s), |s|) == s
  {
    if s != [] {
      var front, last := s[..|s| - 1], s[|s| - 1];
      PutReadBe(front);
      assert ReadBe(s) / 256 == ReadBe(front) && ReadBe(s) % 256 == last;
      assert s == front + [last];
    }
  }

  /** Half the range of an `n`-byte field: where two's complement turns negative. */
  function HalfRange(n: nat): (h: int)
    requires n > 0
    ensures h > 0 && Pow256(n) == 2 * h
  {
    128 * Pow256(n - 1)
  }

  /** A signed field of `n` bytes, two's complement. */
  function PutSigned(v: int, n: nat): (s: seq<byte>)
    requires n > 0 && -HalfRange(n) <= v < HalfRange(n)
    ensures |s| == n
  {
    PutBe(if v >= 0 then v else v + Pow256(n), n)
  }

  function ReadSigned(s: seq<byte>): (v: int)
    requires s != []
    ensures -HalfRange(|s|) <= v < HalfRange(|s|)
  {
    var u := ReadBe(s);
    if u < HalfRange(|s|) then u else u - Pow256(|s|)
  }

  lemma ReadPutSigned(v: int, n: nat)
    requires n > 0 && -HalfRange(n) <= v < HalfRange(n)
    ensures ReadSigned(PutSigned(v, n)) == v
  {
    ReadPutBe(if v >= 0 then v else v + Pow256(n), n);
  }

  /** The widths the header uses, so that the numeric ranges are at hand. */
  lemma Widths()
    ensures Pow256(1) == 0x100 && Pow256(2) == 0x1_0000 && Pow256(4) == 0x1_0000_0000
    ensures Pow256(8) == 0x1_0000_0000_0000_0000
  {
    assert Pow256(3) == 0x100_0000;
    assert Pow256(5) == 0x100_0000_0000;
    assert Pow256(6) == 0x1_0000_0000_0000;
    assert Pow256(7) == 0x100_0000_0000_0000;
  }

  /** The bounds are those of the widths. */
  lemma Bounds()
    ensures MAX_U32 == Pow256(4) - 1 && MAX_U64 == Pow256(8) - 1
    ensures MAX_I32 == HalfRange(4) - 1 && MAX_I64 == HalfRange(8) - 1
  {
    Widths();
    assert Pow256(4) == 2 * HalfRange(4) && Pow256(8) == 2 * HalfRange(8);
  }

  // ---------------------------------------------------------------------------
  // Fixed-width fields

  function GetI16(s: seq<byte>): (v: i16)
    requires |s| == 2
  {
    Widths();
    ReadSigned(s)
  }

  function GetI32(s: seq<byte>): (v: i32)
    requires |s| == 4
  {
    Widths();
    ReadSigned(s)
  }

  function GetU32(s: seq<byte>): (v: u32)
    requires |s| == 4
  {
    Widths();
    ReadBe(s)
  }

  function GetI64(s: seq<byte>): (v: i64)
    requires |s| == 8
  {
    Widths();
    ReadSigned(s)
  }

  function PutI16(v: i16): (s: seq<byte>)
    ensures |s| == 2 && GetI16(s) == v
  {
    Widths();
    ReadPutSigned(v, 2);
    PutSigned(v, 2)
  }

  function PutI32(v: i32): (s: seq<byte>)
    ensures |s| == 4 && GetI32(s) == v
  {
    Widths();
    ReadPutSigned(v, 4);
    PutSigned(v, 4)
  }

  function PutU32(v: u32): (s: seq<byte>)
    ensures |s| == 4 && GetU32(s) == v
  {
    Widths();
    ReadPutBe(v, 4);
    PutBe(v, 4)
  }

  function PutI64(v: i64): (s: seq<byte>)
    ensures |s| == 8 && GetI64(s) == v
  {
    Widths();
    ReadPutSigned(v, 8);
    PutSigned(v, 8)
  }

  lemma U32IsInjective(a: seq<byte>, b: seq<byte>)
    requires |a| == |b| == 4 && GetU32(a) == GetU32(b)
    ensures a == b
  {
    PutReadBe(a);
    PutReadBe(b);
  }

  lemma PutReadSigned(s: seq<byte>)
    requires s != []
    ensures PutSigned(ReadSigned(s), |s|) == s
  {
    PutReadBe(s);
  }

  lemma PutGetI16(s: seq<byte>)
    requires |s| == 2
    ensures PutI16(GetI16(s)) == s
  {
    PutReadSigned(s);
  }

  lemma PutGetI32(s: seq<byte>)
    requires |s| == 4
    ensures PutI32(GetI32(s)) == s
  {
    PutReadSigned(s);
  }

  lemma PutGetI64(s: seq<byte>)
    requires |s| == 8
    ensures PutI64(GetI64(s)) == s
  {
    PutReadSigned(s);
  }
}
