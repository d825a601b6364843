/**
 Unsigned base-128 varints: the byte loop, the SWAR fast path that replaces it when eight
 bytes are at hand, and the writer. Both readers are proved against one specification.
 */
module Varint {
  import opened Bytes
  import opened BitWords

  const MAX_VARINT_BYTES: nat := 5
  const TWO_TO_32: nat := 0x1_0000_0000

  datatype DecodeError =
    | UnexpectedEof
    | VarintTooLong
    | LengthOutOfBounds
    | UnexpectedNull
    | InvalidUtf8
    | RecordTooShort

  // ---------------------------------------------------------------------------
  // Specification: little-endian groups of seven bits

  /** The value of the groups of `s` from `i` on, at most `max` of them, and how many bytes they span. */
  function ReadGroups(s: seq<byte>, i: nat, max: nat): (r: Result<(nat, nat), DecodeError>)
    requires i <= |s|
    ensures r.Ok? ==> 0 < r.value.1 <= |s| - i && r.value.1 <= max
    decreases |s| - i
  {
    if max == 0 then Err(VarintTooLong)
    else if i == |s| then Err(UnexpectedEof)
    else if s[i] < 128 then Ok((s[i], 1))
    else
      var rest :- ReadGroups(s, i + 1, max - 1);
      Ok((s[i] - 128 + 128 * rest.0, rest.1 + 1))
  }

  /**
   A `u32` varint at `pos`, and the position after it. Bits past the value's width are shifted
   off the end, as the reference does.
   */
  function DecodeVarint(buf: seq<byte>, pos: nat): (r: Result<(u32, nat), DecodeError>)
    requires pos <= |buf|
    ensures r.Ok? ==> pos < r.value.1 <= |buf| && r.value.1 <= pos + MAX_VARINT_BYTES
  {
    var groups :- ReadGroups(buf, pos, MAX_VARINT_BYTES);
    Ok((groups.0 % TWO_TO_32, pos + groups.1))
  }

  function EncodeVarint(v: nat): (s: seq<byte>)
    ensures |s| >= 1
  {
    if v < 128 then [v] else [v % 128 + 128] + EncodeVarint(v / 128)
  }

  function Pow128(n: nat): (p: nat)
    ensures p >= 1
  {
    if n == 0 then 1 else 128 * Pow128(n - 1)
  }

  /** `code` stands at `pos` in `buf`. */
  predicate At(buf: seq<byte>, pos: nat, code: seq<byte>) {
    pos + |code| <= |buf| && buf[pos..pos + |code|] == code
  }

  lemma AtSplits(buf: seq<byte>, pos: nat, a: seq<byte>, b: seq<byte>)
    requires At(buf, pos, a + b)
    ensures At(buf, pos, a) && At(buf, pos + |a|, b)
  {
    assert buf[pos..pos + |a|] == buf[pos..pos + |a + b|][..|a|];
    assert buf[pos + |a|..pos + |a| + |b|] == buf[pos..pos + |a + b|][|a|..];
  }

  lemma {:induction false} GroupsReadBack(s: seq<byte>, i: nat, v: nat, max: nat)
    requires max > 0 && v < Pow128(max) && At(s, i, EncodeVarint(v))
    ensures ReadGroups(s, i, max) == Ok((v, |EncodeVarint(v)|))
    decreases max
  {
    var code := EncodeVarint(v);
    assert s[i] == code[0];
    if v >= 128 {
      AtSplits(s, i, [v % 128 + 128], EncodeVarint(v / 128));
      GroupsReadBack(s, i + 1, v / 128, max - 1);
    }
  }

  /** What was put is read back, and the cursor stands at the byte after it. */
  lemma VarintRoundTrip(buf: seq<byte>, pos: nat, v: u32)
    requires At(buf, pos, EncodeVarint(v))
    ensures DecodeVarint(buf, pos) == Ok((v, pos + |EncodeVarint(v)|))
  {
    FiveGroups();
    GroupsReadBack(buf, pos, v, 5);
  }

  /** The short forms: one byte below 128, two below 16384, the low seven bits first. */
  lemma ShortVarints(v: nat)
    requires v < 16384
    ensures EncodeVarint(v) == if v < 128 then [v] else [v % 128 + 128, v / 128]
  {
    if v >= 128 {
      assert EncodeVarint(v / 128) == [v / 128];
    }
  }

  lemma FiveGroups()
    ensures Pow128(5) == 0x8_0000_0000
  {
    assert Pow128(2) == 0x4000;
    assert Pow128(3) == 0x20_0000;
    assert Pow128(4) == 0x1000_0000;
  }

  // ---------------------------------------------------------------------------
  // The value both loops accumulate

  /** The seven-bit groups of `s`, continuation bits dropped. */
  function GroupsValue(s: seq<byte>): nat {
    if s == [] then 0 else s[0] % 128 + 128 * GroupsValue(s[1..])
  }

  lemma {:induction false} GroupsValueAppends(s: seq<byte>, b: byte)
    ensures GroupsValue(s + [b]) == GroupsValue(s) + (b % 128) * Pow128(|s|)
  {
    if s == [] {
      assert s + [b] == [b];
      assert GroupsValue([b][1..]) == 0;
    } else {
      var rest := s[1..];
      assert (s + [b])[0] == s[0] && (s + [b])[1..] == rest + [b];
      GroupsValueAppends(rest, b);
      var x, y := b % 128, Pow128(|rest|);
      assert 128 * (x * y) == x * (128 * y);
    }
  }

  /** Whether `s` is one varint and nothing else: every byte continues but the last. */
  predicate OneVarint(s: seq<byte>) {
    s != [] && s[|s| - 1] < 128 && forall i | 0 <= i < |s| - 1 :: s[i] >= 128
  }

  lemma {:induction false} GroupsOfOneVarint(s: seq<byte>, i: nat, n: nat, max: nat)
    requires i + n <= |s| && OneVarint(s[i..i + n]) && n <= max
    ensures ReadGroups(s, i, max) == Ok((GroupsValue(s[i..i + n]), n))
    decreases max
  {
    var code := s[i..i + n];
    assert s[i] == code[0];
    if n == 1 {
      assert code[1..] == [];
    } else {
      assert s[i + 1..i + 1 + (n - 1)] == code[1..];
      assert OneVarint(code[1..]);
      GroupsOfOneVarint(s, i + 1, n - 1, max - 1);
    }
  }

  lemma OneMoreGroup(s: seq<byte>, i: nat, n: nat)
    requires i + n < |s|
    ensures GroupsValue(s[i..i + n + 1]) == GroupsValue(s[i..i + n]) + (s[i + n] % 128) * Pow128(n)
  {
    GroupsValueAppends(s[i..i + n], s[i + n]);
    assert s[i..i + n + 1] == s[i..i + n] + [s[i + n]];
  }

  /** Where the loop stops: after the first byte that does not continue. */
  lemma GroupsEnd(s: seq<byte>, i: nat, n: nat, max: nat)
    requires 0 < n <= max && i + n <= |s| && s[i + n - 1] < 128
    requires forall k | i <= k < i + n - 1 :: s[k] >= 128
    ensures ReadGroups(s, i, max) == Ok((GroupsValue(s[i..i + n]), n))
  {
    hide ReadGroups, GroupsValue;
    var code := s[i..i + n];
    assert code[n - 1] == s[i + n - 1] && forall k | 0 <= k < n - 1 :: code[k] == s[i + k];
    GroupsOfOneVarint(s, i, n, max);
  }

  lemma {:induction false} GroupsThatNeverEnd(s: seq<byte>, i: nat, max: nat)
    requires i <= |s| && forall k | i <= k < |s| && k < i + max :: s[k] >= 128
    ensures ReadGroups(s, i, max) == Err(if |s| - i >= max then VarintTooLong else UnexpectedEof)
    decreases max
  {
    if max > 0 && i < |s| {
      GroupsThatNeverEnd(s, i + 1, max - 1);
    }
  }

  // ---------------------------------------------------------------------------
  // The SWAR scan

  /** `!word & 0x8080_8080_8080_8080`: the top bit of every byte that does not continue. */
  function Stops(word: Word): (w: Word)
    requires |word| == 64
    ensures |w| == 64 && forall k | 0 <= k < 64 :: w[k] == (k % 8 == 7 && !word[k])
  {
    seq(64, k requires 0 <= k < 64 => k % 8 == 7 && !word[k])
  }

  function TrailingZeros(w: Word): (n: nat)
    ensures n <= |w|
    ensures forall k | 0 <= k < n :: !w[k]
    ensures n < |w| ==> w[n]
  {
    if w == [] || w[0] then 0 else 1 + TrailingZeros(w[1..])
  }

  /** `swar_len`: the byte holding the first stop, or 9 when all eight continue. */
  function SwarLen(word: Word): (n: nat)
    requires |word| == 64
  {
    var zeros := TrailingZeros(Stops(word));
    if zeros == 64 then 9 else zeros / 8 + 1
  }

  lemma ContinuationBit(b: byte)
    ensures Bits(b, 8)[7] == (b >= 128)
  {
    ThirtyTwoBits();
    if b >= 128 {
      assert Pow2(8) == 2 * Pow2(7);
      TopBit(b, 8);
    } else {
      assert Pow2(8) == 2 * Pow2(7);
      BitsOfSmall(b, 7);
    }
  }

  lemma StopOfByte(data: seq<byte>, i: nat)
    requires |data| == 8 && i < 8
    ensures Stops(MessageBits(data))[8 * i + 7] == (data[i] < 128)
  {
    hide MessageBits, Bits;
    BitOfMessage(data, i, 7);
    ContinuationBit(data[i]);
  }

  /** The scan finds exactly the byte the loop would have stopped at. */
  lemma SwarLenIsTheFirstStop(data: seq<byte>)
    requires |data| == 8
    ensures var n := SwarLen(MessageBits(data));
      if n <= 8 then OneVarint(data[..n]) else n == 9 && forall i | 0 <= i < 8 :: data[i] >= 128
  {
    var word := MessageBits(data);
    var zeros := TrailingZeros(Stops(word));
    forall i | 0 <= i < 8 && 8 * i + 7 < zeros
      ensures data[i] >= 128
    {
      StopOfByte(data, i);
    }
    if zeros < 64 {
      StopOfByte(data, zeros / 8);
      assert data[..zeros / 8 + 1][zeros / 8] == data[zeros / 8];
    }
  }

  /** A fast form that refines the simple one: the scan answers what the byte loop would. */
  lemma ScanRefinesTheLoop(buf: seq<byte>, pos: nat)
    requires pos + 8 <= |buf|
    ensures var n := SwarLen(MessageBits(buf[pos..pos + 8]));
      if n > MAX_VARINT_BYTES then DecodeVarint(buf, pos) == Err(VarintTooLong)
      else DecodeVarint(buf, pos) == Ok((GroupsValue(buf[pos..pos + n]) % TWO_TO_32, pos + n))
  {
    var eight := buf[pos..pos + 8];
    var n := SwarLen(MessageBits(eight));
    SwarLenIsTheFirstStop(eight);
    if n > MAX_VARINT_BYTES {
      assert forall k | pos <= k < pos + 5 :: buf[k] == eight[k - pos];
      GroupsThatNeverEnd(buf, pos, MAX_VARINT_BYTES);
    } else {
      assert eight[..n] == buf[pos..pos + n];
      GroupsOfOneVarint(buf, pos, n, MAX_VARINT_BYTES);
    }
  }

  method SumGroups(bytes: seq<byte>) returns (value: nat)
    ensures value == GroupsValue(bytes)
  {
    value := 0;
    for i := 0 to |bytes|
      invariant value == GroupsValue(bytes[..i])
    {
      GroupsValueAppends(bytes[..i], bytes[i]);
      assert bytes[..i + 1] == bytes[..i] + [bytes[i]];
      value := value + (bytes[i] % 128) * Pow128(i);
    }
    assert bytes[..|bytes|] == bytes;
  }

  // ---------------------------------------------------------------------------
  // The cursor

  class Cursor {
    const buf: seq<byte>
    var pos: nat

    ghost predicate Valid()
      reads this
    {
      pos <= |buf|
    }

    constructor (data: seq<byte>)
      ensures Valid() && buf == data && pos == 0
    {
      buf := data;
      pos := 0;
    }

    method Take(n: nat) returns (r: Result<seq<byte>, DecodeError>)
      requires Valid()
      modifies this
      ensures Valid()
      ensures if n <= |buf| - old(pos)
              then r == Ok(buf[old(pos)..old(pos) + n]) && pos == old(pos) + n
              else r == Err(UnexpectedEof) && pos == old(pos)
    {
      if |buf| - pos < n {
        return Err(UnexpectedEof);
      }
      r := Ok(buf[pos..pos + n]);
      pos := pos + n;
    }

    /** The byte loop: the tail path, and the reference the scan is held to. */
    method ReadUnsignedVarintSlow() returns (r: Result<u32, DecodeError>)
      requires Valid()
      modifies this
      ensures Valid()
      ensures match DecodeVarint(buf, old(pos))
              case Ok(v) => r == Ok(v.0) && pos == v.1
              case Err(e) => r == Err(e)
    {
      hide ReadGroups, Pow128;
      ghost var start := pos;
      assert GroupsValue(buf[start..start]) == 0;
      hide GroupsValue;
      var value := 0;
      var i := 0;
      while i < MAX_VARINT_BYTES
        invariant Valid() && i <= MAX_VARINT_BYTES && pos == start + i
        invariant forall k | start <= k < pos :: buf[k] >= 128
        invariant value == GroupsValue(buf[start..pos])
      {
        var taken := Take(1);
        if taken.Err? {
          GroupsThatNeverEnd(buf, start, MAX_VARINT_BYTES);
          return Err(taken.error);
        }
        var b := taken.value[0];
        OneMoreGroup(buf, start, i);
        value := value + (b % 128) * Pow128(i);
        i := i + 1;
        if b < 128 {
          GroupsEnd(buf, start, i, MAX_VARINT_BYTES);
          return Ok(value % TWO_TO_32);
        }
      }
      GroupsThatNeverEnd(buf, start, MAX_VARINT_BYTES);
      r := Err(VarintTooLong);
    }

    /** With eight bytes at hand, the word scan; otherwise the byte loop. */
    method ReadUnsignedVarint() returns (r: Result<u32, DecodeError>)
      requires Valid()
      modifies this
      ensures Valid()
      ensures match DecodeVarint(buf, old(pos))
              case Ok(v) => r == Ok(v.0) && pos == v.1
              case Err(e) => r == Err(e)
    {
      if |buf| - pos < 8 {
        r := ReadUnsignedVarintSlow();
        return;
      }
      ScanRefinesTheLoop(buf, pos);
      var length := SwarLen(MessageBits(buf[pos..pos + 8]));
      if length > MAX_VARINT_BYTES {
        return Err(VarintTooLong);
      }
      var taken := Take(length);
      var value := SumGroups(taken.value);
      r := Ok(value % TWO_TO_32);
    }
  }
}
