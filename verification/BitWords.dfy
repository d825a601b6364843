/** Words of bits, least significant first, and the numbers and bytes they stand for. */
module BitWords {
  import opened Bytes

  type Word = seq<bool>

  // ---------------------------------------------------------------------------
  // Numbers and their bits

  function Bits(v: nat, n: nat): (w: Word)
    ensures |w| == n
  {
    if n == 0 then [] else [v % 2 == 1] + Bits(v / 2, n - 1)
  }

  function Value(w: Word): nat {
    if w == [] then 0 else (if w[0] then 1 else 0) + 2 * Value(w[1..])
  }

  function Pow2(n: nat): (p: nat)
    ensures p >= 1
  {
    if n == 0 then 1 else 2 * Pow2(n - 1)
  }

  lemma {:induction false} ValueOfBits(v: nat, n: nat)
    requires v < Pow2(n)
    ensures Value(Bits(v, n)) == v
  {
    if n > 0 {
      ValueOfBits(v / 2, n - 1);
      assert Bits(v, n)[1..] == Bits(v / 2, n - 1);
    }
  }

  lemma {:induction false} BitsOfValue(w: Word)
    ensures Bits(Value(w), |w|) == w && Value(w) < Pow2(|w|)
  {
    if w != [] {
      BitsOfValue(w[1..]);
      assert w == [w[0]] + w[1..];
    }
  }

  lemma {:induction false} PowersAdd(m: nat, n: nat)
    ensures Pow2(m + n) == Pow2(m) * Pow2(n)
    decreases m
  {
    if m > 0 {
      PowersAdd(m - 1, n);
    }
  }

  lemma ThirtyTwoBits()
    ensures Pow2(8) == 0x100 && Pow2(32) == 0x1_0000_0000
  {
    assert Pow2(4) == 0x10;
    hide Pow2;
    PowersAdd(4, 4);
    PowersAdd(8, 8);
    PowersAdd(16, 16);
  }

  function BitValue(bit: bool): nat {
    if bit then 1 else 0
  }

  lemma {:induction false} ValueAppends(a: Word, b: Word)
    ensures Value(a + b) == Value(a) + Pow2(|a|) * Value(b)
  {
    if a == [] {
      assert a + b == b;
    } else {
      var rest := a[1..];
      assert (a + b)[0] == a[0] && (a + b)[1..] == rest + b;
      ValueAppends(rest, b);
      Doubles(Pow2(|rest|), Value(b));
      assert Value(a + b) == BitValue(a[0]) + 2 * Value(rest + b);
      assert Value(a) == BitValue(a[0]) + 2 * Value(rest) && Pow2(|a|) == 2 * Pow2(|rest|);
    }
  }

  lemma Doubles(p: nat, v: nat)
    ensures (2 * p) * v == 2 * (p * v)
  {}

  lemma ValueOfFour(w: Word)
    requires |w| == 4
    ensures Value(w) == BitValue(w[0]) + 2 * BitValue(w[1]) + 4 * BitValue(w[2]) + 8 * BitValue(w[3])
  {
    assert Value(w[3..]) == BitValue(w[3]);
    assert w[2..][1..] == w[3..] && Value(w[2..]) == BitValue(w[2]) + 2 * Value(w[3..]);
    assert w[1..][1..] == w[2..] && Value(w[1..]) == BitValue(w[1]) + 2 * Value(w[2..]);
  }

  lemma ValueOfEight(w: Word)
    requires |w| == 8
    ensures Value(w) == BitValue(w[0]) + 2 * BitValue(w[1]) + 4 * BitValue(w[2]) + 8 * BitValue(w[3])
      + 16 * (BitValue(w[4]) + 2 * BitValue(w[5]) + 4 * BitValue(w[6]) + 8 * BitValue(w[7]))
  {
    assert Pow2(4) == 16;
    hide Value;
    ValueOfFour(w[..4]);
    ValueOfFour(w[4..]);
    ValueAppends(w[..4], w[4..]);
    assert w == w[..4] + w[4..];
  }

  // ---------------------------------------------------------------------------
  // Words under exclusive-or

  function Zeros(n: nat): (w: Word)
    ensures |w| == n && forall i | 0 <= i < n :: !w[i]
  {
    seq(n, _ => false)
  }

  function Xor(a: Word, b: Word): (w: Word)
    requires |a| == |b|
    ensures |w| == |a| && forall i | 0 <= i < |a| :: w[i] == (a[i] != b[i])
  {
    if a == [] then [] else [a[0] != b[0]] + Xor(a[1..], b[1..])
  }

  /** `w` at the low end of a word as wide as the register. */
  function Low(w: Word, n: nat): (r: Word)
    requires |w| <= n
    ensures |r| == n
  {
    w + Zeros(n - |w|)
  }

  lemma XorCancels(a: Word, b: Word)
    requires |a| == |b|
    ensures Xor(Xor(a, b), b) == a
  {}

  lemma XorCommutes(a: Word, b: Word)
    requires |a| == |b|
    ensures Xor(a, b) == Xor(b, a)
  {}

  lemma XorAssociates(a: Word, b: Word, c: Word)
    requires |a| == |b| == |c|
    ensures Xor(Xor(a, b), c) == Xor(a, Xor(b, c))
  {}

  lemma XorRegroups(a: Word, b: Word, x: Word, y: Word)
    requires |a| == |b| == |x| == |y|
    ensures Xor(Xor(a, b), Xor(x, y)) == Xor(Xor(a, x), Xor(b, y))
  {}

  lemma XorUndoes(a: Word, b: Word, c: Word)
    requires |a| == |b| == |c|
    ensures Xor(a, Xor(Xor(a, b), c)) == Xor(b, c)
  {
    hide Xor;
  }

  lemma XorBehindZeros(a: Word, b: Word)
    requires |a| == |b|
    ensures Xor([false] + a, [false] + b) == [false] + Xor(a, b)
  {
    assert ([false] + a)[1..] == a && ([false] + b)[1..] == b;
  }

  lemma XorZeros(a: Word)
    ensures Xor(a, Zeros(|a|)) == a && Xor(Zeros(|a|), a) == a
  {}

  /** The `^` of two unsigned 32-bit numbers. */
  function XorNumbers(a: u32, b: u32): (r: u32)
    ensures Bits(r, 32) == Xor(Bits(a, 32), Bits(b, 32))
  {
    var w := Xor(Bits(a, 32), Bits(b, 32));
    BitsOfValue(w);
    ThirtyTwoBits();
    Value(w)
  }

  // ---------------------------------------------------------------------------
  // The bits of numbers with a few set

  lemma BitsOfHalf(v: nat, n: nat)
    requires n > 0 && v < Pow2(n)
    ensures Bits(v / 2, n) == Bits(v, n)[1..] + [false]
  {
    BitsOfSmall(v / 2, n - 1);
  }

  lemma {:induction false} BitsOfSmall(v: nat, n: nat)
    requires v < Pow2(n)
    ensures Bits(v, n + 1) == Bits(v, n) + [false]
  {
    if n > 0 {
      BitsOfSmall(v / 2, n - 1);
    }
  }

  lemma {:induction false} BitsOfNarrow(v: nat, m: nat, n: nat)
    requires v < Pow2(m) && m <= n
    ensures Bits(v, n) == Low(Bits(v, m), n)
    decreases n - m
  {
    if m == n {
      assert Low(Bits(v, m), n) == Bits(v, m);
    } else {
      assert v < Pow2(m + 1);
      BitsOfSmall(v, m);
      BitsOfNarrow(v, m + 1, n);
      assert [false] + Zeros(n - m - 1) == Zeros(n - m);
    }
  }

  lemma {:induction false} OnesAreAllBits(v: nat, n: nat)
    requires v == Pow2(n) - 1
    ensures Bits(v, n) == seq(n, _ => true)
  {
    if n > 0 {
      OnesAreAllBits(v / 2, n - 1);
    }
  }

  lemma {:induction false} TopBit(v: nat, n: nat)
    requires n > 0 && Pow2(n - 1) <= v < Pow2(n)
    ensures Bits(v, n)[n - 1]
    decreases n
  {
    if n > 1 {
      TopBit(v / 2, n - 1);
    }
  }

  // ---------------------------------------------------------------------------
  // The bits of bytes, first byte first

  function MessageBits(data: seq<byte>): (m: Word)
    ensures |m| == 8 * |data|
  {
    if data == [] then [] else Bits(data[0], 8) + MessageBits(data[1..])
  }

  lemma {:induction false} MessageBitsAppend(a: seq<byte>, b: seq<byte>)
    ensures MessageBits(a + b) == MessageBits(a) + MessageBits(b)
  {
    if a == [] {
      assert a + b == b;
    } else {
      assert (a + b)[0] == a[0] && (a + b)[1..] == a[1..] + b;
      MessageBitsAppend(a[1..], b);
    }
  }

  lemma {:induction false} BitOfMessage(data: seq<byte>, i: nat, j: nat)
    requires i < |data| && j < 8
    ensures MessageBits(data)[8 * i + j] == Bits(data[i], 8)[j]
  {
    if i > 0 {
      BitOfMessage(data[1..], i - 1, j);
    }
  }

  // ---------------------------------------------------------------------------
  // Parity

  /** Whether an odd number of bits is set. */
  function Odd(m: Word): bool {
    if m == [] then false else m[0] != Odd(m[1..])
  }

  lemma {:induction false} OddOfXor(a: Word, b: Word)
    requires |a| == |b|
    ensures Odd(Xor(a, b)) == (Odd(a) != Odd(b))
  {
    if a != [] {
      assert Xor(a, b)[1..] == Xor(a[1..], b[1..]);
      OddOfXor(a[1..], b[1..]);
    }
  }

  lemma {:induction false} OddAppends(a: Word, b: Word)
    ensures Odd(a + b) == (Odd(a) != Odd(b))
  {
    if a == [] {
      assert a + b == b;
    } else {
      assert (a + b)[0] == a[0] && (a + b)[1..] == a[1..] + b;
      OddAppends(a[1..], b);
    }
  }

  lemma {:induction false} ZerosAreEven(n: nat)
    ensures !Odd(Zeros(n))
  {
    if n > 0 {
      assert Zeros(n)[1..] == Zeros(n - 1);
      ZerosAreEven(n - 1);
    }
  }

  lemma OddOfEight(w: Word)
    requires |w| == 8
    ensures Odd(w) == (w[0] != (w[1] != (w[2] != (w[3] != (w[4] != (w[5] != (w[6] != w[7])))))))
  {
    OddOfFour(w[..4]);
    OddOfFour(w[4..]);
    OddAppends(w[..4], w[4..]);
    assert w == w[..4] + w[4..];
  }

  lemma OddOfFour(w: Word)
    requires |w| == 4
    ensures Odd(w) == (w[0] != (w[1] != (w[2] != w[3])))
  {
    assert Odd(w[3..]) == w[3];
    assert w[2..][1..] == w[3..] && Odd(w[2..]) == (w[2] != Odd(w[3..]));
    assert w[1..][1..] == w[2..] && Odd(w[1..]) == (w[1] != Odd(w[2..]));
  }
}
