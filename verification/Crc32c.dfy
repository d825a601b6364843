/**
 CRC-32C (Castagnoli, reflected; section 12.1 of RFC 3720) as linear algebra over GF(2):
 the bit-by-bit reference path, the combine law in its step-by-step and repeated-squaring
 forms, and what the checksum is guaranteed to notice.

 A register is a word of bits, least significant first, which in the reflected form is the
 coefficient of the highest power first.
 */
module Crc32c {
  import opened Bytes
  import opened BitWords

  /** The reflected Castagnoli polynomial. */
  const POLYNOMIAL: u32 := 0x82F6_3B78
  const ALL_ONES: u32 := 0xFFFF_FFFF

  // ---------------------------------------------------------------------------
  // The division by a generator `g`, one bit at a time

  type Register = w: Word | |w| == 32 witness Zeros(32)

  function Shift(c: Word): (r: Word)
    requires c != []
    ensures |r| == |c|
  {
    c[1..] + [false]
  }

  function Step(g: Register, c: Register): Register {
    if c[0] then Xor(Shift(c), g) else Shift(c)
  }

  function Steps(g: Register, c: Register, n: nat): Register
    decreases n
  {
    if n == 0 then c else Steps(g, Step(g, c), n - 1)
  }

  /** The register after the message bits `m`, first bit first. */
  function Feed(g: Register, c: Register, m: Word): Register
    decreases |m|
  {
    if m == [] then c else Feed(g, Step(g, Xor(c, Low([m[0]], 32))), m[1..])
  }

  function Ones(): Register {
    seq(32, _ => true)
  }

  /** Register preset to all ones, complemented at the end. */
  function CrcOver(g: Register, m: Word): Register {
    Xor(Feed(g, Ones(), m), Ones())
  }

  function Castagnoli(): Register {
    Bits(POLYNOMIAL, 32)
  }

  function Crc(g: Register, data: seq<byte>): Register {
    CrcOver(g, MessageBits(data))
  }

  /** The checksum as the number the batch header stores. */
  function Checksum(data: seq<byte>): (r: u32) {
    BitsOfValue(Crc(Castagnoli(), data));
    ThirtyTwoBits();
    Value(Crc(Castagnoli(), data))
  }

  // ---------------------------------------------------------------------------
  // The step is linear, and injective for a generator with its top bit set

  lemma StepIsLinear(g: Register, a: Register, b: Register)
    ensures Step(g, Xor(a, b)) == Xor(Step(g, a), Step(g, b))
  {
    hide Xor;
  }

  lemma StepIsInjective(g: Register, a: Register, b: Register)
    requires g[31] && Step(g, a) == Step(g, b)
    ensures a == b
  {
    assert Step(g, a)[31] == a[0] && Step(g, b)[31] == b[0];
    assert Shift(a) == Shift(b) by {
      XorCancels(Shift(a), g);
      XorCancels(Shift(b), g);
    }
    assert a == [a[0]] + Shift(a)[..31] && b == [b[0]] + Shift(b)[..31];
  }

  lemma {:induction false} StepsAreLinear(g: Register, a: Register, b: Register, n: nat)
    ensures Steps(g, Xor(a, b), n) == Xor(Steps(g, a, n), Steps(g, b, n))
    decreases n
  {
    hide Xor, Step;
    if n > 0 {
      StepIsLinear(g, a, b);
      StepsAreLinear(g, Step(g, a), Step(g, b), n - 1);
    }
  }

  lemma {:induction false} StepsAreInjective(g: Register, a: Register, b: Register, n: nat)
    requires g[31] && Steps(g, a, n) == Steps(g, b, n)
    ensures a == b
    decreases n
  {
    hide Step, Xor;
    if n > 0 {
      StepsAreInjective(g, Step(g, a), Step(g, b), n - 1);
      StepIsInjective(g, a, b);
    }
  }

  lemma {:induction false} StepsAdd(g: Register, c: Register, m: nat, n: nat)
    ensures Steps(g, c, m + n) == Steps(g, Steps(g, c, m), n)
    decreases m
  {
    if m > 0 {
      StepsAdd(g, Step(g, c), m - 1, n);
    }
  }

  lemma {:induction false} StepsOfZero(g: Register, n: nat)
    ensures Steps(g, Zeros(32), n) == Zeros(32)
  {
    if n > 0 {
      assert Step(g, Zeros(32)) == Zeros(32);
      StepsOfZero(g, n - 1);
    }
  }

  // ---------------------------------------------------------------------------
  // Feeding a message

  lemma {:induction false} FeedAppends(g: Register, c: Register, m: Word, n: Word)
    ensures Feed(g, c, m + n) == Feed(g, Feed(g, c, m), n)
    decreases |m|
  {
    hide Xor, Step, Low;
    if m == [] {
      assert m + n == n;
    } else {
      assert (m + n)[0] == m[0] && (m + n)[1..] == m[1..] + n;
      FeedAppends(g, Step(g, Xor(c, Low([m[0]], 32))), m[1..], n);
    }
  }

  /** Feeding is affine in the register: a difference just advances, one step per bit. */
  lemma {:induction false} FeedIsAffine(g: Register, c: Register, d: Register, m: Word)
    ensures Feed(g, Xor(c, d), m) == Xor(Steps(g, c, |m|), Feed(g, d, m))
    decreases |m|
  {
    hide Xor, Step, Low;
    if m != [] {
      var bit := Low([m[0]], 32);
      XorAssociates(c, d, bit);
      StepIsLinear(g, c, Xor(d, bit));
      FeedIsAffine(g, Step(g, c), Step(g, Xor(d, bit)), m[1..]);
    }
  }

  // ---------------------------------------------------------------------------
  // Polynomials over GF(2), highest power first: the register is the remainder

  /** The row schoolbook multiplication adds for one digit. */
  function Row(digit: bool, p: Word, zeros: nat): (r: Word)
    ensures |r| == |p| + zeros && forall k | 0 <= k < |r| :: r[k] == (digit && k < |p| && p[k])
  {
    (if digit then p else Zeros(|p|)) + Zeros(zeros)
  }

  /** The product of `q` and `p`, by schoolbook multiplication; it has a power for every sum of powers. */
  function Product(q: Word, p: Word): (r: Word)
    requires p != []
    ensures |r| == |q| + |p| - 1
  {
    if q == [] then Zeros(|p| - 1)
    else Xor(Row(q[0], p, |q| - 1), [false] + Product(q[1..], p))
  }

  /** The generator in full: its highest power, which the register leaves implicit, and the rest. */
  function Generator(g: Register): (p: Word)
    ensures |p| == 33 && p[0] && p[1..] == g
  {
    [true] + g
  }

  /** `a` equals `q` times the generator plus the remainder `r`, whose powers are below the generator's. */
  ghost predicate DividesInto(g: Register, a: Word, q: Word, r: Register) {
    |a| == |q| + 32 && a == Xor(Product(q, Generator(g)), Zeros(|q|) + r)
  }

  /** What a message is divided as: times x^32, with the register's contents added to its first 32 bits. */
  function Dividend(c: Register, m: Word): (a: Word)
    ensures |a| == |m| + 32
    ensures forall k | 0 <= k < |a| :: a[k] == ((k < |m| && m[k]) != (k < 32 && c[k]))
  {
    hide Xor, Zeros;
    Xor(m + Zeros(32), c + Zeros(|m|))
  }

  /** The bit that leaves the register when `b` comes in: the next digit of the quotient. */
  function Digit(c: Register, b: bool): bool {
    c[0] != b
  }

  function FedBit(g: Register, c: Register, b: bool): Register {
    Step(g, Xor(c, Low([b], 32)))
  }

  lemma FedBitAt(g: Register, c: Register, b: bool, k: nat)
    requires k < 32
    ensures FedBit(g, c, b)[k] == ((k < 31 && c[k + 1]) != (Digit(c, b) && g[k]))
  {
    hide Xor, Zeros;
    var mixed := Xor(c, Low([b], 32));
    assert mixed[0] == Digit(c, b) && (k < 31 ==> Shift(mixed)[k] == c[k + 1]);
  }

  /** A step takes the digit's multiple of the generator from the dividend. */
  lemma DividendSteps(g: Register, c: Register, m: Word)
    requires m != []
    ensures Dividend(c, m)
      == Xor(Row(Digit(c, m[0]), Generator(g), |m| - 1), [false] + Dividend(FedBit(g, c, m[0]), m[1..]))
  {
    hide Xor, Dividend, Row, FedBit;
    var row, rest := Row(Digit(c, m[0]), Generator(g), |m| - 1), Dividend(FedBit(g, c, m[0]), m[1..]);
    forall k | 0 <= k < |m| + 32 ensures Dividend(c, m)[k] == (row[k] != ([false] + rest)[k]) {
      if k > 0 {
        assert ([false] + rest)[k] == rest[k - 1];
        if k <= 32 {
          FedBitAt(g, c, m[0], k - 1);
          assert Generator(g)[k] == g[k - 1];
        }
      }
    }
  }

  /** Putting one more digit before a quotient. */
  lemma DigitBefore(g: Register, a: Word, digit: bool, q: Word, r: Register)
    requires DividesInto(g, a, q, r)
    ensures DividesInto(g, Xor(Row(digit, Generator(g), |q|), [false] + a), [digit] + q, r)
  {
    hide Xor, Row, Generator;
    var row, product := Row(digit, Generator(g), |q|), Product(q, Generator(g));
    assert ([digit] + q)[1..] == q;
    assert [false] + a == Xor([false] + product, Zeros(|q| + 1) + r);
    XorAssociates(row, [false] + product, Zeros(|q| + 1) + r);
  }

  /** Feeding a message divides it: what is left in the register is the remainder. */
  lemma {:induction false} FeedDivides(g: Register, c: Register, m: Word) returns (q: Word)
    ensures DividesInto(g, Dividend(c, m), q, Feed(g, c, m))
    decreases |m|
  {
    if m == [] {
      q := [];
      NothingToDivide(g, c);
    } else {
      hide DividesInto, Dividend, Xor, Step, Row, Generator;
      var rest := FeedDivides(g, FedBit(g, c, m[0]), m[1..]);
      q := [Digit(c, m[0])] + rest;
      DigitBefore(g, Dividend(FedBit(g, c, m[0]), m[1..]), Digit(c, m[0]), rest, Feed(g, c, m));
      DividendSteps(g, c, m);
    }
  }

  lemma NothingToDivide(g: Register, c: Register)
    ensures DividesInto(g, Dividend(c, []), [], c)
  {
    hide Xor;
    assert Product([], Generator(g)) == Zeros(32) && Zeros(0) + c == c;
  }

  lemma OnlyRemainderIsLeft(g: Register, a: Word, r: Register)
    requires DividesInto(g, a, [], r)
    ensures a == r
  {
    hide Xor;
    assert Product([], Generator(g)) == Zeros(32) && Zeros(0) + r == r;
    XorZeros(r);
  }

  /** Taking the first digit off a quotient; the dividend's first bit says which it is. */
  lemma DigitOff(g: Register, a: Word, q: Word, r: Register)
    requires DividesInto(g, a, q, r) && q != []
    ensures a[0] == q[0]
    ensures DividesInto(g, Xor(Row(q[0], Generator(g), |q| - 1), a)[1..], q[1..], r)
  {
    hide Xor, Row, Zeros, Generator, Product;
    var row, product := Row(q[0], Generator(g), |q| - 1), Product(q[1..], Generator(g));
    ProductByRows(q, Generator(g));
    PadOneMore(|q| - 1, r);
    RowOff(row, product, Zeros(|q| - 1) + r);
  }

  lemma ProductByRows(q: Word, p: Word)
    requires q != [] && p != []
    ensures Product(q, p) == Xor(Row(q[0], p, |q| - 1), [false] + Product(q[1..], p))
  {}

  lemma PadOneMore(n: nat, r: Word)
    ensures [false] + (Zeros(n) + r) == Zeros(n + 1) + r
  {
    assert [false] + Zeros(n) == Zeros(n + 1);
  }

  lemma RowOff(row: Word, product: Word, r: Word)
    requires |product| == |r| == |row| - 1
    ensures var a := Xor(Xor(row, [false] + product), [false] + r);
      a[0] == row[0] && Xor(row, a)[1..] == Xor(product, r)
  {
    hide Xor;
    XorUndoes(row, [false] + product, [false] + r);
    XorBehindZeros(product, r);
  }

  /** And it is the only one: no other quotient leaves a remainder below the generator. */
  lemma {:induction false} RemainderIsUnique(g: Register, a: Word, q: Word, r: Register, q': Word, r': Register)
    requires DividesInto(g, a, q, r) && DividesInto(g, a, q', r')
    ensures q == q' && r == r'
    decreases |q|
  {
    if q == [] {
      OnlyRemainderIsLeft(g, a, r);
      OnlyRemainderIsLeft(g, a, r');
    } else {
      hide DividesInto;
      DigitOff(g, a, q, r);
      DigitOff(g, a, q', r');
      RemainderIsUnique(g, Xor(Row(q[0], Generator(g), |q| - 1), a)[1..], q[1..], r, q'[1..], r');
    }
  }

  /** The CRC is the remainder of the message, preset and complemented, and of no other quotient. */
  lemma {:induction false} CrcIsTheRemainder(g: Register, m: Word) returns (q: Word)
    ensures DividesInto(g, Dividend(Ones(), m), q, Xor(CrcOver(g, m), Ones()))
    ensures forall q', r: Register :: DividesInto(g, Dividend(Ones(), m), q', r) ==>
      q' == q && Xor(r, Ones()) == CrcOver(g, m)
  {
    hide DividesInto, Dividend;
    q := FeedDivides(g, Ones(), m);
    XorCancels(Feed(g, Ones(), m), Ones());
    forall q', r: Register | DividesInto(g, Dividend(Ones(), m), q', r)
      ensures q' == q && Xor(r, Ones()) == CrcOver(g, m)
    {
      RemainderIsUnique(g, Dividend(Ones(), m), q, Feed(g, Ones(), m), q', r);
    }
  }

  // ---------------------------------------------------------------------------
  // The combine law

  /** `crc32c_combine` by its defining law: advance the left checksum past the right bytes. */
  function Combine(g: Register, a: Register, b: Register, lengthB: nat): Register {
    Xor(Steps(g, a, 8 * lengthB), b)
  }

  lemma {:induction false} CombineOver(g: Register, m: Word, n: Word)
    ensures Xor(Steps(g, CrcOver(g, m), |n|), CrcOver(g, n)) == CrcOver(g, m + n)
  {
    var left := CrcOver(g, m);
    FeedAppends(g, Ones(), m, n);
    XorCancels(Feed(g, Ones(), m), Ones());
    FeedIsAffine(g, left, Ones(), n);
    XorAssociates(Steps(g, left, |n|), Feed(g, Ones(), n), Ones());
  }

  lemma {:induction false} CombineLaw(g: Register, a: seq<byte>, b: seq<byte>)
    ensures Combine(g, Crc(g, a), Crc(g, b), |b|) == Crc(g, a + b)
  {
    MessageBitsAppend(a, b);
    CombineOver(g, MessageBits(a), MessageBits(b));
  }

  lemma AdvancesAssociate(g: Register, a: Register, b: Register, c: Register, m: nat, n: nat)
    ensures Xor(Steps(g, Xor(Steps(g, a, m), b), n), c) == Xor(Steps(g, a, m + n), Xor(Steps(g, b, n), c))
  {
    StepsAreLinear(g, Steps(g, a, m), b, n);
    StepsAdd(g, a, m, n);
    XorAssociates(Steps(g, a, m + n), Steps(g, b, n), c);
  }

  lemma {:induction false} CombineIsAssociative(g: Register, a: Register, b: Register, c: Register, m: nat, n: nat)
    ensures Combine(g, Combine(g, a, b, m), c, n) == Combine(g, a, Combine(g, b, c, n), m + n)
  {
    AdvancesAssociate(g, a, b, c, 8 * m, 8 * n);
  }

  lemma {:induction false} EmptyIsTheUnit(g: Register, a: Register, b: Register, n: nat)
    ensures Crc(g, []) == Zeros(32)
    ensures Combine(g, a, Crc(g, []), 0) == a
    ensures Combine(g, Crc(g, []), b, n) == b
  {
    assert Crc(g, []) == Zeros(32);
    XorZeros(a);
    XorZeros(b);
    StepsOfZero(g, 8 * n);
  }

  // ---------------------------------------------------------------------------
  // Repeated squaring: the O(log n) form

  /** A matrix over GF(2), column `i` the image of bit `i`. */
  type Matrix = seq<Register>

  function Scale(bit: bool, v: Register): Register {
    if bit then v else Zeros(32)
  }

  function Times(m: Matrix, v: Word): Register
    requires |m| == |v|
  {
    if m == [] then Zeros(32) else Xor(Scale(v[0], m[0]), Times(m[1..], v[1..]))
  }

  function TimesEach(m: Matrix, columns: Matrix): (r: Matrix)
    requires |m| == 32
    ensures |r| == |columns|
  {
    if columns == [] then [] else [Times(m, columns[0])] + TimesEach(m, columns[1..])
  }

  function StepEach(g: Register, columns: Matrix): (r: Matrix)
    ensures |r| == |columns|
  {
    if columns == [] then [] else [Step(g, columns[0])] + StepEach(g, columns[1..])
  }

  function Unit(i: nat): Register
    requires i < 32
  {
    Zeros(i) + [true] + Zeros(31 - i)
  }

  /** The unit vectors from bit `i` on. */
  function UnitsFrom(i: nat): (r: Matrix)
    requires i <= 32
    ensures |r| == 32 - i
    decreases 32 - i
  {
    if i == 32 then [] else [Unit(i)] + UnitsFrom(i + 1)
  }

  ghost predicate AdvancesBy(g: Register, m: Matrix, n: nat) {
    |m| == 32 && forall v: Register :: Times(m, v) == Steps(g, v, n)
  }

  lemma ScaleIsLinear(p: bool, q: bool, v: Register)
    ensures Scale(p != q, v) == Xor(Scale(p, v), Scale(q, v))
  {}

  lemma {:induction false} TimesIsLinear(m: Matrix, a: Word, b: Word)
    requires |m| == |a| == |b|
    ensures Times(m, Xor(a, b)) == Xor(Times(m, a), Times(m, b))
  {
    if m == [] {
      XorZeros(Zeros(32));
    } else {
      assert Xor(a, b)[1..] == Xor(a[1..], b[1..]);
      ScaleIsLinear(a[0], b[0], m[0]);
      TimesIsLinear(m[1..], a[1..], b[1..]);
      XorRegroups(Scale(a[0], m[0]), Scale(b[0], m[0]), Times(m[1..], a[1..]), Times(m[1..], b[1..]));
    }
  }

  lemma {:induction false} TimesOfZero(m: Matrix)
    ensures Times(m, Zeros(|m|)) == Zeros(32)
  {
    if m != [] {
      assert Zeros(|m|)[1..] == Zeros(|m[1..]|);
      TimesOfZero(m[1..]);
      XorZeros(Zeros(32));
    }
  }

  lemma {:induction false} TimesEachComposes(m: Matrix, columns: Matrix, v: Word)
    requires |m| == 32 && |columns| == |v|
    ensures Times(TimesEach(m, columns), v) == Times(m, Times(columns, v))
    decreases |columns|
  {
    TimesOfZero(m);
    if columns != [] {
      TimesEachComposes(m, columns[1..], v[1..]);
      assert TimesEach(m, columns)[1..] == TimesEach(m, columns[1..]);
      TimesIsLinear(m, Scale(v[0], columns[0]), Times(columns[1..], v[1..]));
    }
  }

  lemma {:induction false} StepEachComposes(g: Register, columns: Matrix, v: Word)
    requires |columns| == |v|
    ensures Times(StepEach(g, columns), v) == Step(g, Times(columns, v))
    decreases |columns|
  {
    assert Step(g, Zeros(32)) == Zeros(32);
    if columns != [] {
      StepEachComposes(g, columns[1..], v[1..]);
      assert StepEach(g, columns)[1..] == StepEach(g, columns[1..]);
      StepIsLinear(g, Scale(v[0], columns[0]), Times(columns[1..], v[1..]));
    }
  }

  /** `v` with its bits below `i` cleared. */
  function From(v: Register, i: nat): (r: Register)
    requires i <= 32
    ensures forall k | 0 <= k < 32 :: r[k] == (i <= k && v[k])
  {
    Zeros(i) + v[i..]
  }

  lemma UnitAdds(v: Register, i: nat)
    requires i < 32
    ensures Xor(Scale(v[i], Unit(i)), From(v, i + 1)) == From(v, i)
  {
    hide Xor, From;
    var unit := Unit(i);
    assert unit[i] && forall k | 0 <= k < 32 && k != i :: !unit[k];
  }

  lemma {:induction false} TimesUnits(v: Register, i: nat)
    requires i <= 32
    ensures Times(UnitsFrom(i), v[i..]) == From(v, i)
    decreases 32 - i
  {
    hide Xor, Scale, Unit, From;
    if i < 32 {
      TimesUnits(v, i + 1);
      UnitAdds(v, i);
      assert v[i..][0] == v[i] && v[i..][1..] == v[i + 1..];
      assert UnitsFrom(i)[0] == Unit(i) && UnitsFrom(i)[1..] == UnitsFrom(i + 1);
    }
  }

  lemma OneStepOperator(g: Register)
    ensures AdvancesBy(g, StepEach(g, UnitsFrom(0)), 1)
  {
    forall v: Register ensures Times(StepEach(g, UnitsFrom(0)), v) == Steps(g, v, 1) {
      StepEachComposes(g, UnitsFrom(0), v);
      TimesUnits(v, 0);
      assert v[0..] == v && From(v, 0) == v;
      assert Steps(g, v, 1) == Steps(g, Step(g, v), 0);
    }
  }

  lemma Squaring(g: Register, m: Matrix, n: nat)
    requires AdvancesBy(g, m, n)
    ensures AdvancesBy(g, TimesEach(m, m), 2 * n)
  {
    forall v: Register ensures Times(TimesEach(m, m), v) == Steps(g, v, 2 * n) {
      SquaringAt(g, m, n, v);
    }
  }

  lemma SquaringAt(g: Register, m: Matrix, n: nat, v: Register)
    requires AdvancesBy(g, m, n)
    ensures Times(TimesEach(m, m), v) == Steps(g, v, 2 * n)
  {
    hide Times, TimesEach, Steps;
    TimesEachComposes(m, m, v);
    StepsAdd(g, v, n, n);
  }

  /** One round: spend the low bit of what is left, and double the stride. */
  lemma OneRound(g: Register, m: Matrix, c: Register, stride: nat, left: nat)
    requires AdvancesBy(g, m, stride)
    ensures Steps(g, if left % 2 == 1 then Times(m, c) else c, (2 * stride) * (left / 2)) == Steps(g, c, stride * left)
  {
    hide Steps, Times;
    var rest := (2 * stride) * (left / 2);
    StrideSplits(stride, left);
    if left % 2 == 1 {
      StepsAdd(g, c, stride, rest);
    }
  }

  lemma StrideSplits(stride: nat, left: nat)
    ensures stride * left == (if left % 2 == 1 then stride else 0) + (2 * stride) * (left / 2)
  {
    assert left == 2 * (left / 2) + left % 2;
    var half, bit := left / 2, left % 2;
    assert stride * (2 * half + bit) == (2 * stride) * half + stride * bit;
  }

  /** Advances by `n` steps with one squaring per bit of `n`. */
  method AdvanceBySquaring(g: Register, c: Register, n: nat) returns (r: Register)
    ensures r == Steps(g, c, n)
  {
    hide Times, TimesEach, StepEach, UnitsFrom;
    var operator := StepEach(g, UnitsFrom(0));
    OneStepOperator(g);
    var left := n;
    ghost var stride: nat := 1;
    r := c;
    while left > 0
      invariant AdvancesBy(g, operator, stride)
      invariant Steps(g, r, stride * left) == Steps(g, c, n)
      decreases left
    {
      OneRound(g, operator, r, stride, left);
      Squaring(g, operator, stride);
      r := if left % 2 == 1 then Times(operator, r) else r;
      operator, stride, left := TimesEach(operator, operator), 2 * stride, left / 2;
    }
  }

  /** `crc32c_combine` in O(log n): the same answer as the step-by-step law, for every length. */
  method CombineBySquaring(g: Register, a: Register, b: Register, lengthB: nat) returns (r: Register)
    ensures r == Combine(g, a, b, lengthB)
  {
    var advanced := AdvanceBySquaring(g, a, 8 * lengthB);
    r := Xor(advanced, b);
  }

  /** `crc32c_combine` on the numbers its callers hold. */
  function CombineChecksums(crcA: u32, crcB: u32, lengthB: nat): (r: u32) {
    var w := Combine(Castagnoli(), Bits(crcA, 32), Bits(crcB, 32), lengthB);
    BitsOfValue(w);
    ThirtyTwoBits();
    Value(w)
  }

  /** The documented law: two checksums and a length give the checksum of the concatenation. */
  lemma {:induction false} CombineOfChecksums(a: seq<byte>, b: seq<byte>)
    ensures CombineChecksums(Checksum(a), Checksum(b), |b|) == Checksum(a + b)
  {
    hide Castagnoli, Combine, Crc, Bits, Value, Pow2;
    BitsOfValue(Crc(Castagnoli(), a));
    BitsOfValue(Crc(Castagnoli(), b));
    CombineLaw(Castagnoli(), a, b);
  }

  method Crc32cCombine(crcA: u32, crcB: u32, lengthB: nat) returns (crc: u32)
    ensures crc == CombineChecksums(crcA, crcB, lengthB)
  {
    hide Castagnoli, Combine, Bits, Value, Pow2;
    var w := CombineBySquaring(Castagnoli(), Bits(crcA, 32), Bits(crcB, 32), lengthB);
    BitsOfValue(w);
    ThirtyTwoBits();
    crc := Value(w);
  }

  // ---------------------------------------------------------------------------
  // What a change cannot hide behind

  /** Bits that meet a register no longer than itself could have been added up front. */
  lemma {:induction false} FeedAddsUpFront(g: Register, c: Register, m: Word)
    requires |m| <= 32
    ensures Feed(g, c, m) == Steps(g, Xor(c, Low(m, 32)), |m|)
    decreases |m|
  {
    if m == [] {
      XorZeros(c);
      assert Low(m, 32) == Zeros(32);
    } else {
      var first, rest := Low([m[0]], 32), Low([false] + m[1..], 32);
      assert Low(m, 32) == Xor(first, rest);
      XorAssociates(c, first, rest);
      StepIsLinear(g, Xor(c, first), rest);
      assert Step(g, rest) == Low(m[1..], 32);
      FeedAddsUpFront(g, Step(g, Xor(c, first)), m[1..]);
    }
  }

  lemma {:induction false} FeedIsInjectiveInTheRegister(g: Register, c: Register, d: Register, m: Word)
    requires g[31] && Feed(g, c, m) == Feed(g, d, m)
    ensures c == d
    decreases |m|
  {
    if m != [] {
      var bit := Low([m[0]], 32);
      FeedIsInjectiveInTheRegister(g, Step(g, Xor(c, bit)), Step(g, Xor(d, bit)), m[1..]);
      StepIsInjective(g, Xor(c, bit), Xor(d, bit));
      XorCancels(c, bit);
      XorCancels(d, bit);
    }
  }

  /** Any burst of up to 32 consecutive bits, wherever it starts, changes the checksum. */
  lemma BurstsAreNoticed(g: Register, before: Word, x: Word, y: Word, after: Word)
    requires g[31] && |x| == |y| <= 32
    ensures CrcOver(g, before + x + after) == CrcOver(g, before + y + after) <==> x == y
  {
    if CrcOver(g, before + x + after) == CrcOver(g, before + y + after) {
      XorCancels(Feed(g, Ones(), before + x + after), Ones());
      XorCancels(Feed(g, Ones(), before + y + after), Ones());
      FeedAppends(g, Ones(), before + x, after);
      FeedAppends(g, Ones(), before + y, after);
      FeedIsInjectiveInTheRegister(g, Feed(g, Ones(), before + x), Feed(g, Ones(), before + y), after);
      FeedAppends(g, Ones(), before, x);
      FeedAppends(g, Ones(), before, y);
      ShortFeedIsInjectiveInTheMessage(g, Feed(g, Ones(), before), x, y);
    }
  }

  lemma ShortFeedIsInjectiveInTheMessage(g: Register, c: Register, x: Word, y: Word)
    requires g[31] && |x| == |y| <= 32 && Feed(g, c, x) == Feed(g, c, y)
    ensures x == y
  {
    FeedAddsUpFront(g, c, x);
    FeedAddsUpFront(g, c, y);
    StepsAreInjective(g, Xor(c, Low(x, 32)), Xor(c, Low(y, 32)), |x|);
    XorCommutes(c, Low(x, 32));
    XorCommutes(c, Low(y, 32));
    XorCancels(Low(x, 32), c);
    XorCancels(Low(y, 32), c);
    assert x == Low(x, 32)[..|x|] && y == Low(y, 32)[..|y|];
  }

  // ---------------------------------------------------------------------------
  // The scalar path, over 32-bit numbers

  function NumberStep(p: u32, crc: u32): (r: u32) {
    if crc % 2 == 1 then XorNumbers(crc / 2, p) else crc / 2
  }

  lemma NumberStepIsStep(p: u32, crc: u32)
    ensures Bits(NumberStep(p, crc), 32) == Step(Bits(p, 32), Bits(crc, 32))
  {
    ThirtyTwoBits();
    BitsOfHalf(crc, 32);
  }

  /** One byte of the outer loop: add it to the register, then eight steps. */
  lemma FeedOfByte(g: Register, crc: u32, b: byte)
    ensures Feed(g, Bits(crc, 32), Bits(b, 8)) == Steps(g, Bits(XorNumbers(crc, b), 32), 8)
  {
    ThirtyTwoBits();
    BitsOfNarrow(b, 8, 32);
    FeedAddsUpFront(g, Bits(crc, 32), Bits(b, 8));
  }

  /** `n` turns of the bit loop, dividing by the polynomial `p`. */
  method ScalarBits(p: u32, crc: u32, n: nat) returns (next: u32)
    ensures Bits(next, 32) == Steps(Bits(p, 32), Bits(crc, 32), n)
  {
    ghost var g: Register := Bits(p, 32);
    next := crc;
    for k := 0 to n
      invariant Steps(g, Bits(next, 32), n - k) == Steps(g, Bits(crc, 32), n)
    {
      NumberStepIsStep(p, next);
      next := NumberStep(p, next);
    }
  }

  lemma FeedOfNextByte(g: Register, c: Register, data: seq<byte>, i: nat)
    requires i < |data|
    ensures Feed(g, c, MessageBits(data[i..])) == Feed(g, Feed(g, c, Bits(data[i], 8)), MessageBits(data[i + 1..]))
  {
    assert data[i..][0] == data[i] && data[i..][1..] == data[i + 1..];
    FeedAppends(g, c, Bits(data[i], 8), MessageBits(data[i + 1..]));
  }

  /** The final complement. */
  lemma Complement(crc: u32)
    ensures Bits(XorNumbers(crc, ALL_ONES), 32) == Xor(Bits(crc, 32), Ones())
  {
    ThirtyTwoBits();
    OnesAreAllBits(ALL_ONES, 32);
  }

  /** The byte loop. */
  method ScalarOver(p: u32, data: seq<byte>) returns (checksum: u32)
    ensures Bits(checksum, 32) == Crc(Bits(p, 32), data)
  {
    ghost var g: Register := Bits(p, 32);
    ThirtyTwoBits();
    OnesAreAllBits(ALL_ONES, 32);
    var crc: u32 := ALL_ONES;
    assert data[0..] == data;
    for i := 0 to |data|
      invariant Feed(g, Bits(crc, 32), MessageBits(data[i..])) == Feed(g, Ones(), MessageBits(data))
    {
      FeedOfNextByte(g, Bits(crc, 32), data, i);
      FeedOfByte(g, crc, data[i]);
      crc := ScalarBits(p, XorNumbers(crc, data[i]), 8);
    }
    Complement(crc);
    checksum := XorNumbers(crc, ALL_ONES);
  }

  /** The `OQUEUE_SIMD=scalar` path: nested byte and bit loops over a 32-bit register. */
  method ScalarCrc32c(data: seq<byte>) returns (checksum: u32)
    ensures checksum == Checksum(data)
  {
    checksum := ScalarOver(POLYNOMIAL, data);
    ThirtyTwoBits();
    ValueOfBits(checksum, 32);
  }

  // ---------------------------------------------------------------------------
  // Parity

  /** A generator of odd weight keeps the register's parity, so the message's parity shows. */
  lemma {:induction false} FeedKeepsParity(g: Register, c: Register, m: Word)
    requires Odd(g)
    ensures Odd(Feed(g, c, m)) == (Odd(c) != Odd(m))
    decreases |m|
  {
    if m != [] {
      var bit := Low([m[0]], 32);
      OddAppends([m[0]], Zeros(31));
      ZerosAreEven(31);
      OddOfXor(c, bit);
      StepKeepsParity(g, Xor(c, bit));
      FeedKeepsParity(g, Step(g, Xor(c, bit)), m[1..]);
    }
  }

  lemma StepKeepsParity(g: Register, c: Register)
    requires Odd(g)
    ensures Odd(Step(g, c)) == Odd(c)
  {
    OddAppends(c[1..], [false]);
    OddOfXor(Shift(c), g);
  }

  /** Flipping an odd number of bits, wherever they are, changes the checksum. */
  lemma OddErrorsAreNoticed(g: Register, m: Word, n: Word)
    requires Odd(g) && Odd(m) != Odd(n)
    ensures CrcOver(g, m) != CrcOver(g, n)
  {
    FeedKeepsParity(g, Ones(), m);
    FeedKeepsParity(g, Ones(), n);
    OddOfXor(Feed(g, Ones(), m), Ones());
    OddOfXor(Feed(g, Ones(), n), Ones());
  }

  /** The powers of x in the Castagnoli polynomial. */
  const POWERS: set<int> := {32, 28, 27, 26, 25, 23, 22, 20, 19, 18, 14, 13, 11, 10, 9, 8, 6, 0}

  /** The four bytes of the constant, lowest bit first. */
  function PolynomialBits(): (w: Register) {
    [false, false, false, true, true, true, true, false]
    + ([true, true, false, true, true, true, false, false]
    + ([false, true, true, false, true, true, true, true]
    + [false, true, false, false, false, false, false, true]))
  }

  lemma CastagnoliWord()
    ensures Castagnoli() == PolynomialBits()
  {
    var a, b := [false, false, false, true, true, true, true, false], [true, true, false, true, true, true, false, false];
    var c, d := [false, true, true, false, true, true, true, true], [false, true, false, false, false, false, false, true];
    hide Value, Bits, Pow2;
    ValueOfEight(a);
    ValueOfEight(b);
    ValueOfEight(c);
    ValueOfEight(d);
    ThirtyTwoBits();
    ValueAppends(c, d);
    ValueAppends(b, c + d);
    ValueAppends(a, b + (c + d));
    assert Value(PolynomialBits()) == 0x78 + 0x100 * (0x3B + 0x100 * (0xF6 + 0x100 * 0x82)) == POLYNOMIAL;
    BitsOfValue(PolynomialBits());
  }

  /** The generator is the polynomial section 12.1 of RFC 3720 prescribes. */
  lemma CastagnoliPowers()
    ensures forall k | 0 <= k <= 32 :: Generator(Castagnoli())[32 - k] <==> k in POWERS
  {
    CastagnoliWord();
    hide Castagnoli, PolynomialBits, Generator;
    forall k | 0 <= k <= 32 ensures Generator(Castagnoli())[32 - k] <==> k in POWERS {
      if k < 32 {
        assert Generator(Castagnoli())[1..][31 - k] == PolynomialBits()[31 - k];
        PowerAt(k);
      }
    }
  }

  lemma PowerAt(k: nat)
    requires k < 32
    ensures PolynomialBits()[31 - k] <==> k in POWERS
  {}

  /** The generator's top bit is set and its weight is odd. */
  lemma CastagnoliBits()
    ensures Castagnoli()[31] && Odd(Castagnoli())
  {
    CastagnoliWord();
    var a, b := [false, false, false, true, true, true, true, false], [true, true, false, true, true, true, false, false];
    var c, d := [false, true, true, false, true, true, true, true], [false, true, false, false, false, false, false, true];
    hide Odd, Castagnoli;
    OddOfEight(a);
    OddOfEight(b);
    OddOfEight(c);
    OddOfEight(d);
    OddAppends(c, d);
    OddAppends(b, c + d);
    OddAppends(a, b + (c + d));
  }
}
