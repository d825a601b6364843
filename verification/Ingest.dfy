/**
 What the broker decides about the bytes of a produce before anything is stored: the header, the
 declared span, the checksum, the codec, the record count and the producer, in that order, each with
 the error code it is refused by.
 */
module Ingest {
  import opened Bytes
  import opened BitWords
  import opened Crc32c
  import opened RecordBatch
  import Varint

  const CORRUPT_MESSAGE: i16 := 2
  const UNSUPPORTED_FOR_MESSAGE_FORMAT: i16 := 43
  const UNSUPPORTED_COMPRESSION_TYPE: i16 := 76
  const INVALID_RECORD: i16 := 87

  const MIN_RECORD_BODY_LEN: nat := 6

  datatype ProducerIdentity = ProducerIdentity(id: i64, epoch: i16, baseSequence: i32)

  datatype Verified = Verified(records: nat, producer: Option<ProducerIdentity>)

  // ---------------------------------------------------------------------------
  // Counting the records

  function Unzigzag(raw: u32): (v: i32) {
    if raw % 2 == 0 then raw / 2 else -(raw / 2) - 1
  }

  /**
   The records from `pos` to the end of the array, by their length prefixes alone. No record is
   shorter than seven bytes with its prefix, so a claim of offsets costs at least that.
   */
  function CountFrom(records: seq<byte>, pos: nat): (r: Result<nat, Varint.DecodeError>)
    requires pos <= |records|
    ensures r.Ok? ==> 7 * r.value <= |records| - pos
    decreases |records| - pos
  {
    if pos == |records| then Ok(0)
    else
      var raw :- Varint.DecodeVarint(records, pos);
      var length := Unzigzag(raw.0);
      if length < 0 then Err(Varint.LengthOutOfBounds)
      else if length < MIN_RECORD_BODY_LEN then Err(Varint.RecordTooShort)
      else if length > |records| - raw.1 then Err(Varint.UnexpectedEof)
      else
        var others :- CountFrom(records, raw.1 + length);
        Ok(1 + others)
  }

  function CountRecords(records: seq<byte>): (r: Result<u32, Varint.DecodeError>)
  {
    var counted :- CountFrom(records, 0);
    if counted > MAX_U32 then Err(Varint.LengthOutOfBounds) else Ok(counted)
  }

  /** What is left to count once `counted` records have been walked. */
  function Onward(counted: nat, r: Result<nat, Varint.DecodeError>): Result<nat, Varint.DecodeError> {
    match r
    case Err(e) => Err(e)
    case Ok(n) => Ok(counted + n)
  }

  /** The walk itself: a length read, that many bytes skipped, until nothing remains. */
  method WalkRecords(records: seq<byte>) returns (r: Result<u32, Varint.DecodeError>)
    ensures r == CountRecords(records)
  {
    hide Varint.DecodeVarint;
    var cur := new Varint.Cursor(records);
    var counted := 0;
    while |records| - cur.pos > 0
      invariant cur.Valid() && cur.buf == records
      invariant CountFrom(records, 0) == Onward(counted, CountFrom(records, cur.pos))
      decreases |records| - cur.pos
    {
      var raw := cur.ReadUnsignedVarint();
      if raw.Err? {
        return Err(raw.error);
      }
      var length := Unzigzag(raw.value);
      if length < 0 {
        return Err(Varint.LengthOutOfBounds);
      }
      if length < MIN_RECORD_BODY_LEN {
        return Err(Varint.RecordTooShort);
      }
      var body := cur.Take(length);
      if body.Err? {
        return Err(body.error);
      }
      counted := counted + 1;
    }
    if counted > MAX_U32 {
      return Err(Varint.LengthOutOfBounds);
    }
    r := Ok(counted);
  }

  /** Records as a producer writes them: twice the body's length, which is that length zigzagged, and the body. */
  function EncodeRecords(bodies: seq<seq<byte>>): seq<byte>
    requires Encodable(bodies)
  {
    if bodies == [] then []
    else Varint.EncodeVarint(2 * |bodies[0]|) + (bodies[0] + EncodeRecords(bodies[1..]))
  }

  /** Every length fits the signed varint it is written as. */
  predicate Encodable(bodies: seq<seq<byte>>) {
    forall b | b in bodies :: |b| <= MAX_I32
  }

  /** Every body is long enough to be a record: attributes, two deltas and three counts of a byte each. */
  predicate WellFormed(bodies: seq<seq<byte>>) {
    forall b | b in bodies :: |b| >= 6
  }

  lemma FirstRecord(buf: seq<byte>, pos: nat, bodies: seq<seq<byte>>)
    requires bodies != [] && Encodable(bodies) && Varint.At(buf, pos, EncodeRecords(bodies))
    ensures var mid := pos + |Varint.EncodeVarint(2 * |bodies[0]|)|;
      && Varint.DecodeVarint(buf, pos) == Ok((2 * |bodies[0]|, mid))
      && Varint.At(buf, mid + |bodies[0]|, EncodeRecords(bodies[1..]))
      && |EncodeRecords(bodies)| == mid - pos + |bodies[0]| + |EncodeRecords(bodies[1..])|
  {
    hide Varint.EncodeVarint, Varint.DecodeVarint, Varint.At, EncodeRecords;
    RecordsUnfold(bodies);
    var length, body, tail := Varint.EncodeVarint(2 * |bodies[0]|), bodies[0], EncodeRecords(bodies[1..]);
    Varint.AtSplits(buf, pos, length, body + tail);
    Varint.AtSplits(buf, pos + |length|, body, tail);
    Varint.VarintRoundTrip(buf, pos, 2 * |bodies[0]|);
  }

  lemma RecordsUnfold(bodies: seq<seq<byte>>)
    requires bodies != [] && Encodable(bodies)
    ensures EncodeRecords(bodies) == Varint.EncodeVarint(2 * |bodies[0]|) + (bodies[0] + EncodeRecords(bodies[1..]))
  {}

  /** The walk finds every record a producer wrote, and nothing else; one too short to be a record ends it. */
  lemma {:induction false} CountOfRecords(buf: seq<byte>, pos: nat, bodies: seq<seq<byte>>)
    requires Encodable(bodies) && Varint.At(buf, pos, EncodeRecords(bodies))
    requires pos + |EncodeRecords(bodies)| == |buf|
    ensures CountFrom(buf, pos) == if WellFormed(bodies) then Ok(|bodies|) else Err(Varint.RecordTooShort)
    decreases |bodies|
  {
    hide EncodeRecords, CountFrom, Varint.EncodeVarint, Varint.DecodeVarint;
    if bodies == [] {
      NoRecords(buf);
    } else {
      FirstRecord(buf, pos, bodies);
      var mid := pos + |Varint.EncodeVarint(2 * |bodies[0]|)|;
      CountOfRecords(buf, mid + |bodies[0]|, bodies[1..]);
      OneRecordMore(buf, pos, mid, |bodies[0]|);
      assert bodies == [bodies[0]] + bodies[1..];
    }
  }

  lemma NoRecords(buf: seq<byte>)
    ensures EncodeRecords([]) == [] && CountFrom(buf, |buf|) == Ok(0)
  {}

  /** One record of the walk: too short to be one, cut off, or one more than what follows it. */
  lemma OneRecordMore(buf: seq<byte>, pos: nat, mid: nat, length: nat)
    requires pos < |buf| && length <= MAX_I32
    requires Varint.DecodeVarint(buf, pos) == Ok((2 * length, mid))
    ensures CountFrom(buf, pos) ==
      if length < 6 then Err(Varint.RecordTooShort)
      else if mid + length > |buf| then Err(Varint.UnexpectedEof)
      else Onward(1, CountFrom(buf, mid + length))
  {
    hide Varint.DecodeVarint;
  }

  // ---------------------------------------------------------------------------
  // The verdict

  /** `attributes & 0b111`: zero is no compression. */
  function CompressionBits(attributes: i16): nat {
    attributes % 8
  }

  /** An id of -1 is an ordinary produce, whatever its epoch and sequence say. */
  function IdentityOf(header: BatchHeader): Result<Option<ProducerIdentity>, ()> {
    if header.producerId == -1 then Ok(None)
    else if header.producerId < 0 || header.producerEpoch < 0 then Err(())
    else Ok(Some(ProducerIdentity(header.producerId, header.producerEpoch, header.baseSequence)))
  }

  predicate ChecksumHolds(batch: seq<byte>) {
    var coverage, stored := CrcCoverage(batch), StoredCrc(batch);
    coverage.Ok? && stored.Ok? && Checksum(coverage.value) == stored.value
  }

  function Verify(batch: seq<byte>): (r: Result<Verified, i16>)
    ensures r.Ok? ==> r.value.records >= 1
  {
    match DecodeBatchHeader(batch)
    case Err(WrongMagic(_)) => Err(UNSUPPORTED_FOR_MESSAGE_FORMAT)
    case Err(_) => Err(CORRUPT_MESSAGE)
    case Ok(header) =>
      if header.batchLength < 0 || header.batchLength + 12 != |batch| then Err(INVALID_RECORD)
      else if !ChecksumHolds(batch) then Err(CORRUPT_MESSAGE)
      else JudgeRecords(header, batch[BATCH_HEADER_LEN..])
  }

  /** What is judged once the checksum has vouched for the bytes. */
  function JudgeRecords(header: BatchHeader, records: seq<byte>): (r: Result<Verified, i16>)
    ensures r.Ok? ==> r.value.records >= 1
  {
    if CompressionBits(header.attributes) != 0 then Err(UNSUPPORTED_COMPRESSION_TYPE)
    else match CountRecords(records)
      case Err(_) => Err(INVALID_RECORD)
      case Ok(counted) =>
        if counted == 0 then Err(INVALID_RECORD)
        else if header.recordCount != counted || header.lastOffsetDelta != counted - 1 then Err(INVALID_RECORD)
        else match IdentityOf(header)
          case Err(_) => Err(INVALID_RECORD)
          case Ok(producer) => Ok(Verified(counted, producer))
  }

  // ---------------------------------------------------------------------------
  // A batch sealed by an honest producer

  /** `header` over these records, with the length and the checksum a producer would fill in. */
  function Sealed(header: BatchHeader, bodies: seq<seq<byte>>): seq<byte>
    requires Encodable(bodies) && 49 + |EncodeRecords(bodies)| <= MAX_I32
  {
    EncodeBatchHeader(SealedHeader(header, bodies)) + EncodeRecords(bodies)
  }

  function SealedHeader(header: BatchHeader, bodies: seq<seq<byte>>): BatchHeader
    requires Encodable(bodies) && 49 + |EncodeRecords(bodies)| <= MAX_I32
  {
    var records := EncodeRecords(bodies);
    var sized := header.(batchLength := 49 + |records|);
    sized.(crc := Checksum(EncodeCovered(sized) + records))
  }

  /** The header's two claims are what the walk finds, and it finds something. */
  predicate ClaimsHold(header: BatchHeader, bodies: seq<seq<byte>>) {
    && WellFormed(bodies) && bodies != []
    && header.recordCount == |bodies| && header.lastOffsetDelta == |bodies| - 1
  }

  /** The attributes as the sixteen bits on the wire, lowest first. */
  function AttributeBits(attributes: i16): (w: Word)
    ensures |w| == 16
  {
    Bits(if attributes >= 0 then attributes else attributes + 0x1_0000, 16)
  }

  /** The codec id is the number the three low bits make, 0 to 7. */
  lemma LowThreeBits(attributes: i16)
    ensures CompressionBits(attributes) == Value(AttributeBits(attributes)[..3]) <= 7
    ensures CompressionBits(attributes) == 0 <==> true !in AttributeBits(attributes)[..3]
  {
    var raw := if attributes >= 0 then attributes else attributes + 0x1_0000;
    assert raw % 8 == attributes % 8;
    hide Bits, Value;
    LowBitsOf(raw, 16);
    EighthsByBit(raw);
    var a, b, c := raw % 2 == 1, raw / 2 % 2 == 1, raw / 4 % 2 == 1;
    ValueOfThree(a, b, c);
    assert true in [a, b, c] <==> a || b || c;
  }

  lemma LowBitsOf(v: nat, n: nat)
    requires n >= 3
    ensures Bits(v, n)[..3] == [v % 2 == 1, v / 2 % 2 == 1, v / 4 % 2 == 1]
  {
    var half, quarter := v / 2, v / 4;
    assert half / 2 == quarter;
    assert Bits(v, n) == [v % 2 == 1] + Bits(half, n - 1);
    assert Bits(half, n - 1) == [half % 2 == 1] + Bits(quarter, n - 2);
    assert Bits(quarter, n - 2) == [quarter % 2 == 1] + Bits(quarter / 2, n - 3);
  }

  lemma EighthsByBit(v: nat)
    ensures v % 8 == v % 2 + 2 * (v / 2 % 2) + 4 * (v / 4 % 2)
  {
    var k, r := v / 8, v % 8;
    var half, quarter := 4 * k + r / 2, 2 * k + r / 4;
    Halved(v, 4 * k, r);
    Halved(half, 2 * k, r / 2);
    Halved(quarter, k, r / 4);
    BelowEight(r);
  }

  lemma BelowEight(r: nat)
    requires r < 8
    ensures r == r % 2 + 2 * (r / 2 % 2) + 4 * (r / 4 % 2) && r / 2 / 2 == r / 4
  {}

  lemma Halved(v: nat, h: nat, r: nat)
    requires v == 2 * h + r
    ensures v / 2 == h + r / 2 && v % 2 == r % 2 && v / 2 / 2 == v / 4
  {}

  lemma ValueOfThree(a: bool, b: bool, c: bool)
    ensures Value([a, b, c]) == (if a then 1 else 0) + (if b then 2 else 0) + if c then 4 else 0
  {
    assert [c][1..] == [] && Value([c]) == if c then 1 else 0;
    assert [b, c][1..] == [c] && Value([b, c]) == (if b then 1 else 0) + 2 * Value([c]);
    assert [a, b, c][1..] == [b, c];
  }

  /**
   Whatever a producer seals, with whatever claims, is judged on its codec, its claims and its
   identity, in that order: any of the three codec bits is one refusal, claims the records do not bear
   out another. An id of -1 is an ordinary produce whatever its epoch and sequence; an id and an epoch
   of 0 and up are the producer's, with its sequence; anything else is refused.
   */
  lemma {:induction false} SealedBatchIsJudgedOnItsMerits(header: BatchHeader, bodies: seq<seq<byte>>)
    requires Encodable(bodies) && 49 + |EncodeRecords(bodies)| <= MAX_I32
    ensures Verify(Sealed(header, bodies)) ==
      if true in AttributeBits(header.attributes)[..3] then Err(76)
      else if !ClaimsHold(header, bodies) then Err(87)
      else if header.producerId == -1 then Ok(Verified(|bodies|, None))
      else if header.producerId >= 0 && header.producerEpoch >= 0
      then Ok(Verified(|bodies|, Some(ProducerIdentity(header.producerId, header.producerEpoch, header.baseSequence))))
      else Err(87)
  {
    LowThreeBits(header.attributes);
    hide AttributeBits, Bits, Checksum, EncodeRecords, EncodeBatchHeader, EncodeCovered, CountRecords, ChecksumHolds, DecodeBatchHeader;
    var records, h, batch := EncodeRecords(bodies), SealedHeader(header, bodies), Sealed(header, bodies);
    CoverIgnoresTheChecksum(h, header.(batchLength := h.batchLength));
    SealedChecksumHolds(h, records);
    assert batch[61..] == records;
    CountOfSealed(bodies);
    assert JudgeRecords(h, records) == Verify(batch);
  }

  lemma CoverIgnoresTheChecksum(a: BatchHeader, b: BatchHeader)
    requires a == b.(crc := a.crc)
    ensures EncodeCovered(a) == EncodeCovered(b)
  {}

  lemma CountOfSealed(bodies: seq<seq<byte>>)
    requires Encodable(bodies) && |EncodeRecords(bodies)| <= MAX_I32
    ensures CountRecords(EncodeRecords(bodies)) == if WellFormed(bodies) then Ok(|bodies|) else Err(Varint.RecordTooShort)
  {
    hide EncodeRecords, CountFrom;
    CountOfRecords(EncodeRecords(bodies), 0, bodies);
  }

  lemma SealedChecksumHolds(h: BatchHeader, records: seq<byte>)
    requires h.batchLength == 49 + |records| && h.crc == Checksum(EncodeCovered(h) + records)
    ensures var batch := EncodeBatchHeader(h) + records;
      DecodeBatchHeader(batch) == Ok(h) && |batch| == h.batchLength + 12 && ChecksumHolds(batch)
  {
    hide Checksum, EncodeCovered, EncodePrefix;
    var batch := EncodeBatchHeader(h) + records;
    HeaderRoundTrip(h, records);
    assert batch[21..61 + |records|] == EncodeCovered(h) + records;
  }

  // ---------------------------------------------------------------------------
  // Exactly one batch, whole, of this format

  /** Nothing may follow an accepted batch: a second batch or trailing bytes are refused, not stored. */
  lemma {:induction false} NothingMayFollow(batch: seq<byte>, more: seq<byte>)
    requires Verify(batch).Ok? && more != []
    ensures Verify(batch + more) == Err(87)
  {
    hide Checksum, CountRecords, GetI16, GetI32, GetI64, GetU32;
    SameFront(batch, batch + more);
  }

  /** Nor may its end be missing: every proper prefix is refused. */
  lemma {:induction false} NothingMayBeMissing(batch: seq<byte>, k: nat)
    requires Verify(batch).Ok? && k < |batch|
    ensures Verify(batch[..k]) == Err(if k >= 61 then 87 else 2)
  {
    hide Checksum, CountRecords;
    if k >= BATCH_HEADER_LEN {
      SameFront(batch[..k], batch);
    }
  }

  lemma SameFront(a: seq<byte>, b: seq<byte>)
    requires BATCH_HEADER_LEN <= |a| <= |b| && a == b[..|a|]
    ensures HeaderFields(a) == HeaderFields(b) && a[16] == b[16]
  {
    hide GetI16, GetI32, GetI64, GetU32;
    forall i, j | 0 <= i <= j <= |a| ensures a[i..j] == b[i..j] {
      FrontSlice(a, b, i, j);
    }
  }

  lemma FrontSlice(a: seq<byte>, b: seq<byte>, i: nat, j: nat)
    requires i <= j <= |a| <= |b| && a == b[..|a|]
    ensures a[i..j] == b[i..j]
  {
    var x, y := a[i..j], b[i..j];
    assert forall k | 0 <= k < j - i :: x[k] == a[i + k] == y[k];
  }

  // ---------------------------------------------------------------------------
  // Assigning offsets does not disturb the verdict

  /** For every blob, offset and epoch: assigned or not, the blob is judged the same. */
  lemma {:induction false} RewriteKeepsTheVerdict(batch: seq<byte>, baseOffset: i64, epoch: i32)
    ensures Verify(Rewritten(batch, baseOffset, epoch)) == Verify(batch)
  {
    if DecodeBatchHeader(batch).Ok? {
      var r := Rewritten(batch, baseOffset, epoch);
      RewriteTouchesTwoFields(batch, baseOffset, epoch);
      SameFromTheMagicOn(batch, r);
    }
  }

  lemma SameFromTheMagicOn(a: seq<byte>, b: seq<byte>)
    requires DecodeBatchHeader(a).Ok? && |a| == |b| && a[8..12] == b[8..12] && a[16..] == b[16..]
    ensures Verify(a) == Verify(b)
  {
    hide Checksum, JudgeRecords, CrcCoverage, StoredCrc;
    CoverageAgrees(a, b);
    JudgedAlike(a, b);
  }

  lemma CoverageAgrees(a: seq<byte>, b: seq<byte>)
    requires DecodeBatchHeader(a).Ok? && |a| == |b| && a[8..12] == b[8..12] && a[16..] == b[16..]
    ensures CrcCoverage(a) == CrcCoverage(b) && StoredCrc(a) == StoredCrc(b)
    ensures DecodeBatchHeader(b).Ok? && HeaderFields(a).batchLength == HeaderFields(b).batchLength
  {
    hide GetI16, GetI32, GetI64, GetU32;
    TailFieldsAgree(a, b);
    var end := HeaderFields(a).batchLength + 12;
    if 21 <= end <= |a| {
      assert a[21..end] == a[21..][..end - 21] && b[21..end] == b[21..][..end - 21];
    }
  }

  lemma JudgedAlike(a: seq<byte>, b: seq<byte>)
    requires |a| == |b| >= BATCH_HEADER_LEN && a[16..] == b[16..]
    ensures JudgeRecords(HeaderFields(a), a[61..]) == JudgeRecords(HeaderFields(b), b[61..])
  {
    hide CountRecords;
    TailFieldsAgree(a, b);
    assert a[61..] == a[16..][45..] && b[61..] == b[16..][45..];
  }

  // ---------------------------------------------------------------------------
  // What the checksum notices

  /** A blob that keeps its length, span and format is refused as corrupt when its checksum is wrong. */
  lemma ChecksumDecides(batch: seq<byte>, changed: seq<byte>)
    requires Verify(batch).Ok? && |changed| == |batch| && changed[8..12] == batch[8..12] && changed[16] == batch[16]
    requires Checksum(changed[21..]) != GetU32(changed[17..21])
    ensures Verify(changed) == Err(CORRUPT_MESSAGE)
  {
    hide Checksum, CountRecords;
    assert CrcCoverage(changed).Ok? ==> CrcCoverage(changed).value == changed[21..];
  }

  lemma AcceptedChecksum(batch: seq<byte>)
    requires Verify(batch).Ok?
    ensures |batch| >= BATCH_HEADER_LEN && Checksum(batch[21..]) == GetU32(batch[17..21])
  {
    hide Checksum, CountRecords;
    assert CrcCoverage(batch).value == batch[21..];
  }

  lemma ChecksumIsTheRegister(a: seq<byte>, b: seq<byte>)
    ensures Checksum(a) == Checksum(b) <==> CrcOver(Castagnoli(), MessageBits(a)) == CrcOver(Castagnoli(), MessageBits(b))
  {
    hide Castagnoli, MessageBits, CrcOver;
    BitsOfValue(Crc(Castagnoli(), a));
    BitsOfValue(Crc(Castagnoli(), b));
  }

  lemma {:induction false} MessageBitsAreInjective(a: seq<byte>, b: seq<byte>)
    requires |a| == |b| && MessageBits(a) == MessageBits(b)
    ensures a == b
  {
    if a != [] {
      var x, y := MessageBits(a), MessageBits(b);
      assert x[..8] == Bits(a[0], 8) && y[..8] == Bits(b[0], 8);
      assert x[8..] == MessageBits(a[1..]) && y[8..] == MessageBits(b[1..]);
      ThirtyTwoBits();
      ValueOfBits(a[0], 8);
      ValueOfBits(b[0], 8);
      MessageBitsAreInjective(a[1..], b[1..]);
      assert a == [a[0]] + a[1..] && b == [b[0]] + b[1..];
    }
  }

  /** Two words that differ, if at all, within `n` bits from `k` on. */
  predicate Burst(a: Word, b: Word, k: nat, n: nat) {
    |a| == |b| && k + n <= |a| && a[..k] == b[..k] && a[k + n..] == b[k + n..]
  }

  lemma BurstsChangeTheChecksum(a: seq<byte>, b: seq<byte>, k: nat, n: nat)
    requires a != b && |a| == |b| && n <= 32 && Burst(MessageBits(a), MessageBits(b), k, n)
    ensures Checksum(a) != Checksum(b)
  {
    hide Castagnoli, MessageBits, CrcOver, Checksum;
    var x, y := MessageBits(a), MessageBits(b);
    if x == y {
      MessageBitsAreInjective(a, b);
    } else {
      CastagnoliBits();
      BurstChangesTheRegister(Castagnoli(), x, y, k, n);
      ChecksumIsTheRegister(a, b);
    }
  }

  lemma BurstChangesTheRegister(g: Register, x: Word, y: Word, k: nat, n: nat)
    requires g[31] && n <= 32 && Burst(x, y, k, n) && x != y
    ensures CrcOver(g, x) != CrcOver(g, y)
  {
    hide CrcOver;
    var before, after := x[..k], x[k + n..];
    assert x == before + x[k..k + n] + after;
    assert y == before + y[k..k + n] + after;
    BurstsAreNoticed(g, before, x[k..k + n], y[k..k + n], after);
  }

  /**
   Once a batch is accepted, any change within 32 consecutive bits of the covered region makes
   it corrupt, wherever those bits start.
   */
  lemma {:induction false} BurstIsRefused(batch: seq<byte>, changed: seq<byte>, k: nat, n: nat)
    requires Verify(batch).Ok? && |changed| == |batch| && changed != batch && changed[..21] == batch[..21]
    requires n <= 32 && Burst(MessageBits(batch[21..]), MessageBits(changed[21..]), k, n)
    ensures Verify(changed) == Err(CORRUPT_MESSAGE)
  {
    hide Checksum, MessageBits, Verify;
    AcceptedChecksum(batch);
    SamePrefix(batch, changed);
    assert changed[21..] != batch[21..] by {
      assert batch == batch[..21] + batch[21..] && changed == changed[..21] + changed[21..];
    }
    BurstsChangeTheChecksum(batch[21..], changed[21..], k, n);
    ChecksumDecides(batch, changed);
  }

  lemma SamePrefix(a: seq<byte>, b: seq<byte>)
    requires |a| == |b| >= 21 && a[..21] == b[..21]
    ensures a[8..12] == b[8..12] && a[16] == b[16] && a[17..21] == b[17..21]
  {
    assert a[8..12] == a[..21][8..12] && b[8..12] == b[..21][8..12];
    assert a[17..21] == a[..21][17..21] && b[17..21] == b[..21][17..21];
    assert a[16] == a[..21][16] && b[16] == b[..21][16];
  }

  /** The same in bytes: any change confined to four consecutive covered bytes. */
  lemma {:induction false} FourByteChangeIsRefused(batch: seq<byte>, changed: seq<byte>, at: nat)
    requires Verify(batch).Ok? && |changed| == |batch| && changed != batch && 21 <= at <= at + 4 <= |batch|
    requires changed[..at] == batch[..at] && changed[at + 4..] == batch[at + 4..]
    ensures Verify(changed) == Err(CORRUPT_MESSAGE)
  {
    hide Checksum, MessageBits, Verify;
    var before, after := batch[21..at], batch[at + 4..];
    var x, y := batch[at..at + 4], changed[at..at + 4];
    assert changed[21..at] == changed[..at][21..] && before == batch[..at][21..];
    assert batch[21..] == before + (x + after) && changed[21..] == before + (y + after);
    BurstOfBytes(before, x, y, after);
    assert changed[..21] == changed[..at][..21] && batch[..21] == batch[..at][..21];
    BurstIsRefused(batch, changed, 8 * |before|, 32);
  }

  lemma BurstOfBytes(before: seq<byte>, x: seq<byte>, y: seq<byte>, after: seq<byte>)
    requires |x| == |y| == 4
    ensures Burst(MessageBits(before + (x + after)), MessageBits(before + (y + after)), 8 * |before|, 32)
  {
    hide MessageBits, Burst;
    MessageBitsAppend(before, x + after);
    MessageBitsAppend(x, after);
    MessageBitsAppend(before, y + after);
    MessageBitsAppend(y, after);
    BurstOfWords(MessageBits(before), MessageBits(x), MessageBits(y), MessageBits(after));
  }

  lemma BurstOfWords(before: Word, x: Word, y: Word, after: Word)
    requires |x| == |y|
    ensures Burst(before + (x + after), before + (y + after), |before|, |x|)
  {
    var a, b := before + (x + after), before + (y + after);
    assert a[..|before|] == before == b[..|before|];
    assert a[|before| + |x|..] == after == b[|before| + |x|..];
  }

  /** A change confined to the stored checksum itself. */
  lemma {:induction false} ChecksumFieldChangeIsRefused(batch: seq<byte>, changed: seq<byte>)
    requires Verify(batch).Ok? && |changed| == |batch| && changed != batch
    requires changed[..17] == batch[..17] && changed[21..] == batch[21..]
    ensures Verify(changed) == Err(CORRUPT_MESSAGE)
  {
    hide Checksum, Verify, GetU32;
    AcceptedChecksum(batch);
    assert changed[8..12] == changed[..17][8..12] && batch[8..12] == batch[..17][8..12];
    assert changed[16] == changed[..17][16] && batch[16] == batch[..17][16];
    assert batch[17..21] != changed[17..21] by {
      assert batch == batch[..17] + batch[17..21] + batch[21..];
      assert changed == changed[..17] + changed[17..21] + changed[21..];
    }
    U32sDiffer(batch[17..21], changed[17..21]);
    ChecksumDecides(batch, changed);
  }

  lemma U32sDiffer(a: seq<byte>, b: seq<byte>)
    requires |a| == |b| == 4 && a != b
    ensures GetU32(a) != GetU32(b)
  {
    if GetU32(a) == GetU32(b) {
      U32IsInjective(a, b);
    }
  }

  lemma LengthChangeIsRefused(batch: seq<byte>, changed: seq<byte>)
    requires Verify(batch).Ok? && |changed| == |batch| && changed[16] == batch[16] && changed[8..12] != batch[8..12]
    ensures Verify(changed) == Err(INVALID_RECORD)
  {
    hide Checksum, JudgeRecords, GetI16, GetI32, GetI64, GetU32;
    PutGetI32(batch[8..12]);
    PutGetI32(changed[8..12]);
  }

  /**
   Every byte of an accepted batch is accounted for: change any one of them, and the verdict stands if
   the byte is one the broker assigns, and otherwise the refusal says which part of the batch it was in.
   */
  lemma {:induction false} OneByteChanged(batch: seq<byte>, i: nat, v: byte)
    requires Verify(batch).Ok? && i < |batch| && v != batch[i]
    ensures Verify(batch[i := v]) ==
      if i < 8 || 12 <= i < 16 then Verify(batch)
      else if i < 12 then Err(87)
      else if i == 16 then Err(43)
      else Err(2)
  {
    hide Verify, Checksum;
    AcceptedChecksum(batch);
    AcceptedDecodes(batch);
    var changed := batch[i := v];
    assert changed != batch;
    if i < 8 || 12 <= i < 16 {
      assert changed[8..12] == batch[8..12] && changed[16..] == batch[16..];
      SameFromTheMagicOn(batch, changed);
    } else if i < 12 {
      assert changed[8..12][i - 8] == v && batch[8..12][i - 8] == batch[i];
      LengthChangeIsRefused(batch, changed);
    } else if i == 16 {
      OtherFormatsAreNamed(changed);
    } else {
      if i < 21 {
        assert changed[..17] == batch[..17] && changed[21..] == batch[21..];
        ChecksumFieldChangeIsRefused(batch, changed);
      } else {
        var at := if i + 4 <= |batch| then i else |batch| - 4;
        assert changed[..at] == batch[..at] && changed[at + 4..] == batch[at + 4..];
        FourByteChangeIsRefused(batch, changed, at);
      }
    }
  }

  /** The format is settled first: any other magic is refused by naming it, whatever the other bytes say. */
  lemma OtherFormatsAreNamed(batch: seq<byte>)
    requires |batch| >= 17 && batch[16] != 2
    ensures Verify(batch) == Err(UNSUPPORTED_FOR_MESSAGE_FORMAT)
  {}

  lemma AcceptedDecodes(batch: seq<byte>)
    requires Verify(batch).Ok?
    ensures DecodeBatchHeader(batch).Ok? && batch[16] == 2
  {}

  /** An id with the -1 epoch a client without an epoch would send is refused, however good the rest. */
  lemma EpochSentinelIsRefused(header: BatchHeader, bodies: seq<seq<byte>>)
    requires Encodable(bodies) && 49 + |EncodeRecords(bodies)| <= MAX_I32
    requires true !in AttributeBits(header.attributes)[..3] && ClaimsHold(header, bodies)
    requires header.producerId >= 0 && header.producerEpoch == -1
    ensures Verify(Sealed(header, bodies)) == Err(INVALID_RECORD)
    ensures Verify(Sealed(header.(producerEpoch := 0), bodies))
         == Ok(Verified(|bodies|, Some(ProducerIdentity(header.producerId, 0, header.baseSequence))))
  {
    hide Verify, Sealed, EncodeRecords;
    SealedBatchIsJudgedOnItsMerits(header, bodies);
    SealedBatchIsJudgedOnItsMerits(header.(producerEpoch := 0), bodies);
  }

  /** Any odd number of flipped bits in the covered region, however far apart. */
  lemma {:induction false} OddErrorIsRefused(batch: seq<byte>, changed: seq<byte>)
    requires Verify(batch).Ok? && |changed| == |batch| && changed[..21] == batch[..21]
    requires Odd(Xor(MessageBits(batch[21..]), MessageBits(changed[21..])))
    ensures Verify(changed) == Err(CORRUPT_MESSAGE)
  {
    hide Checksum, MessageBits, Verify, Castagnoli, CrcOver;
    AcceptedChecksum(batch);
    SamePrefix(batch, changed);
    OddOfXor(MessageBits(batch[21..]), MessageBits(changed[21..]));
    CastagnoliBits();
    OddErrorsAreNoticed(Castagnoli(), MessageBits(batch[21..]), MessageBits(changed[21..]));
    ChecksumIsTheRegister(batch[21..], changed[21..]);
    ChecksumDecides(batch, changed);
  }
}
