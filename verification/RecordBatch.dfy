/**
 The `RecordBatch` v2 header: its 61 fixed bytes, what the checksum covers, and the in-place
 offset assignment that stays outside that coverage.
 */
module RecordBatch {
  import opened Bytes

  const BATCH_HEADER_LEN: nat := 61
  const CRC_COVERAGE_START: nat := 21
  const MAGIC_V2: int := 2

  datatype BatchError = Truncated | LengthOutOfBounds | WrongMagic(magic: int)

  datatype BatchHeader = BatchHeader(
    baseOffset: i64,
    batchLength: i32,
    partitionLeaderEpoch: i32,
    crc: u32,
    attributes: i16,
    lastOffsetDelta: i32,
    baseTimestamp: i64,
    maxTimestamp: i64,
    producerId: i64,
    producerEpoch: i16,
    baseSequence: i32,
    recordCount: i32)

  /** The magic byte, read as the signed byte it is on the wire. */
  function MagicOf(b: byte): (magic: int)
    ensures magic == ReadSigned([b])
  {
    assert ReadBe([b]) == b && HalfRange(1) == 128;
    if b < 128 then b else b - 256
  }

  // ---------------------------------------------------------------------------
  // Decode and encode

  /** The format is settled at byte 16, before any later field is interpreted. */
  function DecodeBatchHeader(batch: seq<byte>): (r: Result<BatchHeader, BatchError>)
    ensures r.Ok? <==> |batch| >= BATCH_HEADER_LEN && batch[16] == 2
    ensures r.Err? ==>
      r.error == if |batch| >= 17 && batch[16] != 2 then WrongMagic(ReadSigned([batch[16]])) else Truncated
  {
    if |batch| < 17 then Err(Truncated)
    else if MagicOf(batch[16]) != MAGIC_V2 then Err(WrongMagic(MagicOf(batch[16])))
    else if |batch| < BATCH_HEADER_LEN then Err(Truncated)
    else Ok(HeaderFields(batch))
  }

  function HeaderFields(batch: seq<byte>): BatchHeader
    requires |batch| >= BATCH_HEADER_LEN
  {
    BatchHeader(
      GetI64(batch[0..8]), GetI32(batch[8..12]), GetI32(batch[12..16]), GetU32(batch[17..21]),
      GetI16(batch[21..23]), GetI32(batch[23..27]), GetI64(batch[27..35]), GetI64(batch[35..43]),
      GetI64(batch[43..51]), GetI16(batch[51..53]), GetI32(batch[53..57]), GetI32(batch[57..61]))
  }

  function EncodeBatchHeader(h: BatchHeader): (s: seq<byte>)
    ensures |s| == BATCH_HEADER_LEN
  {
    EncodePrefix(h) + EncodeCovered(h)
  }

  /** Bytes 0 to 20: everything up to and including the stored checksum. */
  function EncodePrefix(h: BatchHeader): (s: seq<byte>)
    ensures |s| == CRC_COVERAGE_START
  {
    PutI64(h.baseOffset) + PutI32(h.batchLength) + PutI32(h.partitionLeaderEpoch) + [MAGIC_V2] + PutU32(h.crc)
  }

  /** Bytes 21 to 60: the fixed fields the checksum covers. */
  function EncodeCovered(h: BatchHeader): (s: seq<byte>)
    ensures |s| == BATCH_HEADER_LEN - CRC_COVERAGE_START
  {
    PutI16(h.attributes) + PutI32(h.lastOffsetDelta) + PutI64(h.baseTimestamp) + PutI64(h.maxTimestamp)
    + PutI64(h.producerId) + PutI16(h.producerEpoch) + PutI32(h.baseSequence) + PutI32(h.recordCount)
  }

  lemma PrefixFields(h: BatchHeader)
    ensures var s := EncodePrefix(h);
      && s[0..8] == PutI64(h.baseOffset) && s[8..12] == PutI32(h.batchLength)
      && s[12..16] == PutI32(h.partitionLeaderEpoch) && s[16] == 2 && s[17..21] == PutU32(h.crc)
  {
    hide PutI32, PutI64, PutU32;
    var front := PutI64(h.baseOffset) + PutI32(h.batchLength) + PutI32(h.partitionLeaderEpoch);
    assert front[0..8] == PutI64(h.baseOffset) && front[8..12] == PutI32(h.batchLength)
        && front[12..16] == PutI32(h.partitionLeaderEpoch);
    FrontAndBack(front + [MAGIC_V2], PutU32(h.crc));
    FrontAndBack(front, [MAGIC_V2]);
    var s := EncodePrefix(h);
    assert s[..17][..16] == front;
    assert forall i, j | 0 <= i <= j <= 16 :: s[i..j] == s[..17][..16][i..j];
  }

  lemma FrontAndBack(a: seq<byte>, b: seq<byte>)
    ensures (a + b)[..|a|] == a && (a + b)[|a|..] == b
  {}

  lemma CoveredFields(h: BatchHeader)
    ensures var s := EncodeCovered(h);
      && s[0..2] == PutI16(h.attributes) && s[2..6] == PutI32(h.lastOffsetDelta)
      && s[6..14] == PutI64(h.baseTimestamp) && s[14..22] == PutI64(h.maxTimestamp)
      && s[22..30] == PutI64(h.producerId) && s[30..32] == PutI16(h.producerEpoch)
      && s[32..36] == PutI32(h.baseSequence) && s[36..40] == PutI32(h.recordCount)
  {}

  /** The header round-trips at exactly 61 bytes, whatever records follow it. */
  lemma HeaderRoundTrip(h: BatchHeader, records: seq<byte>)
    ensures |EncodeBatchHeader(h)| == 61
    ensures DecodeBatchHeader(EncodeBatchHeader(h) + records) == Ok(h)
  {
    PrefixFields(h);
    CoveredFields(h);
    hide EncodePrefix, EncodeCovered;
    hide GetI16, GetI32, GetI64, GetU32, PutI16, PutI32, PutI64, PutU32;
    var p, c := EncodePrefix(h), EncodeCovered(h);
    var s := EncodeBatchHeader(h) + records;
    assert s[0..8] == p[0..8] && s[8..12] == p[8..12] && s[12..16] == p[12..16] && s[17..21] == p[17..21];
    assert s[21..23] == c[0..2] && s[23..27] == c[2..6] && s[27..35] == c[6..14] && s[35..43] == c[14..22];
    assert s[43..51] == c[22..30] && s[51..53] == c[30..32] && s[53..57] == c[32..36] && s[57..61] == c[36..40];
  }

  /** Decoding forgets only the records: re-encoding gives back the bytes it read. */
  lemma HeaderReencodes(batch: seq<byte>)
    requires DecodeBatchHeader(batch).Ok?
    ensures EncodeBatchHeader(DecodeBatchHeader(batch).value) == batch[..61]
  {
    var h := HeaderFields(batch);
    PutGetI64(batch[0..8]);
    PutGetI32(batch[8..12]);
    PutGetI32(batch[12..16]);
    PutReadBe(batch[17..21]);
    PutGetI16(batch[21..23]);
    PutGetI32(batch[23..27]);
    PutGetI64(batch[27..35]);
    PutGetI64(batch[35..43]);
    PutGetI64(batch[43..51]);
    PutGetI16(batch[51..53]);
    PutGetI32(batch[53..57]);
    PutGetI32(batch[57..61]);
    hide PutI16, PutI32, PutI64, PutU32, GetI16, GetI32, GetI64, GetU32;
    assert EncodePrefix(h) == batch[..21] by {
      assert batch[..21] == batch[0..8] + batch[8..12] + batch[12..16] + [batch[16]] + batch[17..21];
    }
    CoveredPieces(batch);
    assert EncodeCovered(h) == batch[21..61];
  }

  lemma Glue(s: seq<byte>, i: nat, j: nat, k: nat)
    requires i <= j <= k <= |s|
    ensures s[i..j] + s[j..k] == s[i..k]
  {}

  lemma CoveredPieces(batch: seq<byte>)
    requires |batch| >= BATCH_HEADER_LEN
    ensures batch[21..23] + batch[23..27] + batch[27..35] + batch[35..43]
            + batch[43..51] + batch[51..53] + batch[53..57] + batch[57..61] == batch[21..61]
  {
    Glue(batch, 21, 23, 27);
    Glue(batch, 21, 27, 35);
    Glue(batch, 21, 35, 43);
    Glue(batch, 21, 43, 51);
    Glue(batch, 21, 51, 53);
    Glue(batch, 21, 53, 57);
    Glue(batch, 21, 57, 61);
  }

  // ---------------------------------------------------------------------------
  // Coverage and the in-place rewrite

  /** What the stored checksum covers, once `batchLength` has been checked against the buffer. */
  function CrcCoverage(batch: seq<byte>): (r: Result<seq<byte>, BatchError>)
    ensures r.Ok? ==> DecodeBatchHeader(batch).Ok?
    ensures r.Err? && DecodeBatchHeader(batch).Ok? ==>
      var length := DecodeBatchHeader(batch).value.batchLength;
      if length < 0 then r.error == LengthOutOfBounds
      else r.error == Truncated && (length + 12 > |batch| || length + 12 < 61)
    ensures r.Ok? ==> 0 <= HeaderFields(batch).batchLength && |r.value| == HeaderFields(batch).batchLength - 9 >= 40
    ensures r.Ok? ==> |r.value| + 21 <= |batch| && r.value == batch[21..21 + |r.value|]
  {
    var header :- DecodeBatchHeader(batch);
    if header.batchLength < 0 then Err(LengthOutOfBounds)
    else
      var declaredEnd := header.batchLength + 12;
      if declaredEnd > |batch| || declaredEnd < BATCH_HEADER_LEN then Err(Truncated)
      else Ok(batch[CRC_COVERAGE_START..declaredEnd])
  }

  function StoredCrc(batch: seq<byte>): Result<u32, BatchError> {
    var header :- DecodeBatchHeader(batch);
    Ok(header.crc)
  }

  /** A batch with its offset and leader epoch assigned; one that does not parse is left alone. */
  function Rewritten(batch: seq<byte>, baseOffset: i64, epoch: i32): (r: seq<byte>)
    ensures |r| == |batch|
  {
    if DecodeBatchHeader(batch).Err? then batch
    else PutI64(baseOffset) + batch[8..12] + PutI32(epoch) + batch[16..]
  }

  /** The assignment reaches the two fields it names and not one byte from the magic on. */
  lemma RewriteTouchesTwoFields(batch: seq<byte>, baseOffset: i64, epoch: i32)
    requires DecodeBatchHeader(batch).Ok?
    ensures var r := Rewritten(batch, baseOffset, epoch);
      && r[8..12] == batch[8..12] && r[16..] == batch[16..]
      && DecodeBatchHeader(r) == Ok(HeaderFields(batch).(baseOffset := baseOffset, partitionLeaderEpoch := epoch))
  {
    hide GetI16, GetI32, GetI64, GetU32, PutI32, PutI64;
    var r := Rewritten(batch, baseOffset, epoch);
    assert r[0..8] == PutI64(baseOffset) && r[12..16] == PutI32(epoch);
    TailFieldsAgree(batch, r);
  }

  lemma TailFieldsAgree(a: seq<byte>, b: seq<byte>)
    requires |a| == |b| >= BATCH_HEADER_LEN && a[16..] == b[16..]
    ensures a[16] == b[16] && a[17..21] == b[17..21] && a[21..] == b[21..]
    ensures HeaderFields(b) == HeaderFields(a).(baseOffset := GetI64(b[0..8]), batchLength := GetI32(b[8..12]),
                                                partitionLeaderEpoch := GetI32(b[12..16]))
  {
    forall i, j | 16 <= i <= j <= |a| ensures a[i..j] == b[i..j] {
      TailSlice(a, i, j);
      TailSlice(b, i, j);
    }
  }

  lemma TailSlice(s: seq<byte>, i: nat, j: nat)
    requires 16 <= i <= j <= |s|
    ensures s[i..j] == s[16..][i - 16..j - 16]
  {
    var slice, again := s[i..j], s[16..][i - 16..j - 16];
    assert |slice| == |again| == j - i;
    assert forall k | 0 <= k < j - i :: slice[k] == again[k];
  }

  /** `rewrite_base_offset`: twelve bytes written in place, or the error and nothing written. */
  method RewriteBaseOffset(batch: array<byte>, baseOffset: i64, epoch: i32) returns (r: Result<(), BatchError>)
    modifies batch
    ensures batch[..] == Rewritten(old(batch[..]), baseOffset, epoch)
    ensures r.Ok? <==> DecodeBatchHeader(old(batch[..])).Ok?
    ensures r.Err? ==> r.error == DecodeBatchHeader(old(batch[..])).error
  {
    hide PutI64, PutI32, HeaderFields;
    var decoded := DecodeBatchHeader(batch[..]);
    if decoded.Err? {
      return Err(decoded.error);
    }
    var offsetBytes, epochBytes := PutI64(baseOffset), PutI32(epoch);
    for i := 0 to 8
      invariant batch[..i] == offsetBytes[..i]
      invariant batch[8..] == old(batch[8..])
    {
      batch[i] := offsetBytes[i];
    }
    for i := 0 to 4
      invariant batch[..8] == offsetBytes
      invariant batch[8..12] == old(batch[8..12])
      invariant batch[12..12 + i] == epochBytes[..i]
      invariant batch[16..] == old(batch[16..])
    {
      batch[12 + i] := epochBytes[i];
    }
    assert batch[..] == batch[..8] + batch[8..12] + batch[12..16] + batch[16..];
    r := Ok(());
  }
}
