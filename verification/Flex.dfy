/**
 The flexible-versions primitives of KIP-482: compact lengths, strings and bytes, and the
 tagged-fields section. Every count is bounded by the bytes that remain before it is used.

 A reader is a function of the buffer and a position; it answers what it read and the
 position of the byte after it.
 */
module Flex {
  import opened Bytes
  import opened Varint

  type Read<+T> = Result<(T, nat), DecodeError>

  datatype RawTaggedField = RawTaggedField(tag: u32, data: seq<byte>)

  // ---------------------------------------------------------------------------
  // Specification of the readers

  /** `uvarint(len + 1)`; zero is null; a length past what remains is a lie. */
  function DecodeCompactLen(buf: seq<byte>, pos: nat): (r: Read<Option<nat>>)
    requires pos <= |buf|
    ensures r.Ok? ==> pos < r.value.1 <= |buf|
    ensures r.Ok? && r.value.0.Some? ==> r.value.0.value <= |buf| - r.value.1
  {
    var raw :- DecodeVarint(buf, pos);
    if raw.0 == 0 then Ok((None, raw.1))
    else if raw.0 - 1 > |buf| - raw.1 then Err(LengthOutOfBounds)
    else Ok((Some(raw.0 - 1), raw.1))
  }

  function DecodeCompactBytes(buf: seq<byte>, pos: nat): (r: Read<Option<seq<byte>>>)
    requires pos <= |buf|
    ensures r.Ok? ==> pos < r.value.1 <= |buf|
  {
    var length :- DecodeCompactLen(buf, pos);
    match length.0
    case None => Ok((None, length.1))
    case Some(n) => Ok((Some(buf[length.1..length.1 + n]), length.1 + n))
  }

  /** A string is its bytes, refused when `utf8` says they are not text. */
  function DecodeCompactString(buf: seq<byte>, pos: nat, utf8: seq<byte> -> bool): (r: Read<Option<seq<byte>>>)
    requires pos <= |buf|
    ensures r.Ok? ==> pos < r.value.1 <= |buf|
  {
    var read :- DecodeCompactBytes(buf, pos);
    if read.0.Some? && !utf8(read.0.value) then Err(InvalidUtf8) else Ok(read)
  }

  function DecodeTaggedField(buf: seq<byte>, pos: nat): (r: Read<RawTaggedField>)
    requires pos <= |buf|
    ensures r.Ok? ==> pos + 2 <= r.value.1 <= |buf|
  {
    var tag :- DecodeVarint(buf, pos);
    var size :- DecodeVarint(buf, tag.1);
    if size.0 > |buf| - size.1 then Err(LengthOutOfBounds)
    else Ok((RawTaggedField(tag.0, buf[size.1..size.1 + size.0]), size.1 + size.0))
  }

  function DecodeFields(buf: seq<byte>, pos: nat, count: nat): (r: Read<seq<RawTaggedField>>)
    requires pos <= |buf|
    ensures r.Ok? ==> |r.value.0| == count && pos + 2 * count <= r.value.1 <= |buf|
    decreases |buf| - pos
  {
    if count == 0 then Ok(([], pos))
    else
      var first :- DecodeTaggedField(buf, pos);
      var others :- DecodeFields(buf, first.1, count - 1);
      Ok(([first.0] + others.0, others.1))
  }

  /** Whatever the input, the fields read number less than half of the bytes consumed. */
  function DecodeTaggedFields(buf: seq<byte>, pos: nat): (r: Read<seq<RawTaggedField>>)
    requires pos <= |buf|
    ensures r.Ok? ==> pos + 2 * |r.value.0| < r.value.1 <= |buf|
  {
    var count :- DecodeVarint(buf, pos);
    if count.0 > |buf| - count.1 then Err(LengthOutOfBounds) else DecodeFields(buf, count.1, count.0)
  }

  // ---------------------------------------------------------------------------
  // Specification of the writers

  function Saturated(n: nat): u32 {
    if n <= MAX_U32 then n else MAX_U32
  }

  /** A length the encoding cannot hold saturates rather than wrapping round to the null sentinel. */
  function EncodeCompactBytes(value: Option<seq<byte>>): seq<byte> {
    match value
    case None => EncodeVarint(0)
    case Some(b) => EncodeVarint(Saturated(|b| + 1)) + b
  }

  function EncodeTaggedField(f: RawTaggedField): seq<byte> {
    EncodeVarint(f.tag) + (EncodeVarint(Saturated(|f.data|)) + f.data)
  }

  function EncodeFields(fields: seq<RawTaggedField>): seq<byte> {
    if fields == [] then [] else EncodeTaggedField(fields[0]) + EncodeFields(fields[1..])
  }

  function EncodeTaggedFields(fields: seq<RawTaggedField>): seq<byte> {
    EncodeVarint(Saturated(|fields|)) + EncodeFields(fields)
  }

  /** On the wire: null is 0, a short length is one more than it is, and a field is its tag, its size, its data. */
  lemma ShortForms(b: seq<byte>, tag: u32, fields: seq<RawTaggedField>)
    requires |b| < 127 && tag < 128 && |fields| < 128
    ensures EncodeCompactBytes(None) == [0]
    ensures EncodeCompactBytes(Some(b)) == [|b| + 1] + b
    ensures EncodeTaggedField(RawTaggedField(tag, b)) == [tag, |b|] + b
    ensures EncodeTaggedFields(fields) == [|fields|] + EncodeFields(fields)
  {}

  // ---------------------------------------------------------------------------
  // Round trips

  /**
   Compact bytes read back as what was put, with the cursor at the byte after, exactly when
   their length is below the largest `u32`: from there on the writer's length saturates.
   */
  lemma CompactBytesRoundTrip(buf: seq<byte>, pos: nat, value: Option<seq<byte>>)
    requires At(buf, pos, EncodeCompactBytes(value))
    ensures DecodeCompactBytes(buf, pos) == Ok((value, pos + |EncodeCompactBytes(value)|))
       <==> (value.Some? ==> |value.value| < MAX_U32)
  {
    match value
    case None =>
      VarintRoundTrip(buf, pos, 0);
    case Some(b) =>
      AtSplits(buf, pos, EncodeVarint(Saturated(|b| + 1)), b);
      VarintRoundTrip(buf, pos, Saturated(|b| + 1));
  }

  lemma CompactStringRoundTrip(buf: seq<byte>, pos: nat, value: Option<seq<byte>>, utf8: seq<byte> -> bool)
    requires At(buf, pos, EncodeCompactBytes(value))
    ensures DecodeCompactString(buf, pos, utf8) == Ok((value, pos + |EncodeCompactBytes(value)|))
       <==> (value.Some? ==> |value.value| < MAX_U32 && utf8(value.value))
    ensures value.Some? && |value.value| < MAX_U32 && !utf8(value.value) ==>
      DecodeCompactString(buf, pos, utf8) == Err(InvalidUtf8)
  {
    CompactBytesRoundTrip(buf, pos, value);
  }

  lemma TaggedFieldRoundTrip(buf: seq<byte>, pos: nat, f: RawTaggedField)
    requires |f.data| <= MAX_U32 && At(buf, pos, EncodeTaggedField(f))
    ensures DecodeTaggedField(buf, pos) == Ok((f, pos + |EncodeTaggedField(f)|))
  {
    TaggedFieldParts(buf, pos, f, EncodeVarint(f.tag), EncodeVarint(|f.data|));
  }

  lemma TaggedFieldParts(buf: seq<byte>, pos: nat, f: RawTaggedField, tag: seq<byte>, size: seq<byte>)
    requires |f.data| <= MAX_U32 && tag == EncodeVarint(f.tag) && size == EncodeVarint(|f.data|)
    requires At(buf, pos, tag + (size + f.data))
    ensures DecodeTaggedField(buf, pos) == Ok((f, pos + |tag| + |size| + |f.data|))
  {
    hide EncodeVarint, DecodeVarint;
    AtSplits(buf, pos, tag, size + f.data);
    AtSplits(buf, pos + |tag|, size, f.data);
    VarintRoundTrip(buf, pos, f.tag);
    VarintRoundTrip(buf, pos + |tag|, |f.data|);
  }

  lemma {:induction false} FieldsRoundTrip(buf: seq<byte>, pos: nat, fields: seq<RawTaggedField>)
    requires forall f | f in fields :: |f.data| <= MAX_U32
    requires At(buf, pos, EncodeFields(fields))
    ensures DecodeFields(buf, pos, |fields|) == Ok((fields, pos + |EncodeFields(fields)|))
    decreases |fields|
  {
    hide DecodeFields, EncodeFields, DecodeTaggedField, EncodeTaggedField;
    if fields == [] {
      NoFields(buf, pos);
    } else {
      var mid := pos + |EncodeTaggedField(fields[0])|;
      FieldsSplit(buf, pos, fields);
      assert DecodeTaggedField(buf, pos) == Ok((fields[0], mid)) by {
        TaggedFieldRoundTrip(buf, pos, fields[0]);
      }
      FieldsRoundTrip(buf, mid, fields[1..]);
      FieldsUnfold(buf, pos, fields, mid);
    }
  }

  lemma NoFields(buf: seq<byte>, pos: nat)
    requires pos <= |buf|
    ensures EncodeFields([]) == [] && DecodeFields(buf, pos, 0) == Ok(([], pos))
  {}

  lemma FieldsSplit(buf: seq<byte>, pos: nat, fields: seq<RawTaggedField>)
    requires fields != [] && At(buf, pos, EncodeFields(fields))
    ensures var head, tail := EncodeTaggedField(fields[0]), EncodeFields(fields[1..]);
      && At(buf, pos, head)
      && At(buf, pos + |head|, tail)
      && |EncodeFields(fields)| == |head| + |tail|
  {
    AtSplits(buf, pos, EncodeTaggedField(fields[0]), EncodeFields(fields[1..]));
  }

  lemma FieldsUnfold(buf: seq<byte>, pos: nat, fields: seq<RawTaggedField>, mid: nat)
    requires pos <= |buf| && fields != [] && DecodeTaggedField(buf, pos) == Ok((fields[0], mid))
    requires DecodeFields(buf, mid, |fields| - 1).Ok? && DecodeFields(buf, mid, |fields| - 1).value.0 == fields[1..]
    ensures DecodeFields(buf, pos, |fields|) == Ok((fields, DecodeFields(buf, mid, |fields| - 1).value.1))
  {
    assert [fields[0]] + fields[1..] == fields;
  }

  /** A field too long for its size prefix does not read back as itself. */
  lemma OversizeField(buf: seq<byte>, pos: nat, f: RawTaggedField, tag: seq<byte>, size: seq<byte>)
    requires |f.data| > MAX_U32 && tag == EncodeVarint(f.tag) && size == EncodeVarint(MAX_U32)
    requires At(buf, pos, tag + (size + f.data))
    ensures DecodeTaggedField(buf, pos).Ok? ==> DecodeTaggedField(buf, pos).value.0 != f
  {
    hide EncodeVarint, DecodeVarint;
    AtSplits(buf, pos, tag, size + f.data);
    AtSplits(buf, pos + |tag|, size, f.data);
    VarintRoundTrip(buf, pos, f.tag);
    VarintRoundTrip(buf, pos + |tag|, MAX_U32);
  }

  lemma {:induction false} OversizeIsLost(buf: seq<byte>, pos: nat, fields: seq<RawTaggedField>)
    requires exists f | f in fields :: |f.data| > MAX_U32
    requires At(buf, pos, EncodeFields(fields))
    ensures DecodeFields(buf, pos, |fields|).Ok? ==> DecodeFields(buf, pos, |fields|).value.0 != fields
    decreases |fields|
  {
    hide EncodeFields, DecodeFields, DecodeTaggedField, EncodeTaggedField;
    var f := fields[0];
    FieldsSplit(buf, pos, fields);
    FirstFieldFirst(buf, pos, fields);
    if |f.data| > MAX_U32 {
      OversizeFirst(buf, pos, f);
    } else {
      TaggedFieldRoundTrip(buf, pos, f);
      OversizeIsLost(buf, pos + |EncodeTaggedField(f)|, fields[1..]);
    }
  }

  lemma OversizeFirst(buf: seq<byte>, pos: nat, f: RawTaggedField)
    requires |f.data| > MAX_U32 && At(buf, pos, EncodeTaggedField(f))
    ensures DecodeTaggedField(buf, pos).Ok? ==> DecodeTaggedField(buf, pos).value.0 != f
  {
    OversizeField(buf, pos, f, EncodeVarint(f.tag), EncodeVarint(MAX_U32));
  }

  lemma FirstFieldFirst(buf: seq<byte>, pos: nat, fields: seq<RawTaggedField>)
    requires pos <= |buf| && fields != []
    ensures DecodeFields(buf, pos, |fields|).Ok? && DecodeFields(buf, pos, |fields|).value.0 == fields ==>
      && DecodeTaggedField(buf, pos).Ok?
      && DecodeTaggedField(buf, pos).value.0 == fields[0]
      && DecodeFields(buf, DecodeTaggedField(buf, pos).value.1, |fields| - 1).Ok?
      && DecodeFields(buf, DecodeTaggedField(buf, pos).value.1, |fields| - 1).value.0 == fields[1..]
  {}

  /** Whether every count and size of the section fits the `u32` it is written as. */
  predicate Writable(fields: seq<RawTaggedField>) {
    |fields| <= MAX_U32 && forall f | f in fields :: |f.data| <= MAX_U32
  }

  /**
   Unknown tags survive a round trip, in wire order, leaving the cursor at the following byte,
   exactly when every count and size fits its varint.
   */
  lemma TaggedFieldsRoundTrip(buf: seq<byte>, pos: nat, fields: seq<RawTaggedField>)
    requires At(buf, pos, EncodeTaggedFields(fields))
    ensures DecodeTaggedFields(buf, pos) == Ok((fields, pos + |EncodeTaggedFields(fields)|)) <==> Writable(fields)
  {
    hide EncodeVarint, DecodeVarint, EncodeFields, DecodeTaggedFields, DecodeFields;
    var n := Saturated(|fields|);
    CountAndBody(buf, pos, n, EncodeFields(fields));
    var mid := pos + |EncodeVarint(n)|;
    if Writable(fields) {
      SectionBody(buf, pos, mid, fields);
    } else {
      SectionIsItsFields(buf, pos, n, mid);
      if |fields| <= MAX_U32 {
        OversizeIsLost(buf, mid, fields);
      }
    }
  }

  lemma SectionIsItsFields(buf: seq<byte>, pos: nat, count: u32, mid: nat)
    requires pos <= |buf| && DecodeVarint(buf, pos) == Ok((count, mid))
    ensures DecodeTaggedFields(buf, pos).Err? || DecodeTaggedFields(buf, pos) == DecodeFields(buf, mid, count)
    ensures DecodeTaggedFields(buf, pos).Ok? ==> |DecodeTaggedFields(buf, pos).value.0| == count
  {}

  lemma CountAndBody(buf: seq<byte>, pos: nat, n: u32, body: seq<byte>)
    requires At(buf, pos, EncodeVarint(n) + body)
    ensures At(buf, pos + |EncodeVarint(n)|, body)
    ensures DecodeVarint(buf, pos) == Ok((n, pos + |EncodeVarint(n)|))
  {
    AtSplits(buf, pos, EncodeVarint(n), body);
    VarintRoundTrip(buf, pos, n);
  }

  lemma SectionBody(buf: seq<byte>, pos: nat, mid: nat, fields: seq<RawTaggedField>)
    requires |fields| <= MAX_U32 && forall f | f in fields :: |f.data| <= MAX_U32
    requires pos <= |buf| && DecodeVarint(buf, pos) == Ok((|fields|, mid))
    requires At(buf, mid, EncodeFields(fields))
    ensures DecodeTaggedFields(buf, pos) == Ok((fields, mid + |EncodeFields(fields)|))
  {
    FieldsRoundTrip(buf, mid, fields);
    SectionUnfolds(buf, pos, |fields|, mid);
  }

  lemma SectionUnfolds(buf: seq<byte>, pos: nat, count: u32, mid: nat)
    requires pos <= |buf| && DecodeVarint(buf, pos) == Ok((count, mid)) && mid + count <= |buf|
    ensures DecodeTaggedFields(buf, pos) == DecodeFields(buf, mid, count)
  {}

  // ---------------------------------------------------------------------------
  // Readers over a cursor

  method ReadCompactLen(cur: Cursor) returns (r: Result<Option<nat>, DecodeError>)
    requires cur.Valid()
    modifies cur
    ensures cur.Valid()
    ensures match DecodeCompactLen(cur.buf, old(cur.pos))
            case Ok(read) => r == Ok(read.0) && cur.pos == read.1
            case Err(e) => r == Err(e)
  {
    var raw := cur.ReadUnsignedVarint();
    if raw.Err? {
      return Err(raw.error);
    }
    if raw.value == 0 {
      return Ok(None);
    }
    if raw.value - 1 > |cur.buf| - cur.pos {
      return Err(LengthOutOfBounds);
    }
    r := Ok(Some(raw.value - 1));
  }

  method ReadCompactNullableBytes(cur: Cursor) returns (r: Result<Option<seq<byte>>, DecodeError>)
    requires cur.Valid()
    modifies cur
    ensures cur.Valid()
    ensures match DecodeCompactBytes(cur.buf, old(cur.pos))
            case Ok(read) => r == Ok(read.0) && cur.pos == read.1
            case Err(e) => r == Err(e)
  {
    var length := ReadCompactLen(cur);
    if length.Err? {
      return Err(length.error);
    }
    if length.value.None? {
      return Ok(None);
    }
    var taken := cur.Take(length.value.value);
    r := Ok(Some(taken.value));
  }

  method ReadTaggedField(cur: Cursor) returns (r: Result<RawTaggedField, DecodeError>)
    requires cur.Valid()
    modifies cur
    ensures cur.Valid()
    ensures match DecodeTaggedField(cur.buf, old(cur.pos))
            case Ok(read) => r == Ok(read.0) && cur.pos == read.1
            case Err(e) => r == Err(e)
  {
    var tag := cur.ReadUnsignedVarint();
    if tag.Err? {
      return Err(tag.error);
    }
    var size := cur.ReadUnsignedVarint();
    if size.Err? {
      return Err(size.error);
    }
    if size.value > |cur.buf| - cur.pos {
      return Err(LengthOutOfBounds);
    }
    var data := cur.Take(size.value);
    r := Ok(RawTaggedField(tag.value, data.value));
  }

  /** What the whole section reads as, once `front` has been read and `r` is what follows. */
  function After(front: seq<RawTaggedField>, r: Read<seq<RawTaggedField>>): Read<seq<RawTaggedField>> {
    match r
    case Err(e) => Err(e)
    case Ok(read) => Ok((front + read.0, read.1))
  }

  lemma AfterOneField(front: seq<RawTaggedField>, buf: seq<byte>, pos: nat, count: nat)
    requires pos <= |buf| && count > 0
    ensures After(front, DecodeFields(buf, pos, count)) ==
      match DecodeTaggedField(buf, pos)
      case Err(e) => Err(e)
      case Ok(f) => After(front + [f.0], DecodeFields(buf, f.1, count - 1))
  {
    var first := DecodeTaggedField(buf, pos);
    if first.Ok? {
      var others := DecodeFields(buf, first.value.1, count - 1);
      if others.Ok? {
        assert front + ([first.value.0] + others.value.0) == front + [first.value.0] + others.value.0;
      }
    }
  }

  lemma AfterNothing(r: Read<seq<RawTaggedField>>)
    ensures After([], r) == r
  {
    if r.Ok? {
      assert [] + r.value.0 == r.value.0;
    }
  }

  lemma AfterEverything(front: seq<RawTaggedField>, buf: seq<byte>, pos: nat)
    requires pos <= |buf|
    ensures After(front, DecodeFields(buf, pos, 0)) == Ok((front, pos))
  {
    assert front + [] == front;
  }

  /** The loop that keeps every tag it does not recognise. */
  method ReadFields(cur: Cursor, count: nat) returns (r: Result<seq<RawTaggedField>, DecodeError>)
    requires cur.Valid()
    modifies cur
    ensures cur.Valid()
    ensures match DecodeFields(cur.buf, old(cur.pos), count)
            case Ok(read) => r == Ok(read.0) && cur.pos == read.1
            case Err(e) => r == Err(e)
  {
    ghost var start := cur.pos;
    var unknown := [];
    AfterNothing(DecodeFields(cur.buf, start, count));
    for i := 0 to count
      invariant cur.Valid()
      invariant DecodeFields(cur.buf, start, count) == After(unknown, DecodeFields(cur.buf, cur.pos, count - i))
    {
      AfterOneField(unknown, cur.buf, cur.pos, count - i);
      var field := ReadTaggedField(cur);
      if field.Err? {
        return Err(field.error);
      }
      unknown := unknown + [field.value];
    }
    AfterEverything(unknown, cur.buf, cur.pos);
    r := Ok(unknown);
  }

  method ReadTaggedFields(cur: Cursor) returns (r: Result<seq<RawTaggedField>, DecodeError>)
    requires cur.Valid()
    modifies cur
    ensures cur.Valid()
    ensures match DecodeTaggedFields(cur.buf, old(cur.pos))
            case Ok(read) => r == Ok(read.0) && cur.pos == read.1
            case Err(e) => r == Err(e)
  {
    var count := cur.ReadUnsignedVarint();
    if count.Err? {
      return Err(count.error);
    }
    if count.value > |cur.buf| - cur.pos {
      return Err(LengthOutOfBounds);
    }
    SectionUnfolds(cur.buf, old(cur.pos), count.value, cur.pos);
    r := ReadFields(cur, count.value);
  }

  // ---------------------------------------------------------------------------
  // Writers over a growing buffer

  lemma Associate(a: seq<byte>, b: seq<byte>, c: seq<byte>)
    ensures a + b + c == a + (b + c)
  {}

  class Buffer {
    var bytes: seq<byte>

    constructor ()
      ensures bytes == []
    {
      bytes := [];
    }

    method PutUnsignedVarint(value: u32)
      modifies this
      ensures bytes == old(bytes) + EncodeVarint(value)
    {
      var v: nat := value;
      while v >= 128
        invariant bytes + EncodeVarint(v) == old(bytes) + EncodeVarint(value)
      {
        Associate(bytes, [v % 128 + 128], EncodeVarint(v / 128));
        bytes := bytes + [v % 128 + 128];
        v := v / 128;
      }
      bytes := bytes + [v];
    }

    method PutCompactNullableBytes(value: Option<seq<byte>>)
      modifies this
      ensures bytes == old(bytes) + EncodeCompactBytes(value)
    {
      match value
      case None =>
        PutUnsignedVarint(0);
      case Some(b) =>
        PutUnsignedVarint(Saturated(|b| + 1));
        Associate(old(bytes), EncodeVarint(Saturated(|b| + 1)), b);
        bytes := bytes + b;
    }

    method PutTaggedField(f: RawTaggedField)
      modifies this
      ensures bytes == old(bytes) + EncodeTaggedField(f)
    {
      PutUnsignedVarint(f.tag);
      PutUnsignedVarint(Saturated(|f.data|));
      bytes := bytes + f.data;
      ghost var tag, size := EncodeVarint(f.tag), EncodeVarint(Saturated(|f.data|));
      Associate(old(bytes) + tag, size, f.data);
      Associate(old(bytes), tag, size + f.data);
    }

    method PutTaggedFields(fields: seq<RawTaggedField>)
      modifies this
      ensures bytes == old(bytes) + EncodeTaggedFields(fields)
    {
      PutUnsignedVarint(Saturated(|fields|));
      ghost var counted := bytes;
      assert fields[0..] == fields;
      for i := 0 to |fields|
        invariant bytes + EncodeFields(fields[i..]) == counted + EncodeFields(fields)
      {
        assert fields[i..][1..] == fields[i + 1..];
        Associate(bytes, EncodeTaggedField(fields[i]), EncodeFields(fields[i + 1..]));
        PutTaggedField(fields[i]);
      }
      Associate(old(bytes), EncodeVarint(Saturated(|fields|)), EncodeFields(fields));
    }
  }
}
