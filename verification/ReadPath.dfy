/**
 The read path of one fetch request: a cache of objects shared by all its partitions, a cap on
 failures, a manifest tier in front of the index, and a byte allowance per partition.

 What each operation does is a function of the objects in hand; the class and its loops below are
 proved to compute exactly those functions.
 */
module ReadPath {
  import opened Bytes
  import opened RecordBatch
  import opened ObjectIndex

  datatype Range = Full | Bounded(offset: nat, length: nat)

  datatype ObjectId = ObjectId(key: ObjectKey, range: Range)

  datatype ReadError = ObjectNotFound | SlowDown | IndexObjectMismatch | StoreFault | MalformedManifest

  const MAX_FAILED_FETCHES_PER_REQUEST: nat := 2
  const MAX_MANIFEST_HOPS: nat := 16

  /** A batch the index names: with its byte range, or only by the object that holds it. */
  datatype IndexedBatch =
    | Inline(key: ObjectKey, baseOffset: i64, recordCount: nat, range: Range)
    | Footer(key: ObjectKey, baseOffset: i64, recordCount: nat)

  datatype ManifestEntry = ManifestEntry(key: ObjectKey, baseOffset: i64, recordCount: nat, range: Range)

  datatype Manifest = Manifest(entries: seq<ManifestEntry>, previous: Option<ObjectKey>)

  /**
   The store for the length of one request: since each object is asked for at most once, one
   answer per object is all there is. `parse` reads a manifest out of an object.
   */
  datatype World = World(
    store: ObjectId -> Result<seq<byte>, ReadError>,
    parse: seq<byte> -> Result<Manifest, ReadError>)

  /** One partition's region of a bundle, as its topic's codec opens it. */
  type Slicer = seq<byte> -> Result<seq<byte>, ReadError>

  datatype Allowance = Allowance(bytes: nat, mayOvershoot: bool)

  datatype Read = Read(records: seq<byte>, fetched: nat)

  datatype ReadFailure = ReadFailure(error: ReadError, fetched: nat)

  // ---------------------------------------------------------------------------
  // What is asked of the store, and why

  function IdOf(batch: IndexedBatch): ObjectId {
    match batch
    case Inline(key, _, _, range) => ObjectId(key, range)
    case Footer(key, _, _) => ObjectId(key, Full)
  }

  /** What an object is wanted for: to be parsed as a manifest, or to yield one partition's batch. */
  datatype Purpose = ForManifest(key: ObjectKey) | ForBatch(batch: IndexedBatch, slice: Slicer)

  function Target(p: Purpose): ObjectId {
    match p
    case ForManifest(key) => ObjectId(key, Full)
    case ForBatch(batch, _) => IdOf(batch)
  }

  /** One object answered for; `missed` when it took a GET. */
  datatype Use = Use(purpose: Purpose, missed: bool)

  /** What a request has had answered so far, and how many failures it has counted. */
  datatype Hand = Hand(uses: seq<Use>, failed: nat)

  const EMPTY_HAND := Hand([], 0)

  /** The GETs issued, in order. */
  ghost function Gets(uses: seq<Use>): seq<ObjectId> {
    if uses == [] then []
    else
      var last := uses[|uses| - 1];
      Gets(uses[..|uses| - 1]) + (if last.missed then [Target(last.purpose)] else [])
  }

  // ---------------------------------------------------------------------------
  // One object

  datatype Answer = Answer(hand: Hand, r: Result<seq<byte>, ReadError>, missed: bool)

  /** `FetchedObjects::get`: a hit is free, and once the cap is reached only hits are answered. */
  ghost function Asked(world: World, h: Hand, p: Purpose): Answer {
    var id := Target(p);
    if id in Gets(h.uses) then Answer(h.(uses := h.uses + [Use(p, false)]), world.store(id), false)
    else if h.failed >= MAX_FAILED_FETCHES_PER_REQUEST then Answer(h, Err(SlowDown), false)
    else
      var r := world.store(id);
      Answer(Hand(h.uses + [Use(p, true)], h.failed + if r.Err? then 1 else 0), r, true)
  }

  /** `note_failure`, which only a miss may call. */
  function Noted(h: Hand, missed: bool): Hand {
    if missed then h.(failed := h.failed + 1) else h
  }

  /** A miss costs what it brought; a hit or a refusal costs nothing. */
  function Cost(r: Result<seq<byte>, ReadError>, missed: bool): nat {
    if missed && r.Ok? then |r.value| else 0
  }

  // ---------------------------------------------------------------------------
  // One batch

  datatype Fetched = Fetched(blob: Result<seq<byte>, ReadError>, cost: nat, missed: bool)

  function Opened(slice: Slicer, batch: IndexedBatch, stored: seq<byte>): Result<seq<byte>, ReadError> {
    if batch.Footer? then slice(stored) else Ok(stored)
  }

  /** `one_batch`: a ranged read is its batch; a bundle has to be opened for its partition. */
  ghost function BatchFetched(world: World, slice: Slicer, h: Hand, batch: IndexedBatch): (Hand, Fetched) {
    var a := Asked(world, h, ForBatch(batch, slice));
    if a.r.Err? then (a.hand, Fetched(a.r, 0, a.missed))
    else
      var blob := Opened(slice, batch, a.r.value);
      (if blob.Err? then Noted(a.hand, a.missed) else a.hand, Fetched(blob, Cost(a.r, a.missed), a.missed))
  }

  datatype Outcome = Whole(blob: seq<byte>) | Missing(error: ReadError) | Unstampable

  datatype Attempt = Attempt(hand: Hand, outcome: Outcome, cost: nat)

  /** The batch fetched and stamped with its offset. */
  ghost function Tried(world: World, slice: Slicer, h: Hand, batch: IndexedBatch): Attempt {
    var (hand, fetch) := BatchFetched(world, slice, h, batch);
    if fetch.blob.Err? then Attempt(hand, Missing(fetch.blob.error), fetch.cost)
    else if DecodeBatchHeader(fetch.blob.value).Err? then Attempt(Noted(hand, fetch.missed), Unstampable, fetch.cost)
    else Attempt(hand, Whole(Rewritten(fetch.blob.value, batch.baseOffset, 0)), fetch.cost)
  }

  // ---------------------------------------------------------------------------
  // One page

  function Max(a: nat, b: nat): nat {
    if a >= b then a else b
  }

  predicate Spent(allowance: Allowance, fetched: nat, records: seq<byte>) {
    Max(fetched, |records|) >= allowance.bytes && !(records == [] && allowance.mayOvershoot)
  }

  datatype Done = Done(hand: Hand, r: Result<Read, ReadFailure>)

  /** The loop over the rest of a page, with `fetched` charged and `records` in hand. */
  ghost function PageRead(world: World, slice: Slicer, h: Hand, page: seq<IndexedBatch>, allowance: Allowance,
                          fetched: nat, records: seq<byte>): Done
    decreases |page|
  {
    if page == [] || Spent(allowance, fetched, records) then Done(h, Ok(Read(records, fetched)))
    else
      var t := Tried(world, slice, h, page[0]);
      match t.outcome
      case Whole(blob) => PageRead(world, slice, t.hand, page[1..], allowance, fetched + t.cost, records + blob)
      case Unstampable => Done(t.hand, Err(ReadFailure(IndexObjectMismatch, fetched + t.cost)))
      case Missing(error) =>
        Done(t.hand, if records != [] then Ok(Read(records, fetched + t.cost)) else Err(ReadFailure(error, fetched + t.cost)))
  }

  // ---------------------------------------------------------------------------
  // The manifest tier

  /** How many entries from the front begin at or before `offset`. */
  function Leading(entries: seq<ManifestEntry>, offset: i64): (n: nat)
    ensures n <= |entries|
    ensures n > 0 ==> entries[n - 1].baseOffset <= offset
  {
    if entries == [] || entries[0].baseOffset > offset then 0 else 1 + Leading(entries[1..], offset)
  }

  /** The entry that holds `offset`; an end that is not an offset means it is not here. */
  function PositionOf(m: Manifest, offset: i64): (at: Option<nat>)
    ensures at.Some? ==> at.value < |m.entries| && Holds(m.entries[at.value], offset)
  {
    var n := Leading(m.entries, offset);
    if n > 0 && Holds(m.entries[n - 1], offset) then Some(n - 1) else None
  }

  predicate Holds(e: ManifestEntry, offset: i64) {
    e.baseOffset <= offset < e.baseOffset + e.recordCount <= MAX_I64
  }

  /** The entries a fetch reads, as ranged batches: below `upto`, and a page of them at most. */
  function BatchesBelow(entries: seq<ManifestEntry>, upto: i64, max: nat): (page: seq<IndexedBatch>)
    ensures |page| <= max && |page| <= |entries|
    ensures forall i | 0 <= i < |page| :: page[i] == Ranged(entries[i]) && entries[i].baseOffset < upto
    ensures |page| < max && |page| < |entries| ==> entries[|page|].baseOffset >= upto
  {
    if entries == [] || max == 0 || entries[0].baseOffset >= upto then []
    else [Ranged(entries[0])] + BatchesBelow(entries[1..], upto, max - 1)
  }

  /** A manifest entry carries its byte range, so its batch is an ordinary ranged read. */
  function Ranged(e: ManifestEntry): IndexedBatch {
    Inline(e.key, e.baseOffset, e.recordCount, e.range)
  }

  /** What a parsed manifest promises: entries in offset order, without overlap. */
  ghost predicate Ordered(entries: seq<ManifestEntry>) {
    forall i, j | 0 <= i < j < |entries| :: entries[i].baseOffset + entries[i].recordCount <= entries[j].baseOffset
  }

  lemma {:induction false} LeadingStopsAfter(entries: seq<ManifestEntry>, offset: i64, i: nat)
    requires Ordered(entries) && i < |entries| && Holds(entries[i], offset)
    ensures Leading(entries, offset) == i + 1
    decreases i
  {
    var rest := entries[1..];
    assert entries[0].baseOffset <= offset;
    if i == 0 {
      assert rest != [] ==> rest[0] == entries[1];
    } else {
      LeadingStopsAfter(rest, offset, i - 1);
    }
  }

  /** The search finds the entry that holds the offset whenever one does. */
  lemma PositionFindsIt(m: Manifest, offset: i64, i: nat)
    requires Ordered(m.entries) && i < |m.entries| && Holds(m.entries[i], offset)
    ensures PositionOf(m, offset) == Some(i)
  {
    LeadingStopsAfter(m.entries, offset, i);
  }

  datatype Tier = Tier(hand: Hand, batches: Result<seq<IndexedBatch>, ReadError>, cost: nat)

  /** What a manifest says about an offset: its batches, the link before it, or nothing. */
  datatype Verdict = Here(page: seq<IndexedBatch>) | Before(link: ObjectKey) | Nowhere

  function Judged(m: Manifest, start: i64, upto: i64): Verdict {
    var at := PositionOf(m, start);
    if at.Some? then Here(BatchesBelow(m.entries[at.value..], upto, MAX_BATCHES_PER_PAGE))
    else if m.previous.Some? && m.entries != [] && start < m.entries[0].baseOffset then Before(m.previous.value)
    else Nowhere
  }

  /** `manifest_batches` with `hops` links left to follow and `cost` already charged. */
  ghost function Resolved(world: World, h: Hand, key: ObjectKey, start: i64, upto: i64, hops: nat, cost: nat): Tier
    decreases hops
  {
    if hops == 0 then Tier(h, Err(IndexObjectMismatch), cost)
    else
      var a := Asked(world, h, ForManifest(key));
      var charged := cost + Cost(a.r, a.missed);
      if a.r.Err? then Tier(a.hand, Err(a.r.error), charged)
      else
        var parsed := world.parse(a.r.value);
        if parsed.Err? then Tier(a.hand, Err(parsed.error), charged)
        else match Judged(parsed.value, start, upto)
          case Here(page) => Tier(a.hand, Ok(page), charged)
          case Nowhere => Tier(a.hand, Ok([]), charged)
          case Before(link) => Resolved(world, a.hand, link, start, upto, hops - 1, charged)
  }

  // ---------------------------------------------------------------------------
  // One partition, and a request of them

  /** What the index says of one partition, and what it may spend. */
  datatype PartitionRead = PartitionRead(
    manifest: Option<(ObjectKey, i64)>,
    start: i64,
    indexed: Result<seq<IndexedBatch>, ReadError>,
    slice: Slicer,
    allowance: Allowance)

  /** The manifest is consulted only for an offset below what it covers, and only with something to spend. */
  predicate Consults(p: PartitionRead) {
    p.manifest.Some? && p.start < p.manifest.value.1 && (p.allowance.bytes != 0 || p.allowance.mayOvershoot)
  }

  ghost function OlderTier(world: World, h: Hand, p: PartitionRead): Tier {
    if Consults(p) then Resolved(world, h, p.manifest.value.0, p.start, p.manifest.value.1, MAX_MANIFEST_HOPS, 0)
    else Tier(h, Ok([]), 0)
  }

  /** `read_inner`: both tiers in one page, or the error of whichever could not be named. */
  ghost function PartitionDone(world: World, h: Hand, p: PartitionRead): Done {
    var tier := OlderTier(world, h, p);
    if tier.batches.Err? then Done(tier.hand, Err(ReadFailure(tier.batches.error, tier.cost)))
    else if p.indexed.Err? then Done(tier.hand, Err(ReadFailure(p.indexed.error, tier.cost)))
    else PageRead(world, p.slice, tier.hand, tier.batches.value + p.indexed.value, p.allowance, tier.cost, [])
  }

  /** The hand after every partition asked for, and what each of them was answered. */
  ghost function HandAfter(world: World, asked: seq<PartitionRead>): Hand {
    if asked == [] then EMPTY_HAND
    else PartitionDone(world, HandAfter(world, asked[..|asked| - 1]), asked[|asked| - 1]).hand
  }

  ghost function Answers(world: World, asked: seq<PartitionRead>): (results: seq<Result<Read, ReadFailure>>)
    ensures |results| == |asked|
  {
    if asked == [] then []
    else
      var front := asked[..|asked| - 1];
      Answers(world, front) + [PartitionDone(world, HandAfter(world, front), asked[|asked| - 1]).r]
  }

  // ---------------------------------------------------------------------------
  // The objects of one request, held in place

  class FetchedObjects {
    var seen: map<ObjectId, Result<seq<byte>, ReadError>>
    var failed: nat
    ghost var uses: seq<Use>

    ghost predicate Valid(world: World)
      reads this
    {
      && (forall id | id in seen :: seen[id] == world.store(id))
      && (forall id :: id in seen <==> id in Gets(uses))
    }

    ghost function InHand(): Hand
      reads this
    {
      Hand(uses, failed)
    }

    constructor ()
      ensures InHand() == EMPTY_HAND
      ensures forall world :: Valid(world)
    {
      seen, failed := map[], 0;
      uses := [];
    }

    method NoteFailure(ghost world: World)
      requires Valid(world)
      modifies this
      ensures Valid(world) && InHand() == Noted(old(InHand()), true)
    {
      failed := failed + 1;
    }

    /** The object, from the cache or the store; `purpose` is what the caller wants it for. */
    method Get(world: World, id: ObjectId, ghost purpose: Purpose)
      returns (r: Result<seq<byte>, ReadError>, missed: bool)
      requires Valid(world) && Target(purpose) == id
      modifies this
      ensures Valid(world)
      ensures Answer(InHand(), r, missed) == Asked(world, old(InHand()), purpose)
    {
      if id in seen {
        uses := uses + [Use(purpose, false)];
        OneMoreUse(uses[..|uses| - 1], Use(purpose, false));
        return seen[id], false;
      }
      if failed >= MAX_FAILED_FETCHES_PER_REQUEST {
        return Err(SlowDown), false;
      }
      r, missed := world.store(id), true;
      if r.Err? {
        failed := failed + 1;
      }
      OneMoreUse(uses, Use(purpose, true));
      uses := uses + [Use(purpose, true)];
      seen := seen[id := r];
    }
  }

  lemma OneMoreUse(uses: seq<Use>, u: Use)
    ensures Gets(uses + [u]) == Gets(uses) + if u.missed then [Target(u.purpose)] else []
  {
    assert (uses + [u])[..|uses|] == uses;
  }

  method OneBatch(objects: FetchedObjects, world: World, slice: Slicer, batch: IndexedBatch) returns (f: Fetched)
    requires objects.Valid(world)
    modifies objects
    ensures objects.Valid(world)
    ensures (objects.InHand(), f) == BatchFetched(world, slice, old(objects.InHand()), batch)
  {
    var got, missed := objects.Get(world, IdOf(batch), ForBatch(batch, slice));
    if got.Err? {
      return Fetched(got, 0, missed);
    }
    var cost := Cost(got, missed);
    if batch.Inline? {
      return Fetched(got, cost, missed);
    }
    var sliced := slice(got.value);
    if missed && sliced.Err? {
      objects.NoteFailure(world);
    }
    f := Fetched(sliced, cost, missed);
  }

  /** The stamp is tried on what was fetched; an object that will not take it is a failure, on a miss. */
  method TryBatch(objects: FetchedObjects, world: World, slice: Slicer, batch: IndexedBatch)
    returns (outcome: Outcome, cost: nat)
    requires objects.Valid(world)
    modifies objects
    ensures objects.Valid(world)
    ensures Attempt(objects.InHand(), outcome, cost) == Tried(world, slice, old(objects.InHand()), batch)
  {
    var fetch := OneBatch(objects, world, slice, batch);
    cost := fetch.cost;
    if fetch.blob.Err? {
      return Missing(fetch.blob.error), cost;
    }
    if DecodeBatchHeader(fetch.blob.value).Err? {
      if fetch.missed {
        objects.NoteFailure(world);
      }
      return Unstampable, cost;
    }
    outcome := Whole(Rewritten(fetch.blob.value, batch.baseOffset, 0));
  }

  method ReadPage(objects: FetchedObjects, world: World, slice: Slicer, page: seq<IndexedBatch>, before: nat, allowance: Allowance)
    returns (r: Result<Read, ReadFailure>)
    requires objects.Valid(world)
    modifies objects
    ensures objects.Valid(world)
    ensures Done(objects.InHand(), r) == PageRead(world, slice, old(objects.InHand()), page, allowance, before, [])
  {
    hide Tried, FetchedObjects.Valid;
    var fetched: nat, records := before, [];
    ghost var whole := PageRead(world, slice, objects.InHand(), page, allowance, before, []);
    assert page[0..] == page;
    for i := 0 to |page|
      invariant objects.Valid(world)
      invariant PageRead(world, slice, objects.InHand(), page[i..], allowance, fetched, records) == whole
    {
      assert page[i..][0] == page[i] && page[i..][1..] == page[i + 1..];
      var over := Max(fetched, |records|) >= allowance.bytes;
      if over && !(records == [] && allowance.mayOvershoot) {
        return Ok(Read(records, fetched));
      }
      var outcome, cost := TryBatch(objects, world, slice, page[i]);
      fetched := fetched + cost;
      match outcome
      case Missing(error) =>
        if records != [] {
          return Ok(Read(records, fetched));
        }
        return Err(ReadFailure(error, fetched));
      case Unstampable =>
        return Err(ReadFailure(IndexObjectMismatch, fetched));
      case Whole(blob) =>
        records := records + blob;
    }
    r := Ok(Read(records, fetched));
  }

  method ResolveManifest(objects: FetchedObjects, world: World, manifest: ObjectKey, start: i64, upto: i64)
    returns (r: Result<seq<IndexedBatch>, ReadError>, cost: nat)
    requires objects.Valid(world)
    modifies objects
    ensures objects.Valid(world)
    ensures Tier(objects.InHand(), r, cost)
         == Resolved(world, old(objects.InHand()), manifest, start, upto, MAX_MANIFEST_HOPS, 0)
  {
    hide Asked, Cost, PositionOf, BatchesBelow, FetchedObjects.Valid;
    var key := manifest;
    cost := 0;
    ghost var whole := Resolved(world, objects.InHand(), manifest, start, upto, MAX_MANIFEST_HOPS, 0);
    for hop := 0 to MAX_MANIFEST_HOPS
      invariant objects.Valid(world)
      invariant Resolved(world, objects.InHand(), key, start, upto, MAX_MANIFEST_HOPS - hop, cost) == whole
    {
      var bytes, missed := objects.Get(world, ObjectId(key, Full), ForManifest(key));
      cost := cost + Cost(bytes, missed);
      if bytes.Err? {
        return Err(bytes.error), cost;
      }
      var parsed := world.parse(bytes.value);
      if parsed.Err? {
        return Err(parsed.error), cost;
      }
      var at := PositionOf(parsed.value, start);
      if at.Some? {
        return Ok(BatchesBelow(parsed.value.entries[at.value..], upto, MAX_BATCHES_PER_PAGE)), cost;
      }
      var older := parsed.value.entries != [] && start < parsed.value.entries[0].baseOffset;
      if parsed.value.previous.None? || !older {
        return Ok([]), cost;
      }
      key := parsed.value.previous.value;
    }
    r := Err(IndexObjectMismatch);
  }

  method ReadPartition(objects: FetchedObjects, world: World, p: PartitionRead) returns (r: Result<Read, ReadFailure>)
    requires objects.Valid(world)
    modifies objects
    ensures objects.Valid(world)
    ensures Done(objects.InHand(), r) == PartitionDone(world, old(objects.InHand()), p)
  {
    hide PageRead, Resolved, FetchedObjects.Valid;
    var fetched: nat, older := 0, [];
    var canFetch := p.allowance.bytes != 0 || p.allowance.mayOvershoot;
    if p.manifest.Some? && p.start < p.manifest.value.1 && canFetch {
      var resolved, cost := ResolveManifest(objects, world, p.manifest.value.0, p.start, p.manifest.value.1);
      fetched := cost;
      if resolved.Err? {
        return Err(ReadFailure(resolved.error, fetched));
      }
      older := resolved.value;
    }
    if p.indexed.Err? {
      return Err(ReadFailure(p.indexed.error, fetched));
    }
    r := ReadPage(objects, world, p.slice, older + p.indexed.value, fetched, p.allowance);
  }

  /** Every partition of a request in turn, over one set of objects. */
  method ServeReads(world: World, asked: seq<PartitionRead>) returns (results: seq<Result<Read, ReadFailure>>)
    ensures results == Answers(world, asked)
  {
    hide PartitionDone, FetchedObjects.Valid;
    var objects := new FetchedObjects();
    results := [];
    for i := 0 to |asked|
      invariant fresh(objects) && objects.Valid(world) && objects.InHand() == HandAfter(world, asked[..i])
      invariant results == Answers(world, asked[..i])
    {
      assert asked[..i + 1][..i] == asked[..i] && asked[..i + 1][i] == asked[i];
      var r := ReadPartition(objects, world, asked[i]);
      results := results + [r];
    }
    assert asked[..|asked|] == asked;
  }
}
