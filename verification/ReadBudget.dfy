/**
 What the read path guarantees, for every store, every request and every point in it: what is
 charged, what bounds it, what an answer holds, and which failures the cap hears of.
 */
module ReadBudget {
  import opened Bytes
  import opened RecordBatch
  import opened ObjectIndex
  import opened ReadPath

  // ---------------------------------------------------------------------------
  // What an object was good for

  ghost function Size(world: World, id: ObjectId): nat {
    if world.store(id).Ok? then |world.store(id).value| else 0
  }

  /** The store holds the batch, its partition can open it, and it takes the stamp. */
  predicate Readable(world: World, slice: Slicer, batch: IndexedBatch) {
    var stored := world.store(IdOf(batch));
    && stored.Ok?
    && Opened(slice, batch, stored.value).Ok?
    && DecodeBatchHeader(Opened(slice, batch, stored.value).value).Ok?
  }

  /** The manifest is there and is not one. */
  predicate Unparsable(world: World, key: ObjectKey) {
    world.store(ObjectId(key, Full)).Ok? && world.parse(world.store(ObjectId(key, Full)).value).Err?
  }

  /** The object cannot serve the purpose it was wanted for. */
  ghost predicate Spoiled(world: World, p: Purpose) {
    match p
    case ForManifest(key) => world.store(Target(p)).Err? || Unparsable(world, key)
    case ForBatch(batch, slice) => !Readable(world, slice, batch)
  }

  ghost predicate BadManifest(world: World, p: Purpose) {
    p.ForManifest? && Unparsable(world, p.key)
  }

  /** The failures the cap is about: a GET whose object could not serve, an unparsable manifest aside. */
  ghost predicate Counts(world: World, u: Use) {
    u.missed && Spoiled(world, u.purpose) && !BadManifest(world, u.purpose)
  }

  ghost function Counted(world: World, uses: seq<Use>): nat {
    if uses == [] then 0
    else Counted(world, uses[..|uses| - 1]) + if Counts(world, uses[|uses| - 1]) then 1 else 0
  }

  /** The bytes the store delivered. */
  ghost function Delivered(world: World, uses: seq<Use>): nat {
    if uses == [] then 0
    else
      var last := uses[|uses| - 1];
      Delivered(world, uses[..|uses| - 1]) + if last.missed then Size(world, Target(last.purpose)) else 0
  }

  ghost predicate Distinct(gets: seq<ObjectId>) {
    forall i, j | 0 <= i < j < |gets| :: gets[i] != gets[j]
  }

  // ---------------------------------------------------------------------------
  // What every operation keeps

  /** No object twice, the counter is exactly the failures that count, and it never passes the cap. */
  ghost predicate Good(world: World, h: Hand) {
    && Distinct(Gets(h.uses))
    && h.failed == Counted(world, h.uses) <= MAX_FAILED_FETCHES_PER_REQUEST
    && forall u | u in h.uses :: Target(u.purpose) in Gets(h.uses)
  }

  lemma OneMore(world: World, uses: seq<Use>, u: Use)
    ensures Counted(world, uses + [u]) == Counted(world, uses) + if Counts(world, u) then 1 else 0
    ensures Delivered(world, uses + [u]) == Delivered(world, uses) + if u.missed then Size(world, Target(u.purpose)) else 0
  {
    assert (uses + [u])[..|uses|] == uses;
  }

  /** The hand after one use that was or was not a miss, with its failure counted. */
  lemma UseKeepsGood(world: World, h: Hand, u: Use)
    requires Good(world, h)
    requires if u.missed then Target(u.purpose) !in Gets(h.uses) else Target(u.purpose) in Gets(h.uses)
    requires u.missed ==> h.failed < MAX_FAILED_FETCHES_PER_REQUEST
    ensures Good(world, Hand(h.uses + [u], h.failed + if Counts(world, u) then 1 else 0))
  {
    OneMoreUse(h.uses, u);
    OneMore(world, h.uses, u);
    assert u.missed || !Counts(world, u);
    hide Counted, Counts, Gets, Distinct;
    if u.missed {
      DistinctGrows(Gets(h.uses), Target(u.purpose));
    }
  }

  lemma DistinctGrows(gets: seq<ObjectId>, id: ObjectId)
    ensures Distinct(gets + [id]) <==> Distinct(gets) && id !in gets
  {
    var more := gets + [id];
    assert more[|gets|] == id && forall i | 0 <= i < |gets| :: more[i] == gets[i];
  }

  /** What is new in `after`: nothing, or one use for this purpose. */
  ghost predicate Adds(before: seq<Use>, after: seq<Use>, p: Purpose) {
    after == before || after == before + [Use(p, true)] || after == before + [Use(p, false)]
  }

  lemma ManifestAskedKeeps(world: World, h: Hand, key: ObjectKey)
    requires Good(world, h)
    ensures var a := Asked(world, h, ForManifest(key));
      && Good(world, a.hand)
      && Delivered(world, a.hand.uses) == Delivered(world, h.uses) + Cost(a.r, a.missed)
      && Adds(h.uses, a.hand.uses, ForManifest(key))
      && (a.r.Ok? ==> a.r == world.store(ObjectId(key, Full)))
      && |Gets(a.hand.uses)| <= |Gets(h.uses)| + 1
  {
    var a := Asked(world, h, ForManifest(key));
    if a.hand != h {
      var u := Use(ForManifest(key), a.missed);
      OneMoreUse(h.uses, u);
      OneMore(world, h.uses, u);
      UseKeepsGood(world, h, u);
    }
  }

  /** The blob a reader gets: the batch stamped with its offset. */
  function StampOf(world: World, slice: Slicer, batch: IndexedBatch): seq<byte>
    requires Readable(world, slice, batch)
  {
    Rewritten(Opened(slice, batch, world.store(IdOf(batch)).value).value, batch.baseOffset, 0)
  }

  lemma TriedKeeps(world: World, slice: Slicer, h: Hand, batch: IndexedBatch)
    requires Good(world, h)
    ensures var t := Tried(world, slice, h, batch);
      && Good(world, t.hand)
      && Delivered(world, t.hand.uses) == Delivered(world, h.uses) + t.cost
      && t.cost <= Size(world, IdOf(batch))
      && Adds(h.uses, t.hand.uses, ForBatch(batch, slice))
  {
    hide Good, Delivered, Gets, Counts, Asked, Tried, Size;
    var a := Asked(world, h, ForBatch(batch, slice));
    TriedCost(world, slice, h, batch);
    if a.hand != h {
      AskedOnce(world, h, ForBatch(batch, slice));
      TriedHand(world, slice, h, batch);
      OneUse(world, h, Use(ForBatch(batch, slice), a.missed));
    } else {
      TriedNothing(world, slice, h, batch);
    }
  }

  lemma OneUse(world: World, h: Hand, u: Use)
    requires Good(world, h)
    requires if u.missed then Target(u.purpose) !in Gets(h.uses) && h.failed < MAX_FAILED_FETCHES_PER_REQUEST
             else Target(u.purpose) in Gets(h.uses)
    ensures var after := Hand(h.uses + [u], h.failed + if Counts(world, u) then 1 else 0);
      && Good(world, after)
      && Delivered(world, after.uses) == Delivered(world, h.uses) + if u.missed then Size(world, Target(u.purpose)) else 0
  {
    hide Good, Delivered, Gets, Counts, Counted, Size;
    UseKeepsGood(world, h, u);
    OneMore(world, h.uses, u);
  }

  lemma TriedCost(world: World, slice: Slicer, h: Hand, batch: IndexedBatch)
    ensures Tried(world, slice, h, batch).cost ==
      if Asked(world, h, ForBatch(batch, slice)).missed then Size(world, IdOf(batch)) else 0
  {
    hide Gets;
  }

  /** Past the cap an object that is not in hand is not even asked for. */
  lemma TriedNothing(world: World, slice: Slicer, h: Hand, batch: IndexedBatch)
    requires Asked(world, h, ForBatch(batch, slice)).hand == h
    ensures Tried(world, slice, h, batch).hand == h && !Asked(world, h, ForBatch(batch, slice)).missed
  {
    hide Gets;
    assert |h.uses + [Use(ForBatch(batch, slice), false)]| != |h.uses|;
  }

  lemma AskedOnce(world: World, h: Hand, p: Purpose)
    requires Asked(world, h, p).hand != h
    ensures if Asked(world, h, p).missed then Target(p) !in Gets(h.uses) && h.failed < MAX_FAILED_FETCHES_PER_REQUEST
            else Target(p) in Gets(h.uses)
  {
    hide Gets;
  }

  /** The counter moves by one exactly when a fetched object could not serve. */
  lemma TriedHand(world: World, slice: Slicer, h: Hand, batch: IndexedBatch)
    requires Asked(world, h, ForBatch(batch, slice)).hand != h
    ensures var u := Use(ForBatch(batch, slice), Asked(world, h, ForBatch(batch, slice)).missed);
      Tried(world, slice, h, batch).hand == Hand(h.uses + [u], h.failed + if Counts(world, u) then 1 else 0)
  {
    hide Gets;
  }

  /** A batch comes back whole exactly when the store's is readable and the cap lets it be asked for. */
  lemma TriedIsWhole(world: World, slice: Slicer, h: Hand, batch: IndexedBatch)
    ensures var t := Tried(world, slice, h, batch);
      && (t.outcome.Whole? <==>
            Readable(world, slice, batch)
            && (IdOf(batch) in Gets(h.uses) || h.failed < MAX_FAILED_FETCHES_PER_REQUEST))
      && (t.outcome.Whole? ==> t.outcome.blob == StampOf(world, slice, batch) && t.outcome.blob != [])
  {
    hide Gets;
  }

  // ---------------------------------------------------------------------------
  // One page

  ghost predicate OnPage(p: Purpose, slice: Slicer, page: seq<IndexedBatch>) {
    p.ForBatch? && p.slice == slice && p.batch in page
  }

  function FetchedBy(r: Result<Read, ReadFailure>): nat {
    match r case Ok(read) => read.fetched case Err(failure) => failure.fetched
  }

  /** What was charged is what was delivered, and nothing was touched but the page's own objects. */
  lemma {:induction false} PageKeeps(world: World, slice: Slicer, h: Hand, page: seq<IndexedBatch>, allowance: Allowance,
                                     fetched: nat, records: seq<byte>)
    requires Good(world, h)
    ensures var d := PageRead(world, slice, h, page, allowance, fetched, records);
      && Good(world, d.hand)
      && Delivered(world, d.hand.uses) + fetched == Delivered(world, h.uses) + FetchedBy(d.r)
      && forall u | u in d.hand.uses :: u in h.uses || OnPage(u.purpose, slice, page)
    decreases |page|
  {
    hide Good, Delivered, Tried;
    if page != [] && !Spent(allowance, fetched, records) {
      var t := Tried(world, slice, h, page[0]);
      TriedKeeps(world, slice, h, page[0]);
      if t.outcome.Whole? {
        PageKeeps(world, slice, t.hand, page[1..], allowance, fetched + t.cost, records + t.outcome.blob);
      }
    }
  }

  /** Only one object can take a page past its bound: the one that crosses it. */
  lemma {:induction false} PageBudget(world: World, slice: Slicer, h: Hand, page: seq<IndexedBatch>, allowance: Allowance,
                                      fetched: nat, records: seq<byte>, bound: nat, slack: nat)
    requires Good(world, h) && allowance.bytes <= bound && fetched <= bound + slack
    requires records == [] ==> fetched <= bound
    ensures var d := PageRead(world, slice, h, page, allowance, fetched, records);
      || FetchedBy(d.r) <= bound + slack
      || exists b | b in page :: FetchedBy(d.r) <= bound + Size(world, IdOf(b))
    decreases |page|
  {
    hide Good, Delivered, Tried, Size, IdOf, Readable, StampOf, Gets;
    if page != [] && !Spent(allowance, fetched, records) {
      var t := Tried(world, slice, h, page[0]);
      TriedKeeps(world, slice, h, page[0]);
      TriedIsWhole(world, slice, h, page[0]);
      assert fetched <= bound && page[0] in page;
      assert fetched + t.cost <= bound + Size(world, IdOf(page[0]));
      if t.outcome.Whole? {
        assert forall b | b in page[1..] :: b in page;
        PageBudget(world, slice, t.hand, page[1..], allowance, fetched + t.cost, records + t.outcome.blob,
                   bound, Size(world, IdOf(page[0])));
      }
    }
  }

  /** The batches one after another, each whole and stamped. */
  ghost function Stamped(world: World, slice: Slicer, page: seq<IndexedBatch>): seq<byte>
    requires forall b | b in page :: Readable(world, slice, b)
  {
    if page == [] then [] else StampOf(world, slice, page[0]) + Stamped(world, slice, page[1..])
  }

  /** `records` are the first `k` batches of the page after what was in hand, and there was a reason to stop. */
  ghost predicate FrontOf(world: World, slice: Slicer, page: seq<IndexedBatch>, allowance: Allowance, had: seq<byte>,
                        d: Done, k: nat) {
    && k <= |page| && (forall b | b in page[..k] :: Readable(world, slice, b))
    && d.r.Ok? && d.r.value.records == had + Stamped(world, slice, page[..k])
    && (k < |page| ==>
          || Spent(allowance, d.r.value.fetched, d.r.value.records)
          || !Readable(world, slice, page[k])
          || d.hand.failed >= MAX_FAILED_FETCHES_PER_REQUEST)
  }

  lemma {:induction false} PageIsAFront(world: World, slice: Slicer, h: Hand, page: seq<IndexedBatch>, allowance: Allowance,
                                     fetched: nat, records: seq<byte>) returns (k: nat)
    requires PageRead(world, slice, h, page, allowance, fetched, records).r.Ok?
    ensures FrontOf(world, slice, page, allowance, records, PageRead(world, slice, h, page, allowance, fetched, records), k)
    ensures page != [] && records == [] && !Spent(allowance, fetched, records) ==> k >= 1
    decreases |page|
  {
    hide Tried, StampOf, Readable;
    if page == [] || Spent(allowance, fetched, records) {
      k := 0;
      assert records + [] == records;
    } else {
      var t := Tried(world, slice, h, page[0]);
      TriedIsWhole(world, slice, h, page[0]);
      if t.outcome.Whole? {
        var rest := PageIsAFront(world, slice, t.hand, page[1..], allowance, fetched + t.cost, records + t.outcome.blob);
        k := rest + 1;
        OneBatchMore(world, slice, page, rest, records);
      } else {
        k := 0;
        assert records + [] == records;
        CapStays(world, slice, h, page[0]);
      }
    }
  }

  lemma OneBatchMore(world: World, slice: Slicer, page: seq<IndexedBatch>, rest: nat, records: seq<byte>)
    requires page != [] && rest < |page| && Readable(world, slice, page[0])
    requires forall b | b in page[1..][..rest] :: Readable(world, slice, b)
    ensures forall b | b in page[..rest + 1] :: Readable(world, slice, b)
    ensures records + StampOf(world, slice, page[0]) + Stamped(world, slice, page[1..][..rest])
         == records + Stamped(world, slice, page[..rest + 1])
    ensures rest + 1 < |page| ==> page[rest + 1] == page[1..][rest]
  {
    hide StampOf, Readable;
    assert page[..rest + 1] == [page[0]] + page[1..][..rest];
    assert page[..rest + 1][1..] == page[1..][..rest];
    Associates(records, StampOf(world, slice, page[0]), Stamped(world, slice, page[1..][..rest]));
  }

  lemma Associates(a: seq<byte>, b: seq<byte>, c: seq<byte>)
    ensures a + b + c == a + (b + c)
  {}

  /** The store holds the batch and its partition can open it. */
  predicate Opens(world: World, slice: Slicer, batch: IndexedBatch) {
    var stored := world.store(IdOf(batch));
    stored.Ok? && Opened(slice, batch, stored.value).Ok?
  }

  /** A batch that fails the whole read: out of reach with nothing in hand yet, or there and not a batch. */
  ghost predicate FailsTheRead(world: World, slice: Slicer, h: Hand, batch: IndexedBatch, nothingYet: bool) {
    if Opens(world, slice, batch) && (IdOf(batch) in Gets(h.uses) || h.failed < MAX_FAILED_FETCHES_PER_REQUEST)
    then !Readable(world, slice, batch)
    else nothingYet
  }

  /** The batches before `k` are read whole, something is left to spend, and the next one fails the read. */
  ghost predicate FailsAt(world: World, slice: Slicer, h: Hand, page: seq<IndexedBatch>, allowance: Allowance,
                          fetched: nat, records: seq<byte>, k: nat) {
    && k < |page|
    && var d := PageRead(world, slice, h, page[..k], allowance, fetched, records);
       && FrontOf(world, slice, page[..k], allowance, records, d, k)
       && !Spent(allowance, d.r.value.fetched, d.r.value.records)
       && FailsTheRead(world, slice, d.hand, page[k], d.r.value.records == [])
  }

  lemma TriedFails(world: World, slice: Slicer, h: Hand, batch: IndexedBatch, nothingYet: bool)
    ensures var outcome := Tried(world, slice, h, batch).outcome;
      FailsTheRead(world, slice, h, batch, nothingYet) <==> outcome.Unstampable? || (outcome.Missing? && nothingYet)
  {
    hide Gets;
  }

  lemma FailsAtFirst(world: World, slice: Slicer, h: Hand, page: seq<IndexedBatch>, allowance: Allowance,
                     fetched: nat, records: seq<byte>)
    ensures FailsAt(world, slice, h, page, allowance, fetched, records, 0)
      <==> page != [] && !Spent(allowance, fetched, records) && FailsTheRead(world, slice, h, page[0], records == [])
  {
    hide FailsTheRead, Spent;
    if page != [] {
      assert page[..0] == [] && records + [] == records;
    }
  }

  /** Past the first batch, a read fails where the rest of it does. */
  lemma FailsAtLater(world: World, slice: Slicer, h: Hand, page: seq<IndexedBatch>, allowance: Allowance,
                     fetched: nat, records: seq<byte>, k: nat)
    requires 0 < k < |page|
    ensures var t := Tried(world, slice, h, page[0]);
      FailsAt(world, slice, h, page, allowance, fetched, records, k)
      <==> !Spent(allowance, fetched, records) && t.outcome.Whole?
           && FailsAt(world, slice, t.hand, page[1..], allowance, fetched + t.cost, records + t.outcome.blob, k - 1)
  {
    hide FailsTheRead, Spent, Tried, StampOf, Readable;
    var t := Tried(world, slice, h, page[0]);
    var front, rest := page[..k], page[1..][..k - 1];
    assert front[0] == page[0] && front[1..] == rest && page[1..][k - 1] == page[k];
    assert front[..k] == front && rest[..k - 1] == rest;
    TriedIsWhole(world, slice, h, page[0]);
    if forall b | b in front :: Readable(world, slice, b) {
      StampIsThere(world, slice, page[0]);
      assert |records + Stamped(world, slice, front)| > |records|;
    }
    if t.outcome.Whole? {
      FrontSteps(world, slice, page, k, records);
      assert !Spent(allowance, fetched, records) ==>
        PageRead(world, slice, h, front, allowance, fetched, records)
          == PageRead(world, slice, t.hand, rest, allowance, fetched + t.cost, records + t.outcome.blob);
    }
  }

  lemma StampIsThere(world: World, slice: Slicer, batch: IndexedBatch)
    requires Readable(world, slice, batch)
    ensures StampOf(world, slice, batch) != []
  {}

  lemma FrontSteps(world: World, slice: Slicer, page: seq<IndexedBatch>, k: nat, records: seq<byte>)
    requires 0 < k < |page| && Readable(world, slice, page[0])
    ensures var front, rest := page[..k], page[1..][..k - 1];
      && ((forall b | b in front :: Readable(world, slice, b)) <==> (forall b | b in rest :: Readable(world, slice, b)))
      && ((forall b | b in front :: Readable(world, slice, b)) ==>
            records + Stamped(world, slice, front) == records + StampOf(world, slice, page[0]) + Stamped(world, slice, rest))
  {
    hide StampOf, Readable;
    assert page[..k] == [page[0]] + page[1..][..k - 1];
    if forall b | b in page[1..][..k - 1] :: Readable(world, slice, b) {
      OneBatchMore(world, slice, page, k - 1, records);
    }
  }

  /** A page's read fails exactly when one of its batches fails it. */
  lemma {:induction false} PageFails(world: World, slice: Slicer, h: Hand, page: seq<IndexedBatch>, allowance: Allowance,
                                     fetched: nat, records: seq<byte>)
    ensures PageRead(world, slice, h, page, allowance, fetched, records).r.Err?
      <==> exists k: nat | k < |page| :: FailsAt(world, slice, h, page, allowance, fetched, records, k)
    decreases |page|
  {
    hide FailsAt, FailsTheRead, Tried;
    FailsAtFirst(world, slice, h, page, allowance, fetched, records);
    forall k: nat | 0 < k < |page|
      ensures var t := Tried(world, slice, h, page[0]);
        FailsAt(world, slice, h, page, allowance, fetched, records, k)
        <==> !Spent(allowance, fetched, records) && t.outcome.Whole?
             && FailsAt(world, slice, t.hand, page[1..], allowance, fetched + t.cost, records + t.outcome.blob, k - 1)
    {
      FailsAtLater(world, slice, h, page, allowance, fetched, records, k);
    }
    if page != [] && !Spent(allowance, fetched, records) {
      var t := Tried(world, slice, h, page[0]);
      TriedFails(world, slice, h, page[0], records == []);
      if t.outcome.Whole? {
        var rest, charged, held := page[1..], fetched + t.cost, records + t.outcome.blob;
        PageFails(world, slice, t.hand, rest, allowance, charged, held);
        if k: nat :| k < |rest| && FailsAt(world, slice, t.hand, rest, allowance, charged, held, k) {
          assert FailsAt(world, slice, h, page, allowance, fetched, records, k + 1);
        }
      }
    }
  }

  lemma CapStays(world: World, slice: Slicer, h: Hand, batch: IndexedBatch)
    ensures Tried(world, slice, h, batch).hand.failed >= h.failed
  {
    hide Gets;
  }

  // ---------------------------------------------------------------------------
  // The manifest tier

  /** The links a lookup follows, read off the store itself. */
  ghost function Links(world: World, key: ObjectKey, start: i64, upto: i64, hops: nat): seq<ObjectKey>
    decreases hops
  {
    if hops == 0 then [] else [key] + match Said(world, key, start, upto)
                                      case Some(Before(link)) => Links(world, link, start, upto, hops - 1)
                                      case _ => []
  }

  /** What the manifest under `key` says, if it is one. */
  ghost function Said(world: World, key: ObjectKey, start: i64, upto: i64): Option<Verdict> {
    var stored := world.store(ObjectId(key, Full));
    if stored.Err? || world.parse(stored.value).Err? then None
    else Some(Judged(world.parse(stored.value).value, start, upto))
  }

  /** The batches the chain names, read off the store itself. */
  ghost function ChainPage(world: World, key: ObjectKey, start: i64, upto: i64, hops: nat): seq<IndexedBatch>
    decreases hops
  {
    if hops == 0 then [] else match Said(world, key, start, upto)
                              case Some(Here(page)) => page
                              case Some(Before(link)) => ChainPage(world, link, start, upto, hops - 1)
                              case _ => []
  }

  ghost predicate OnChain(p: Purpose, links: seq<ObjectKey>) {
    p.ForManifest? && p.key in links
  }

  /** The tier touches links of its own chain only, pays for them, and answers what the chain says. */
  lemma {:induction false} ResolvedKeeps(world: World, h: Hand, key: ObjectKey, start: i64, upto: i64, hops: nat, cost: nat)
    requires Good(world, h)
    ensures var t := Resolved(world, h, key, start, upto, hops, cost);
      && Good(world, t.hand)
      && Delivered(world, t.hand.uses) + cost == Delivered(world, h.uses) + t.cost
      && (forall u | u in t.hand.uses :: u in h.uses || OnChain(u.purpose, Links(world, key, start, upto, hops)))
      && |Gets(t.hand.uses)| <= |Gets(h.uses)| + hops
      && (t.batches.Ok? ==> t.batches.value == ChainPage(world, key, start, upto, hops))
    decreases hops
  {
    hide Good, Delivered, Gets, Asked, Judged;
    if hops > 0 {
      ManifestAskedKeeps(world, h, key);
      var a := Asked(world, h, ForManifest(key));
      var charged := cost + Cost(a.r, a.missed);
      if a.r.Ok? && world.parse(a.r.value).Ok? {
        var verdict := Judged(world.parse(a.r.value).value, start, upto);
        if verdict.Before? {
          ResolvedKeeps(world, a.hand, verdict.link, start, upto, hops - 1, charged);
        }
      }
    }
  }

  ghost function LinksOf(world: World, p: PartitionRead): seq<ObjectKey> {
    if Consults(p) then Links(world, p.manifest.value.0, p.start, p.manifest.value.1, MAX_MANIFEST_HOPS) else []
  }

  ghost function OlderPage(world: World, p: PartitionRead): seq<IndexedBatch> {
    if Consults(p) then ChainPage(world, p.manifest.value.0, p.start, p.manifest.value.1, MAX_MANIFEST_HOPS) else []
  }

  /** What the chain names lies below what the index names, and begins with the batch that holds the offset. */
  lemma {:induction false} ChainPageIsOlder(world: World, key: ObjectKey, start: i64, upto: i64, hops: nat)
    requires start < upto
    ensures var page := ChainPage(world, key, start, upto, hops);
      && |page| <= MAX_BATCHES_PER_PAGE && (forall b | b in page :: b.Inline? && b.baseOffset < upto)
      && (page != [] ==> page[0].baseOffset <= start < page[0].baseOffset + page[0].recordCount)
    decreases hops
  {
    if hops > 0 {
      var said := Said(world, key, start, upto);
      if said.Some? && said.value.Before? {
        ChainPageIsOlder(world, said.value.link, start, upto, hops - 1);
      }
    }
  }

  lemma OlderTierKeeps(world: World, h: Hand, p: PartitionRead)
    requires Good(world, h)
    ensures var tier := OlderTier(world, h, p);
      && Good(world, tier.hand)
      && Delivered(world, tier.hand.uses) == Delivered(world, h.uses) + tier.cost
      && (forall u | u in tier.hand.uses :: u in h.uses || OnChain(u.purpose, LinksOf(world, p)))
      && |Gets(tier.hand.uses)| <= |Gets(h.uses)| + 16
      && (tier.batches.Ok? ==> tier.batches.value == OlderPage(world, p))
      && (!Consults(p) ==> tier.hand == h && tier.cost == 0)
  {
    hide Good, Delivered, Gets, Resolved, Links, ChainPage;
    if Consults(p) {
      ResolvedKeeps(world, h, p.manifest.value.0, p.start, p.manifest.value.1, MAX_MANIFEST_HOPS, 0);
    }
  }

  // ---------------------------------------------------------------------------
  // One partition's read

  /** The page of one partition: what its manifests name, then what its index names. */
  ghost function PageOf(world: World, p: PartitionRead): seq<IndexedBatch> {
    OlderPage(world, p) + if p.indexed.Ok? then p.indexed.value else []
  }

  /** Everything one partition's read may touch. */
  ghost predicate Names(world: World, p: PartitionRead, x: Purpose) {
    OnChain(x, LinksOf(world, p)) || OnPage(x, p.slice, PageOf(world, p))
  }

  /** A read is charged what the store delivered for it, and touches only what its partition names. */
  lemma PartitionKeeps(world: World, h: Hand, p: PartitionRead)
    requires Good(world, h)
    ensures var d := PartitionDone(world, h, p);
      && Good(world, d.hand)
      && Delivered(world, d.hand.uses) == Delivered(world, h.uses) + FetchedBy(d.r)
      && forall u | u in d.hand.uses :: u in h.uses || Names(world, p, u.purpose)
  {
    hide Good, Delivered, OlderTier, PageRead, LinksOf, OlderPage;
    OlderTierKeeps(world, h, p);
    var tier := OlderTier(world, h, p);
    if tier.batches.Ok? && p.indexed.Ok? {
      PageKeeps(world, p.slice, tier.hand, PageOf(world, p), p.allowance, tier.cost, []);
    }
  }

  /**
   The budget: whatever the answer, a read fetches no more than the larger of its allowance and what
   its manifests cost, and one object of its own page besides. With no manifest to consult that cost
   is nothing.
   */
  lemma ReadStaysInBudget(world: World, h: Hand, p: PartitionRead)
    requires Good(world, h)
    ensures var tier, d := OlderTier(world, h, p), PartitionDone(world, h, p);
      var bound := Max(p.allowance.bytes, tier.cost);
      || FetchedBy(d.r) <= bound
      || (p.indexed.Ok? && exists b | b in PageOf(world, p) :: FetchedBy(d.r) <= bound + Size(world, IdOf(b)))
    ensures !Consults(p) ==> OlderTier(world, h, p).cost == 0
  {
    hide Good, Delivered, OlderTier, PageRead, OlderPage;
    OlderTierKeeps(world, h, p);
    var tier := OlderTier(world, h, p);
    if tier.batches.Ok? && p.indexed.Ok? {
      PageBudget(world, p.slice, tier.hand, PageOf(world, p), p.allowance, tier.cost, [],
                 Max(p.allowance.bytes, tier.cost), 0);
    }
  }

  /** A spent allowance with no overshoot leaves the store alone. */
  lemma SpentTouchesNothing(world: World, h: Hand, p: PartitionRead)
    requires p.allowance == Allowance(0, false)
    ensures PartitionDone(world, h, p) ==
      Done(h, if p.indexed.Err? then Err(ReadFailure(p.indexed.error, 0)) else Ok(Read([], 0)))
  {}

  /**
   An Ok answer is the first batches of the partition's page, whole and stamped, and it stopped for
   a reason: the budget, a batch that cannot be read, or the cap. With the overshoot allowed, or
   something left to spend, a nonempty page yields at least one.
   */
  lemma OkIsAPrefixOfThePage(world: World, h: Hand, p: PartitionRead) returns (k: nat)
    requires Good(world, h) && PartitionDone(world, h, p).r.Ok?
    ensures p.indexed.Ok? && FrontOf(world, p.slice, PageOf(world, p), p.allowance, [], PartitionDone(world, h, p), k)
    ensures PageOf(world, p) != [] && (p.allowance.mayOvershoot || OlderTier(world, h, p).cost < p.allowance.bytes) ==> k >= 1
  {
    hide Good, Delivered, OlderTier, PageRead, OlderPage, FrontOf;
    OlderTierKeeps(world, h, p);
    var tier := OlderTier(world, h, p);
    k := PageIsAFront(world, p.slice, tier.hand, PageOf(world, p), p.allowance, tier.cost, []);
  }

  /**
   One batch, read to the letter: a ranged read is its batch, a bundle is read whole and opened for its
   partition, and either is stamped with the offset the index gives it.
   */
  lemma OneBatchIsServed(world: World, h: Hand, p: PartitionRead, b: IndexedBatch)
    requires p.manifest.None? && p.indexed == Ok([b]) && p.allowance.bytes > 0 && h.failed < 2
    ensures var id := ObjectId(b.key, if b.Inline? then b.range else Full);
      var stored := world.store(id);
      var cost := if stored.Ok? && id !in Gets(h.uses) then |stored.value| else 0;
      PartitionDone(world, h, p).r ==
        if stored.Err? then Err(ReadFailure(stored.error, 0))
        else
          var blob := if b.Inline? then stored else p.slice(stored.value);
          if blob.Err? then Err(ReadFailure(blob.error, cost))
          else if |blob.value| < 61 || blob.value[16] != 2 then Err(ReadFailure(IndexObjectMismatch, cost))
          else Ok(Read(Rewritten(blob.value, b.baseOffset, 0), cost))
  {
    hide Gets, Rewritten, Tried;
    TriedToTheLetter(world, p.slice, h, b);
    PageOfOne(world, p.slice, h, b, p.allowance);
    assert [] + p.indexed.value == [b];
    hide PageRead;
  }

  /** Once two objects have failed, one that is not in hand is refused and not asked for. */
  lemma PastTheCap(world: World, h: Hand, p: PartitionRead, b: IndexedBatch)
    requires p.manifest.None? && p.indexed == Ok([b]) && p.allowance.bytes > 0 && h.failed >= 2
    requires ObjectId(b.key, if b.Inline? then b.range else Full) !in Gets(h.uses)
    ensures PartitionDone(world, h, p) == Done(h, Err(ReadFailure(SlowDown, 0)))
  {
    hide Gets;
    assert [] + p.indexed.value == [b];
  }

  lemma TriedToTheLetter(world: World, slice: Slicer, h: Hand, b: IndexedBatch)
    requires h.failed < 2
    ensures var id := ObjectId(b.key, if b.Inline? then b.range else Full);
      var stored, t := world.store(id), Tried(world, slice, h, b);
      && t.cost == (if stored.Ok? && id !in Gets(h.uses) then |stored.value| else 0)
      && t.outcome ==
           if stored.Err? then Missing(stored.error)
           else
             var blob := if b.Inline? then stored else slice(stored.value);
             if blob.Err? then Missing(blob.error)
             else if |blob.value| < 61 || blob.value[16] != 2 then Unstampable
             else Whole(Rewritten(blob.value, b.baseOffset, 0))
  {
    hide Gets, Rewritten;
  }

  lemma PageOfOne(world: World, slice: Slicer, h: Hand, b: IndexedBatch, allowance: Allowance)
    requires allowance.bytes > 0
    ensures var t := Tried(world, slice, h, b);
      PageRead(world, slice, h, [b], allowance, 0, []).r == match t.outcome
        case Whole(blob) => Ok(Read(blob, t.cost))
        case Missing(error) => Err(ReadFailure(error, t.cost))
        case Unstampable => Err(ReadFailure(IndexObjectMismatch, t.cost))
  {
    hide Tried;
    var t := Tried(world, slice, h, b);
    assert [b][1..] == [];
    if t.outcome.Whole? {
      assert [] + t.outcome.blob == t.outcome.blob;
      assert PageRead(world, slice, t.hand, [], allowance, t.cost, t.outcome.blob).r == Ok(Read(t.outcome.blob, t.cost));
    }
  }

  /**
   A read answers an error exactly when its manifest chain fails, its index fails, or the first batch
   it cannot read whole is the first of the page or is there and will not take the stamp. Any other
   batch that cannot be read ends the read with what was in hand.
   */
  lemma ErrIsOneOfThese(world: World, h: Hand, p: PartitionRead)
    requires Good(world, h)
    ensures var tier, page := OlderTier(world, h, p), PageOf(world, p);
      PartitionDone(world, h, p).r.Err? <==>
        || tier.batches.Err? || p.indexed.Err?
        || exists k: nat | k < |page| :: FailsAt(world, p.slice, tier.hand, page, p.allowance, tier.cost, [], k)
  {
    hide Good, Delivered, OlderTier, PageRead, OlderPage, FailsAt;
    OlderTierKeeps(world, h, p);
    var tier := OlderTier(world, h, p);
    PageFails(world, p.slice, tier.hand, PageOf(world, p), p.allowance, tier.cost, []);
  }

  // ---------------------------------------------------------------------------
  // Whole requests

  ghost function Charged(results: seq<Result<Read, ReadFailure>>): nat {
    if results == [] then 0 else Charged(results[..|results| - 1]) + FetchedBy(results[|results| - 1])
  }

  ghost predicate NamedBy(world: World, asked: seq<PartitionRead>, x: Purpose) {
    exists p | p in asked :: Names(world, p, x)
  }

  /**
   Over any request: no object is fetched twice, the bytes charged across successes and failures
   are the bytes the store delivered, and the failure counter is the number of fetched objects that
   were refused or could not be used, at most two.
   */
  lemma {:induction false} RequestKeeps(world: World, asked: seq<PartitionRead>)
    ensures var h := HandAfter(world, asked);
      && Distinct(Gets(h.uses))
      && Charged(Answers(world, asked)) == Delivered(world, h.uses)
      && h.failed == Counted(world, h.uses) <= 2
      && Good(world, h)
      && forall u | u in h.uses :: NamedBy(world, asked, u.purpose)
    decreases |asked|
  {
    if asked != [] {
      var front, p := asked[..|asked| - 1], asked[|asked| - 1];
      RequestKeeps(world, front);
      var h := HandAfter(world, front);
      PartitionKeeps(world, h, p);
      hide PartitionDone, Delivered, Gets, Counted, Distinct, Names;
      var d := PartitionDone(world, h, p);
      assert Answers(world, asked)[..|asked| - 1] == Answers(world, front);
      forall u | u in d.hand.uses ensures NamedBy(world, asked, u.purpose) {
        if u in h.uses {
          var q :| q in front && Names(world, q, u.purpose);
          assert q in asked;
        } else {
          assert p in asked;
        }
      }
    }
  }

  // ---------------------------------------------------------------------------
  // The cap, exactly

  /** The objects that failed the read that fetched them. */
  ghost function FetchFailures(world: World, uses: seq<Use>): set<ObjectId> {
    if uses == [] then {}
    else
      var last := uses[|uses| - 1];
      FetchFailures(world, uses[..|uses| - 1]) + if last.missed && Spoiled(world, last.purpose) then {Target(last.purpose)} else {}
  }

  /** Those of them that are manifests that did not parse. */
  ghost function BadManifests(world: World, uses: seq<Use>): set<ObjectId> {
    if uses == [] then {}
    else
      var last := uses[|uses| - 1];
      BadManifests(world, uses[..|uses| - 1]) + if last.missed && BadManifest(world, last.purpose) then {Target(last.purpose)} else {}
  }

  /** The objects that failed any read at all, fetched or in hand. */
  ghost function Failures(world: World, uses: seq<Use>): set<ObjectId> {
    if uses == [] then {}
    else
      var last := uses[|uses| - 1];
      Failures(world, uses[..|uses| - 1]) + if Spoiled(world, last.purpose) then {Target(last.purpose)} else {}
  }

  /** Conservation: what failed its own GET is what the counter counted and the bad manifests it did not. */
  lemma {:induction false} FailuresAddUp(world: World, uses: seq<Use>)
    requires Distinct(Gets(uses))
    ensures |FetchFailures(world, uses)| == Counted(world, uses) + |BadManifests(world, uses)|
    ensures forall id | id in FetchFailures(world, uses) || id in BadManifests(world, uses) :: id in Gets(uses)
    decreases |uses|
  {
    hide Spoiled, Gets, Distinct;
    if uses != [] {
      var front, last := uses[..|uses| - 1], uses[|uses| - 1];
      var id := Target(last.purpose);
      assert uses == front + [last];
      OneMoreUse(front, last);
      if last.missed {
        DistinctGrows(Gets(front), id);
      } else {
        assert Gets(front) + [] == Gets(front);
      }
      BadIsSpoiled(world, last.purpose);
      FailuresAddUp(world, front);
    }
  }

  lemma BadIsSpoiled(world: World, p: Purpose)
    ensures BadManifest(world, p) ==> Spoiled(world, p)
  {}

  lemma {:induction false} FailureHasUse(world: World, uses: seq<Use>, id: ObjectId) returns (u: Use)
    requires id in Failures(world, uses)
    ensures u in uses && Spoiled(world, u.purpose) && Target(u.purpose) == id
    decreases |uses|
  {
    hide Spoiled;
    var last := uses[|uses| - 1];
    if Spoiled(world, last.purpose) && Target(last.purpose) == id {
      u := last;
    } else {
      u := FailureHasUse(world, uses[..|uses| - 1], id);
    }
  }

  lemma {:induction false} GetHasUse(uses: seq<Use>, id: ObjectId) returns (u: Use)
    requires id in Gets(uses)
    ensures u in uses && u.missed && Target(u.purpose) == id
    decreases |uses|
  {
    var last := uses[|uses| - 1];
    if last.missed && Target(last.purpose) == id {
      u := last;
    } else {
      u := GetHasUse(uses[..|uses| - 1], id);
    }
  }

  lemma {:induction false} SpoiledFetchFails(world: World, uses: seq<Use>, u: Use)
    requires u in uses && u.missed && Spoiled(world, u.purpose)
    ensures Target(u.purpose) in FetchFailures(world, uses)
    decreases |uses|
  {
    hide Spoiled;
    if u != uses[|uses| - 1] {
      assert u in uses[..|uses| - 1];
      SpoiledFetchFails(world, uses[..|uses| - 1], u);
    }
  }

  lemma {:induction false} NoBadManifests(world: World, uses: seq<Use>)
    requires forall u | u in uses :: !BadManifest(world, u.purpose)
    ensures BadManifests(world, uses) == {}
    decreases |uses|
  {
    if uses != [] {
      assert uses[|uses| - 1] in uses;
      NoBadManifests(world, uses[..|uses| - 1]);
    }
  }

  /**
   The cap, exactly: over every request, the objects that fail the read that fetched them number the
   counted ones, never more than two, and the fetched manifests that do not parse besides.
   */
  lemma CapIsExact(world: World, asked: seq<PartitionRead>)
    ensures var h := HandAfter(world, asked);
      && |FetchFailures(world, h.uses)| == h.failed + |BadManifests(world, h.uses)|
      && h.failed <= 2
  {
    RequestKeeps(world, asked);
    FailuresAddUp(world, HandAfter(world, asked).uses);
  }

  /** No link that any partition's lookup would follow fails to parse. */
  ghost predicate ManifestsParse(world: World, asked: seq<PartitionRead>) {
    forall p, k | p in asked && k in LinksOf(world, p) :: !Unparsable(world, k)
  }

  /** An object that can serve one of the purposes named for it can serve them all. */
  ghost predicate Shareable(world: World, asked: seq<PartitionRead>) {
    forall x, y | NamedBy(world, asked, x) && NamedBy(world, asked, y) && Target(x) == Target(y) ::
      Spoiled(world, x) == Spoiled(world, y)
  }

  /** Where every manifest parses, at most two objects fail the read that fetched them. */
  lemma CapHoldsWhereManifestsParse(world: World, asked: seq<PartitionRead>)
    requires ManifestsParse(world, asked)
    ensures |FetchFailures(world, HandAfter(world, asked).uses)| <= 2
  {
    hide HandAfter, LinksOf, PageOf, FetchFailures, Unparsable;
    CapIsExact(world, asked);
    RequestKeeps(world, asked);
    var uses := HandAfter(world, asked).uses;
    forall u | u in uses ensures !BadManifest(world, u.purpose) {
      var p :| p in asked && Names(world, p, u.purpose);
    }
    NoBadManifests(world, uses);
  }

  /** And where objects in hand serve whoever names them, at most two objects fail anybody at all. */
  lemma CapHoldsWhereObjectsAreShareable(world: World, asked: seq<PartitionRead>)
    requires ManifestsParse(world, asked) && Shareable(world, asked)
    ensures |Failures(world, HandAfter(world, asked).uses)| <= 2
  {
    hide HandAfter, Names, Spoiled, Failures, FetchFailures, Gets;
    RequestKeeps(world, asked);
    var uses := HandAfter(world, asked).uses;
    forall id | id in Failures(world, uses) ensures id in FetchFailures(world, uses) {
      var u := FailureHasUse(world, uses, id);
      var v := GetHasUse(uses, id);
      assert NamedBy(world, asked, u.purpose) && NamedBy(world, asked, v.purpose);
      SpoiledFetchFails(world, uses, v);
    }
    Smaller(Failures(world, uses), FetchFailures(world, uses));
    CapHoldsWhereManifestsParse(world, asked);
  }

  lemma Smaller(a: set<ObjectId>, b: set<ObjectId>)
    requires forall id | id in a :: id in b
    ensures |a| <= |b|
  {
    assert a <= b;
    assert |b - a| == |b| - |a|;
  }

  // ---------------------------------------------------------------------------
  // What the cap does not hear of

  /** One GET for each partition's manifest, in order. */
  ghost function ManifestUses(asked: seq<PartitionRead>): seq<Use>
    requires forall p | p in asked :: p.manifest.Some?
  {
    if asked == [] then []
    else
      var last := asked[|asked| - 1];
      assert last in asked;
      ManifestUses(asked[..|asked| - 1]) + [Use(ForManifest(last.manifest.value.0), true)]
  }

  lemma {:induction false} ManifestGets(asked: seq<PartitionRead>)
    requires forall p | p in asked :: p.manifest.Some?
    ensures |Gets(ManifestUses(asked))| == |asked|
    ensures forall i | 0 <= i < |asked| :: Gets(ManifestUses(asked))[i] == ObjectId(asked[i].manifest.value.0, Full)
    decreases |asked|
  {
    if asked != [] {
      var front, last := asked[..|asked| - 1], asked[|asked| - 1];
      ManifestGets(front);
      assert last in asked;
      OneMoreUse(ManifestUses(front), Use(ForManifest(last.manifest.value.0), true));
    }
  }

  lemma BadFirstLink(world: World, h: Hand, key: ObjectKey, start: i64, upto: i64, hops: nat)
    requires hops > 0 && Unparsable(world, key)
    requires ObjectId(key, Full) !in Gets(h.uses) && h.failed < MAX_FAILED_FETCHES_PER_REQUEST
    ensures var t := Resolved(world, h, key, start, upto, hops, 0);
      t.batches.Err? && t.hand == h.(uses := h.uses + [Use(ForManifest(key), true)])
  {}

  /** Partitions whose manifests are all there and none of which parse, no two of them the same. */
  ghost predicate AllBadManifests(world: World, asked: seq<PartitionRead>) {
    && (forall p | p in asked :: Consults(p) && Unparsable(world, p.manifest.value.0))
    && (forall i, j | 0 <= i < j < |asked| ::
          asked[i] in asked && asked[j] in asked && asked[i].manifest.value.0 != asked[j].manifest.value.0)
  }

  /**
   However many partitions of a request name manifests that do not parse, every one of them is
   fetched, every one of those reads fails, and the cap has heard of none.
   */
  lemma {:induction false} UnparsableManifestsAreNotCapped(world: World, asked: seq<PartitionRead>)
    requires AllBadManifests(world, asked)
    ensures HandAfter(world, asked) == Hand(ManifestUses(asked), 0)
    ensures forall i | 0 <= i < |asked| :: Answers(world, asked)[i].Err?
    ensures |FetchFailures(world, HandAfter(world, asked).uses)| == |asked|
    decreases |asked|
  {
    hide Gets, Unparsable, PartitionDone, FetchFailures;
    if asked == [] {
      NothingFailed(world);
    } else {
      var front, last := asked[..|asked| - 1], asked[|asked| - 1];
      assert last in asked;
      UnparsableManifestsAreNotCapped(world, front);
      NotAmongTheManifests(world, asked);
      var key, h := last.manifest.value.0, HandAfter(world, front);
      OneBadManifest(world, h, last);
      AddsAFailure(world, h.uses, Use(ForManifest(key), true));
    }
  }

  lemma NothingFailed(world: World)
    ensures FetchFailures(world, []) == {}
  {}

  lemma NotAmongTheManifests(world: World, asked: seq<PartitionRead>)
    requires AllBadManifests(world, asked) && asked != []
    ensures var front, last := asked[..|asked| - 1], asked[|asked| - 1];
      && last in asked && Distinct(Gets(ManifestUses(front)))
      && ObjectId(last.manifest.value.0, Full) !in Gets(ManifestUses(front))
  {
    hide Gets, Unparsable, ManifestUses;
    ManifestGets(asked[..|asked| - 1]);
  }

  lemma OneBadManifest(world: World, h: Hand, p: PartitionRead)
    requires Consults(p) && Unparsable(world, p.manifest.value.0) && h.failed < MAX_FAILED_FETCHES_PER_REQUEST
    requires ObjectId(p.manifest.value.0, Full) !in Gets(h.uses)
    ensures PartitionDone(world, h, p).r.Err?
    ensures PartitionDone(world, h, p).hand == h.(uses := h.uses + [Use(ForManifest(p.manifest.value.0), true)])
  {
    hide Resolved, Gets, Unparsable;
    BadFirstLink(world, h, p.manifest.value.0, p.start, p.manifest.value.1, MAX_MANIFEST_HOPS);
  }

  lemma AddsAFailure(world: World, uses: seq<Use>, u: Use)
    requires u.missed && Spoiled(world, u.purpose) && Target(u.purpose) !in Gets(uses) && Distinct(Gets(uses))
    ensures |FetchFailures(world, uses + [u])| == |FetchFailures(world, uses)| + 1
  {
    hide Spoiled, Gets;
    FailuresAddUp(world, uses);
    assert (uses + [u])[..|uses|] == uses;
  }

  /** A partition that reads one bundle of its own, with something to spend. */
  ghost predicate ReadsBundle(p: PartitionRead, bundle: IndexedBatch) {
    !Consults(p) && p.indexed == Ok([bundle]) && p.allowance.bytes > 0
  }

  /**
   Bundles no two of which are the same object, each named by two partitions in turn: one that can
   read it and one that cannot.
   */
  ghost predicate Pairs(world: World, bundles: seq<IndexedBatch>, asked: seq<PartitionRead>) {
    && |asked| == 2 * |bundles|
    && (forall i, j | 0 <= i < j < |bundles| :: IdOf(bundles[i]) != IdOf(bundles[j]))
    && (forall i | 0 <= i < |bundles| :: Pair(world, bundles[i], asked[2 * i], asked[2 * i + 1]))
  }

  ghost predicate Pair(world: World, bundle: IndexedBatch, opens: PartitionRead, cannot: PartitionRead) {
    && ReadsBundle(opens, bundle) && ReadsBundle(cannot, bundle)
    && Readable(world, opens.slice, bundle) && !Readable(world, cannot.slice, bundle)
  }

  /**
   However many bundles in hand a later partition cannot use, each of those reads fails, the first
   partition's succeeded, and the cap has heard of none.
   */
  lemma {:induction false} FailuresInHandAreNotCapped(world: World, bundles: seq<IndexedBatch>, asked: seq<PartitionRead>)
    requires Pairs(world, bundles, asked)
    ensures InHandOnly(world, bundles, HandAfter(world, asked))
    ensures Alternate(Answers(world, asked), |bundles|)
    decreases |bundles|
  {
    hide HandAfter, Answers, PartitionDone, InHandOnly, Alternate, Pair;
    if bundles == [] {
      NothingAsked(world);
    } else {
      var n := |bundles| - 1;
      var front, opens, cannot := asked[..2 * n], asked[2 * n], asked[2 * n + 1];
      assert Pair(world, bundles[n], opens, cannot);
      assert forall i | 0 <= i < n :: Pair(world, bundles[i], front[2 * i], front[2 * i + 1]) by {
        assert forall i | 0 <= i < n :: front[2 * i] == asked[2 * i] && front[2 * i + 1] == asked[2 * i + 1];
      }
      FailuresInHandAreNotCapped(world, bundles[..n], front);
      TwoMore(world, asked);
      var h := HandAfter(world, front);
      NotYet(world, bundles, h);
      PairInHand(world, bundles, h, opens, cannot);
      var first := PartitionDone(world, h, opens);
      AlternateMore(Answers(world, front), first.r, PartitionDone(world, first.hand, cannot).r, n);
    }
  }

  /** Each bundle was fetched once, by a read it did not fail, and then failed another. */
  ghost predicate InHandOnly(world: World, bundles: seq<IndexedBatch>, h: Hand) {
    && h.failed == 0 && FetchFailures(world, h.uses) == {} && |Failures(world, h.uses)| == |bundles|
    && |Gets(h.uses)| == |bundles| && (forall i | 0 <= i < |bundles| :: Gets(h.uses)[i] == IdOf(bundles[i]))
    && (forall id | id in Failures(world, h.uses) :: id in Gets(h.uses))
  }

  /** Answered and refused by turns. */
  ghost predicate Alternate(results: seq<Result<Read, ReadFailure>>, n: nat) {
    |results| == 2 * n && forall i | 0 <= i < n :: results[2 * i].Ok? && results[2 * i + 1].Err?
  }

  lemma AlternateMore(results: seq<Result<Read, ReadFailure>>, a: Result<Read, ReadFailure>, b: Result<Read, ReadFailure>, n: nat)
    requires Alternate(results, n) && a.Ok? && b.Err?
    ensures Alternate(results + [a, b], n + 1)
  {
    var more := results + [a, b];
    forall i | 0 <= i < n + 1 ensures more[2 * i].Ok? && more[2 * i + 1].Err? {
      if i < n {
        assert more[2 * i] == results[2 * i] && more[2 * i + 1] == results[2 * i + 1];
      }
    }
  }

  lemma NothingAsked(world: World)
    ensures InHandOnly(world, [], HandAfter(world, [])) && Alternate(Answers(world, []), 0)
  {}

  lemma NotYet(world: World, bundles: seq<IndexedBatch>, h: Hand)
    requires bundles != [] && forall i, j | 0 <= i < j < |bundles| :: IdOf(bundles[i]) != IdOf(bundles[j])
    requires InHandOnly(world, bundles[..|bundles| - 1], h)
    ensures IdOf(bundles[|bundles| - 1]) !in Gets(h.uses)
  {
    hide Gets, IdOf, FetchFailures, Failures;
    assert forall i | 0 <= i < |bundles| - 1 :: bundles[..|bundles| - 1][i] == bundles[i];
  }

  lemma PairInHand(world: World, bundles: seq<IndexedBatch>, h: Hand, opens: PartitionRead, cannot: PartitionRead)
    requires bundles != [] && InHandOnly(world, bundles[..|bundles| - 1], h)
    requires Pair(world, bundles[|bundles| - 1], opens, cannot) && IdOf(bundles[|bundles| - 1]) !in Gets(h.uses)
    ensures var first := PartitionDone(world, h, opens);
      var second := PartitionDone(world, first.hand, cannot);
      first.r.Ok? && second.r.Err? && InHandOnly(world, bundles, second.hand)
  {
    hide Gets, IdOf, FetchFailures, Failures, PartitionDone, Pair;
    var n := |bundles| - 1;
    OnePair(world, h, bundles[n], opens, cannot);
    assert forall i | 0 <= i < n :: bundles[..n][i] == bundles[i];
  }

  lemma TwoMore(world: World, asked: seq<PartitionRead>)
    requires |asked| >= 2
    ensures var n := |asked| - 2;
      var first := PartitionDone(world, HandAfter(world, asked[..n]), asked[n]);
      var second := PartitionDone(world, first.hand, asked[n + 1]);
      && HandAfter(world, asked) == second.hand
      && Answers(world, asked) == Answers(world, asked[..n]) + [first.r, second.r]
  {
    hide PartitionDone, HandAfter, Answers;
    var n := |asked| - 2;
    assert asked[..n + 1][..n] == asked[..n] && asked[..n + 1][n] == asked[n];
    OneMoreAsked(world, asked);
    OneMoreAsked(world, asked[..n + 1]);
  }

  lemma OneMoreAsked(world: World, asked: seq<PartitionRead>)
    requires asked != []
    ensures var front := asked[..|asked| - 1];
      var d := PartitionDone(world, HandAfter(world, front), asked[|asked| - 1]);
      HandAfter(world, asked) == d.hand && Answers(world, asked) == Answers(world, front) + [d.r]
  {
    hide PartitionDone;
  }

  lemma OnePair(world: World, h: Hand, bundle: IndexedBatch, opens: PartitionRead, cannot: PartitionRead)
    requires Pair(world, bundle, opens, cannot) && IdOf(bundle) !in Gets(h.uses) && h.failed == 0
    requires FetchFailures(world, h.uses) == {} && forall id | id in Failures(world, h.uses) :: id in Gets(h.uses)
    ensures var first := PartitionDone(world, h, opens);
      var second := PartitionDone(world, first.hand, cannot);
      && first.r.Ok? && second.r.Err? && second.hand.failed == 0
      && Gets(second.hand.uses) == Gets(h.uses) + [IdOf(bundle)]
      && FetchFailures(world, second.hand.uses) == {}
      && Failures(world, second.hand.uses) == Failures(world, h.uses) + {IdOf(bundle)}
  {
    hide Gets, Readable, FetchFailures, Failures;
    var u, v := Use(ForBatch(bundle, opens.slice), true), Use(ForBatch(bundle, cannot.slice), false);
    BundleOpens(world, h, bundle, opens);
    OneMoreUse(h.uses, u);
    var mid := PartitionDone(world, h, opens).hand;
    BundleFails(world, mid, bundle, cannot);
    OneMoreUse(mid.uses, v);
    assert Gets(mid.uses) + [] == Gets(mid.uses);
    FailuresOfOneMore(world, h.uses, u);
    FailuresOfOneMore(world, mid.uses, v);
  }

  lemma FailuresOfOneMore(world: World, uses: seq<Use>, u: Use)
    ensures FetchFailures(world, uses + [u]) ==
      FetchFailures(world, uses) + if u.missed && Spoiled(world, u.purpose) then {Target(u.purpose)} else {}
    ensures Failures(world, uses + [u]) == Failures(world, uses) + if Spoiled(world, u.purpose) then {Target(u.purpose)} else {}
  {
    hide Spoiled;
    assert (uses + [u])[..|uses|] == uses;
  }

  lemma BundleOpens(world: World, h: Hand, bundle: IndexedBatch, p: PartitionRead)
    requires ReadsBundle(p, bundle) && Readable(world, p.slice, bundle)
    requires IdOf(bundle) !in Gets(h.uses) && h.failed == 0
    ensures PartitionDone(world, h, p).r.Ok?
    ensures PartitionDone(world, h, p).hand == h.(uses := h.uses + [Use(ForBatch(bundle, p.slice), true)])
  {
    hide Gets, Tried, Readable, Counts;
    assert [] + [bundle] == [bundle] && [bundle][1..] == [];
    TriedIsWhole(world, p.slice, h, bundle);
    TriedHandWhenReadable(world, p.slice, h, bundle);
    var t := Tried(world, p.slice, h, bundle);
    assert PageRead(world, p.slice, t.hand, [], p.allowance, t.cost, t.outcome.blob)
        == Done(t.hand, Ok(Read(t.outcome.blob, t.cost)));
    assert [] + t.outcome.blob == t.outcome.blob;
  }

  lemma TriedHandWhenReadable(world: World, slice: Slicer, h: Hand, batch: IndexedBatch)
    requires Readable(world, slice, batch) && IdOf(batch) !in Gets(h.uses) && h.failed == 0
    ensures Tried(world, slice, h, batch).hand == h.(uses := h.uses + [Use(ForBatch(batch, slice), true)])
  {
    hide Gets;
  }

  lemma BundleFails(world: World, h: Hand, bundle: IndexedBatch, p: PartitionRead)
    requires ReadsBundle(p, bundle) && !Readable(world, p.slice, bundle) && IdOf(bundle) in Gets(h.uses)
    ensures PartitionDone(world, h, p).r.Err?
    ensures PartitionDone(world, h, p).hand == h.(uses := h.uses + [Use(ForBatch(bundle, p.slice), false)])
  {
    hide Gets, Tried, Readable, Counts;
    assert [] + [bundle] == [bundle] && [bundle][1..] == [];
    TriedIsWhole(world, p.slice, h, bundle);
    TriedInHand(world, p.slice, h, bundle);
  }

  lemma TriedInHand(world: World, slice: Slicer, h: Hand, batch: IndexedBatch)
    requires IdOf(batch) in Gets(h.uses)
    ensures Tried(world, slice, h, batch).hand == h.(uses := h.uses + [Use(ForBatch(batch, slice), false)])
  {
    hide Gets;
  }
}
