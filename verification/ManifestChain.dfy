/**
 The manifest chain as a reader relies on it: over the manifests as they parse, which links a lookup
 follows, where it stops, and what it brings back.
 */
module ManifestChain {
  import opened Bytes
  import opened ObjectIndex
  import opened ReadPath

  /** These keys name these manifests in the store. */
  ghost predicate Stored(world: World, keys: seq<ObjectKey>, manifests: seq<Manifest>) {
    && |keys| == |manifests| > 0
    && forall i | 0 <= i < |keys| ::
         var stored := world.store(ObjectId(keys[i], Full));
         stored.Ok? && world.parse(stored.value) == Ok(manifests[i])
  }

  /** The manifest begins above the offset and names the one before it. */
  predicate PassesOn(m: Manifest, start: i64, previous: ObjectKey) {
    m.entries != [] && m.entries[0].baseOffset > start && m.previous == Some(previous)
  }

  /** There is nothing before it, or the offset is not before it. */
  predicate Stops(m: Manifest, start: i64) {
    m.previous.None? || m.entries == [] || m.entries[0].baseOffset <= start
  }

  /** Each manifest but the last passes the lookup on to the next. */
  ghost predicate Leads(keys: seq<ObjectKey>, manifests: seq<Manifest>, start: i64) {
    |keys| == |manifests| && forall i | 0 <= i < |keys| - 1 :: PassesOn(manifests[i], start, keys[i + 1])
  }

  /** The cap does not stand in the way: it has not been reached, or everything is in hand. */
  ghost predicate Askable(h: Hand, keys: seq<ObjectKey>) {
    h.failed < 2 || forall key | key in keys :: ObjectId(key, Full) in Gets(h.uses)
  }

  /** One use for each of these keys, in order, and nothing else. */
  ghost predicate Consulted(h: Hand, after: Hand, keys: seq<ObjectKey>) {
    && after.failed == h.failed && |after.uses| == |h.uses| + |keys| && h.uses <= after.uses
    && forall i | 0 <= i < |keys| :: after.uses[|h.uses| + i].purpose == ForManifest(keys[i])
  }

  lemma ConsultedFirst(h: Hand, mid: Hand, after: Hand, keys: seq<ObjectKey>)
    requires keys != [] && Consulted(h, mid, keys[..1]) && Consulted(mid, after, keys[1..])
    ensures Consulted(h, after, keys)
  {
    forall i | 0 <= i < |keys| ensures after.uses[|h.uses| + i].purpose == ForManifest(keys[i]) {
      if i == 0 {
        assert after.uses[|h.uses|] == mid.uses[|h.uses|];
      } else {
        assert after.uses[|mid.uses| + (i - 1)].purpose == ForManifest(keys[1..][i - 1]);
      }
    }
  }

  lemma OneLink(world: World, h: Hand, keys: seq<ObjectKey>, manifests: seq<Manifest>)
    requires Stored(world, keys, manifests) && Askable(h, keys)
    ensures var a := Asked(world, h, ForManifest(keys[0]));
      && a.r.Ok? && world.parse(a.r.value) == Ok(manifests[0])
      && Consulted(h, a.hand, keys[..1]) && Askable(a.hand, keys)
  {
    var a := Asked(world, h, ForManifest(keys[0]));
    OneMoreUse(h.uses, Use(ForManifest(keys[0]), a.missed));
    hide Gets;
    assert keys[0] in keys;
  }

  /** An ordered manifest is searched right: the entry that holds the offset, or none does. */
  lemma SearchIsRight(m: Manifest, start: i64)
    requires Ordered(m.entries)
    ensures match PositionOf(m, start)
      case Some(i) => i < |m.entries| && HoldsAt(m.entries, start, i)
      case None => forall i | 0 <= i < |m.entries| :: !HoldsAt(m.entries, start, i)
  {
    forall i | 0 <= i < |m.entries| && HoldsAt(m.entries, start, i) ensures PositionOf(m, start) == Some(i) {
      PositionFindsIt(m, start, i);
    }
  }

  /** The entry's offsets, none of them past the largest there is, include this one. */
  predicate HoldsAt(entries: seq<ManifestEntry>, start: i64, i: int) {
    && 0 <= i < |entries| && entries[i].baseOffset <= start
    && start < entries[i].baseOffset + entries[i].recordCount <= MAX_I64
  }

  /** The entries from `i` on as ranged batches: those below `upto`, and 64 of them at most. */
  ghost predicate RunFrom(entries: seq<ManifestEntry>, i: nat, upto: i64, page: seq<IndexedBatch>) {
    && |page| <= 64 && i + |page| <= |entries|
    && (forall k | 0 <= k < |page| ::
          var e := entries[i + k];
          page[k] == Inline(e.key, e.baseOffset, e.recordCount, e.range) && e.baseOffset < upto)
    && (|page| < 64 && i + |page| < |entries| ==> entries[i + |page|].baseOffset >= upto)
  }

  /** What the last link a lookup reaches makes of it. */
  ghost predicate EndsWith(m: Manifest, start: i64, upto: i64, batches: Result<seq<IndexedBatch>, ReadError>) {
    if exists i :: HoldsAt(m.entries, start, i)
    then exists i :: HoldsAt(m.entries, start, i) && batches.Ok? && RunFrom(m.entries, i, upto, batches.value)
    else batches == Ok([])
  }

  lemma LastLink(world: World, h: Hand, keys: seq<ObjectKey>, manifests: seq<Manifest>, start: i64, upto: i64, hops: nat, cost: nat)
    requires Stored(world, keys, manifests) && |keys| == 1 && Askable(h, keys) && hops > 0
    requires Ordered(manifests[0].entries) && Stops(manifests[0], start)
    ensures var t := Resolved(world, h, keys[0], start, upto, hops, cost);
      Consulted(h, t.hand, keys) && EndsWith(manifests[0], start, upto, t.batches)
  {
    OneLink(world, h, keys, manifests);
    SearchIsRight(manifests[0], start);
    assert keys[..1] == keys;
    var m, at := manifests[0], PositionOf(manifests[0], start);
    if at.Some? {
      var page := BatchesBelow(m.entries[at.value..], upto, MAX_BATCHES_PER_PAGE);
      assert HoldsAt(m.entries, start, at.value) && RunFrom(m.entries, at.value, upto, page);
    }
  }

  lemma NextLink(world: World, h: Hand, keys: seq<ObjectKey>, manifests: seq<Manifest>, start: i64, upto: i64, hops: nat, cost: nat)
    requires Stored(world, keys, manifests) && Askable(h, keys) && hops > 0
    requires Ordered(manifests[0].entries) && !Stops(manifests[0], start)
    ensures manifests[0].previous.Some?
    ensures var a := Asked(world, h, ForManifest(keys[0]));
      Resolved(world, h, keys[0], start, upto, hops, cost)
        == Resolved(world, a.hand, manifests[0].previous.value, start, upto, hops - 1, cost + Cost(a.r, a.missed))
  {
    OneLink(world, h, keys, manifests);
    SearchIsRight(manifests[0], start);
    var entries := manifests[0].entries;
    forall i | 0 <= i < |entries| ensures !HoldsAt(entries, start, i) {
      assert entries[0].baseOffset <= entries[i].baseOffset;
    }
  }

  /**
   A lookup follows every link that begins above the offset and names another, consults exactly those
   and the one it stops at, and answers what that one holds: the entry with the offset and those after
   it, or nothing.
   */
  lemma {:induction false} ChainIsFollowed(world: World, h: Hand, keys: seq<ObjectKey>, manifests: seq<Manifest>,
                                           start: i64, upto: i64, hops: nat, cost: nat)
    requires Stored(world, keys, manifests) && Leads(keys, manifests, start) && Askable(h, keys) && |keys| <= hops
    requires forall m | m in manifests :: Ordered(m.entries)
    requires Stops(manifests[|manifests| - 1], start)
    ensures var t := Resolved(world, h, keys[0], start, upto, hops, cost);
      Consulted(h, t.hand, keys) && EndsWith(manifests[|manifests| - 1], start, upto, t.batches)
    decreases |keys|
  {
    hide Resolved, Asked, EndsWith, PassesOn, Stops, Askable, Consulted;
    assert manifests[0] in manifests;
    if |keys| == 1 {
      LastLink(world, h, keys, manifests, start, upto, hops, cost);
    } else {
      Passed(manifests[0], start, keys[1]);
      NextLink(world, h, keys, manifests, start, upto, hops, cost);
      OneLink(world, h, keys, manifests);
      var a := Asked(world, h, ForManifest(keys[0]));
      AskableRest(a.hand, keys);
      ChainIsFollowed(world, a.hand, keys[1..], manifests[1..], start, upto, hops - 1, cost + Cost(a.r, a.missed));
      var t := Resolved(world, h, keys[0], start, upto, hops, cost);
      ConsultedFirst(h, a.hand, t.hand, keys);
    }
  }

  lemma Passed(m: Manifest, start: i64, key: ObjectKey)
    requires PassesOn(m, start, key)
    ensures m.previous == Some(key) && !Stops(m, start)
  {}

  lemma AskableRest(h: Hand, keys: seq<ObjectKey>)
    requires Askable(h, keys) && keys != []
    ensures Askable(h, keys[1..])
  {}

  /** A chain with nothing to stop at within the links allowed is not a chain a reader can use. */
  lemma {:induction false} EndlessChainIsRefused(world: World, h: Hand, keys: seq<ObjectKey>, manifests: seq<Manifest>,
                                                 start: i64, upto: i64, cost: nat)
    requires Stored(world, keys, manifests) && Leads(keys, manifests, start) && Askable(h, keys)
    requires forall m | m in manifests :: Ordered(m.entries)
    requires !Stops(manifests[|manifests| - 1], start)
    ensures var t := Resolved(world, h, keys[0], start, upto, |keys|, cost);
      Consulted(h, t.hand, keys) && t.batches == Err(IndexObjectMismatch)
    decreases |keys|
  {
    hide Resolved, Asked, PassesOn, Stops, Askable, Consulted;
    assert manifests[0] in manifests;
    if |keys| > 1 {
      Passed(manifests[0], start, keys[1]);
    }
    NextLink(world, h, keys, manifests, start, upto, |keys|, cost);
    OneLink(world, h, keys, manifests);
    var a := Asked(world, h, ForManifest(keys[0]));
    var t := Resolved(world, h, keys[0], start, upto, |keys|, cost);
    if |keys| == 1 {
      assert keys[..1] == keys;
      OutOfLinks(world, a.hand, manifests[0].previous.value, start, upto, cost + Cost(a.r, a.missed));
    } else {
      AskableRest(a.hand, keys);
      EndlessChainIsRefused(world, a.hand, keys[1..], manifests[1..], start, upto, cost + Cost(a.r, a.missed));
      ConsultedFirst(h, a.hand, t.hand, keys);
    }
  }

  lemma OutOfLinks(world: World, h: Hand, key: ObjectKey, start: i64, upto: i64, cost: nat)
    ensures Resolved(world, h, key, start, upto, 0, cost) == Tier(h, Err(IndexObjectMismatch), cost)
  {}

  /**
   So a partition read below what its manifest covers, with something to spend, is given the older
   history its chain holds within sixteen links, and any other read does not look at the chain.
   */
  lemma OlderHistoryIsFound(world: World, h: Hand, p: PartitionRead, keys: seq<ObjectKey>, manifests: seq<Manifest>)
    requires p.manifest.Some? && keys != [] && p.manifest.value.0 == keys[0]
    requires Stored(world, keys, manifests) && Leads(keys, manifests, p.start) && Askable(h, keys) && |keys| <= 16
    requires (forall m | m in manifests :: Ordered(m.entries)) && Stops(manifests[|manifests| - 1], p.start)
    ensures var tier, upto := OlderTier(world, h, p), p.manifest.value.1;
      if p.start < upto && (p.allowance.bytes > 0 || p.allowance.mayOvershoot)
      then Consulted(h, tier.hand, keys) && EndsWith(manifests[|manifests| - 1], p.start, upto, tier.batches)
      else tier == Tier(h, Ok([]), 0)
  {
    hide Resolved, EndsWith, Consulted, Askable;
    ChainIsFollowed(world, h, keys, manifests, p.start, p.manifest.value.1, 16, 0);
  }
}
