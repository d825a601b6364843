/**
 Committed offsets: a map rebuilt from the shared log and kept up to date by a merge that the
 version of each append guards, so that the order in which appends reach memory does not matter.
 */
module CommittedOffsets {
  import opened Bytes
  import opened GroupLog
  import opened VersionedLog

  datatype OffsetKey = OffsetKey(group: GroupId, topic: TopicId, partition: i32)

  datatype Versioned = Versioned(version: u64, offset: i64)

  type Offsets = map<OffsetKey, Versioned>

  function KeyOf(record: LogRecord): OffsetKey
    requires record.OffsetCommitted?
  {
    OffsetKey(record.group, record.topic, record.partition)
  }

  function CommitOf(key: OffsetKey, offset: i64): LogRecord {
    OffsetCommitted(key.group, key.topic, key.partition, offset)
  }

  /** `apply`: an entry lands only where nothing as new already has. */
  function Merge(m: Offsets, e: Entry): Offsets {
    if !e.record.OffsetCommitted? then m
    else
      var key := KeyOf(e.record);
      if key in m && m[key].version >= e.version then m
      else m[key := Versioned(e.version, e.record.offset)]
  }

  function MergeAll(m: Offsets, log: seq<Entry>): Offsets {
    if log == [] then m else Merge(MergeAll(m, log[..|log| - 1]), log[|log| - 1])
  }

  // ---------------------------------------------------------------------------
  // What the fold means

  predicate Commits(e: Entry, key: OffsetKey) {
    && e.record.OffsetCommitted?
    && e.record.group == key.group && e.record.topic == key.topic && e.record.partition == key.partition
  }

  /** The newest entry of the log for a key. */
  function Latest(log: seq<Entry>, key: OffsetKey): Option<Versioned> {
    if log == [] then None
    else
      var last := log[|log| - 1];
      if Commits(last, key) then Some(Versioned(last.version, last.record.offset)) else Latest(log[..|log| - 1], key)
  }

  function Served(m: Offsets, key: OffsetKey): Option<Versioned> {
    if key in m then Some(m[key]) else None
  }

  /** `a` is at least as new as `b`. */
  predicate AtLeast(a: Option<Versioned>, b: Option<Versioned>) {
    b.Some? ==> a.Some? && a.value.version >= b.value.version
  }

  lemma {:induction false} LatestIsBelow(log: seq<Entry>, key: OffsetKey)
    requires Increasing(log) && Latest(log, key).Some?
    ensures log != [] && Latest(log, key).value.version <= log[|log| - 1].version
  {
    if !Commits(log[|log| - 1], key) {
      LatestIsBelow(log[..|log| - 1], key);
    }
  }

  /** Replaying a log serves, for every key, its newest entry. */
  lemma {:induction false} ReplayServesTheLatest(log: seq<Entry>, key: OffsetKey)
    requires Increasing(log)
    ensures Served(MergeAll(map[], log), key) == Latest(log, key)
  {
    if log != [] {
      var front := log[..|log| - 1];
      ReplayServesTheLatest(front, key);
      if Latest(front, key).Some? {
        LatestIsBelow(front, key);
      }
    }
  }

  /** Two entries of different versions may reach memory in either order. */
  lemma MergesCommute(m: Offsets, a: Entry, b: Entry)
    requires a.version != b.version
    ensures Merge(Merge(m, a), b) == Merge(Merge(m, b), a)
  {}

  /** Whatever reached memory first stays unless something newer comes: a version seen again changes nothing. */
  lemma NothingNewChangesNothing(m: Offsets, a: Entry, b: Entry)
    requires a.record.OffsetCommitted? && Commits(b, KeyOf(a.record)) && b.version <= a.version
    ensures Merge(Merge(m, a), b) == Merge(m, a)
  {}

  lemma MergeAppends(m: Offsets, log: seq<Entry>, e: Entry)
    ensures MergeAll(m, log + [e]) == Merge(MergeAll(m, log), e)
  {
    assert (log + [e])[..|log|] == log;
  }

  lemma {:induction false} MergeInPages(m: Offsets, a: seq<Entry>, b: seq<Entry>)
    ensures MergeAll(MergeAll(m, a), b) == MergeAll(m, a + b)
    decreases |b|
  {
    if b == [] {
      assert a + b == a;
    } else {
      var front := b[..|b| - 1];
      assert (a + b)[..|a + b| - 1] == a + front && (a + b)[|a + b| - 1] == b[|b| - 1];
      MergeInPages(m, a, front);
    }
  }

  /** Any order at all: moving an entry to the front of a log of other versions changes nothing. */
  lemma {:induction false} ArrivalOrderIsForgotten(m: Offsets, log: seq<Entry>, e: Entry)
    requires forall x | x in log :: x.version != e.version
    ensures MergeAll(Merge(m, e), log) == Merge(MergeAll(m, log), e)
  {
    if log != [] {
      var front, last := log[..|log| - 1], log[|log| - 1];
      assert last in log;
      ArrivalOrderIsForgotten(m, front, e);
      MergesCommute(MergeAll(m, front), last, e);
    }
  }

  // ---------------------------------------------------------------------------
  // The store

  method MergePage(m: Offsets, page: seq<Entry>) returns (r: Offsets)
    ensures r == MergeAll(m, page)
  {
    r := m;
    for i := 0 to |page|
      invariant r == MergeAll(m, page[..i])
    {
      MergeAppends(m, page[..i], page[i]);
      assert page[..i] + [page[i]] == page[..i + 1];
      r := Merge(r, page[i]);
    }
    assert page[..|page|] == page;
  }

  class Store {
    var offsets: Offsets
    const log: MetadataLog

    constructor (backing: MetadataLog)
      ensures offsets == map[] && log == backing
    {
      offsets := map[];
      log := backing;
    }

    /** The whole map is replaced by what the log folds to, or left alone when the log cannot be finished. */
    method Replay() returns (r: Result<(), LogError>)
      requires log.Valid()
      modifies this
      ensures r == if EndsOnTheBrink(log.entries) then Err(CommitVersionOverflow) else Ok(())
      ensures offsets == if r.Ok? then MergeAll(map[], log.entries) else old(offsets)
      ensures r.Ok? ==> forall key ::
        Get(key) == match Latest(log.entries, key) case None => None case Some(newest) => Some(newest.offset)
    {
      hide PageOf, FirstAt, EndsOnTheBrink;
      var rebuilt: Offsets := map[];
      var start: u64 := 0;
      ghost var done := 0;
      FirstPage(log.entries);
      while true
        invariant Paged(log.entries, start, done) && offsets == old(offsets)
        invariant rebuilt == MergeAll(map[], log.entries[..done])
        decreases |log.entries| - done
      {
        var page := log.ReadFrom(start, REPLAY_PAGE_SIZE);
        NextPage(log.entries, start, done);
        MergeInPages(map[], log.entries[..done], page);
        rebuilt := MergePage(rebuilt, page);
        done := done + |page|;
        if |page| < REPLAY_PAGE_SIZE {
          break;
        }
        var last := page[|page| - 1];
        if last.version == MAX_U64 {
          return Err(CommitVersionOverflow);
        }
        start := last.version + 1;
      }
      offsets := rebuilt;
      r := Ok(());
      forall key ensures Served(offsets, key) == Latest(log.entries, key) {
        ReplayServesTheLatest(log.entries, key);
      }
    }

    /** Durable first, then in memory under the guard; a failed append leaves memory alone. */
    method Commit(key: OffsetKey, offset: i64, world: World) returns (r: Result<u64, LogError>, ghost turns: nat)
      requires log.Valid()
      modifies this, log
      ensures log.Valid()
      ensures Leaves(old(log.entries), log.entries, world, OffsetCommitted(key.group, key.topic, key.partition, offset), turns, r)
      ensures offsets == if r.Ok? then Merge(old(offsets), Entry(r.value, CommitOf(key, offset))) else old(offsets)
      ensures r.Ok? && (key in old(offsets) ==> old(offsets[key].version) < r.value) ==> Get(key) == Some(offset)
      ensures forall other | other != key :: Get(other) == old(Get(other))
    {
      r, turns := AppendDurably(log, CommitOf(key, offset), world);
      if r.Ok? {
        offsets := Merge(offsets, Entry(r.value, CommitOf(key, offset)));
      }
    }

    function Get(key: OffsetKey): Option<i64>
      reads this
    {
      if key in offsets then Some(offsets[key].offset) else None
    }
  }
}
