/**
 The group-metadata log that group transitions and offset commits share: strictly increasing
 versions, paged reads, and the optimistic append both writers use.
 */
module GroupLog {
  import opened Bytes
  import opened GroupState
  import opened VersionedLog

  type GroupId = string
  type TopicId = string

  const REPLAY_PAGE_SIZE: nat := 256
  const MAX_APPEND_RETRIES: nat := 8

  datatype Roster = Roster(protocolType: string, protocolName: string, memberIds: seq<string>)

  datatype LogRecord =
    | OffsetCommitted(group: GroupId, topic: TopicId, partition: i32, offset: i64)
    | GroupTransitioned(group: GroupId, event: Event)
    | GroupRosterUpdated(group: GroupId, roster: Option<Roster>)

  type Entry = Logged<LogRecord>

  datatype LogError = NonMonotonicCommitVersion | CommitVersionOverflow | Refused | Transient

  // ---------------------------------------------------------------------------
  // What may follow the log, and how a page follows a page

  /** Whether every entry in turn may follow what came before it. */
  predicate Follows(log: seq<Entry>, batch: seq<Entry>)
    decreases |batch|
  {
    batch == [] || (Above(log, batch[0].version) && Follows(log + [batch[0]], batch[1..]))
  }

  /** The version an optimistic writer tries next. */
  function NextVersion(log: seq<Entry>): (r: Result<u64, LogError>)
    ensures r.Err? ==> r.error == CommitVersionOverflow && forall v: u64 :: !Above(log, v)
  {
    if log == [] then Ok(0)
    else if log[|log| - 1].version == MAX_U64 then Err(CommitVersionOverflow)
    else Ok(log[|log| - 1].version + 1)
  }

  /** The one log a paged reader cannot finish: a full last page ending at the highest version there is. */
  predicate EndsOnTheBrink(log: seq<Entry>) {
    log != [] && |log| % 256 == 0 && log[|log| - 1].version == MAX_U64
  }

  /** `done` entries have been read in full pages, and `start` is where the next page begins. */
  ghost predicate Paged(log: seq<Entry>, start: nat, done: nat) {
    && done <= |log|
    && done == FirstAt(log, start)
    && done % REPLAY_PAGE_SIZE == 0
    && (done > 0 ==> log[done - 1].version < MAX_U64)
  }

  lemma FirstPage(log: seq<Entry>)
    ensures Paged(log, 0, 0)
  {}

  /** A short page is the last one; a full one either leads on or ends on the brink. */
  lemma NextPage(log: seq<Entry>, start: nat, done: nat)
    requires Increasing(log) && Paged(log, start, done)
    ensures var page := PageOf(log, start, REPLAY_PAGE_SIZE);
      && log[..done] + page == log[..done + |page|]
      && (|page| < REPLAY_PAGE_SIZE ==> log[..done + |page|] == log && !EndsOnTheBrink(log))
      && (|page| == REPLAY_PAGE_SIZE ==>
            var v := page[|page| - 1].version;
            if v == MAX_U64 then log[..done + |page|] == log && EndsOnTheBrink(log)
            else Paged(log, v + 1, done + |page|))
  {
    hide FirstAt, PageOf, Paged, EndsOnTheBrink, Increasing;
    PageStands(log, start, done);
    if |PageOf(log, start, REPLAY_PAGE_SIZE)| == REPLAY_PAGE_SIZE {
      FullPage(log, start, done);
    } else {
      ShortPage(log, start, done);
    }
  }

  lemma PageStands(log: seq<Entry>, start: nat, done: nat)
    requires Paged(log, start, done)
    ensures var page := PageOf(log, start, REPLAY_PAGE_SIZE);
      && done <= |log| && |page| == Min(REPLAY_PAGE_SIZE, |log| - done)
      && log[..done] + page == log[..done + |page|]
      && (|page| > 0 ==> page[|page| - 1] == log[done + |page| - 1])
  {
    hide FirstAt;
  }

  lemma ShortPage(log: seq<Entry>, start: nat, done: nat)
    requires Paged(log, start, done) && |log| - done < REPLAY_PAGE_SIZE
    ensures log[..|log|] == log && !EndsOnTheBrink(log)
  {
    hide FirstAt;
  }

  lemma FullPage(log: seq<Entry>, start: nat, done: nat)
    requires Increasing(log) && Paged(log, start, done) && done + REPLAY_PAGE_SIZE <= |log|
    ensures var end := done + REPLAY_PAGE_SIZE;
      var v := log[end - 1].version;
      if v == MAX_U64 then log[..end] == log && EndsOnTheBrink(log) else Paged(log, v + 1, end)
  {
    var end := done + REPLAY_PAGE_SIZE;
    PagesMeet(log, start, done, REPLAY_PAGE_SIZE);
    if log[end - 1].version == MAX_U64 {
      assert end < |log| ==> log[end].version > MAX_U64;
    }
  }

  /** A batch may follow the log exactly when log and batch together are still in order. */
  lemma {:induction false} FollowingKeepsTheOrder(log: seq<Entry>, batch: seq<Entry>)
    requires Increasing(log)
    ensures Follows(log, batch) <==> Increasing(log + batch)
    decreases |batch|
  {
    if batch == [] {
      assert log + batch == log;
    } else {
      var more := log + [batch[0]];
      assert log + batch == more + batch[1..];
      if Above(log, batch[0].version) {
        IncreasingGrows(log, batch[0]);
        FollowingKeepsTheOrder(more, batch[1..]);
      } else {
        assert (log + batch)[|log| - 1] == log[|log| - 1] && (log + batch)[|log|] == batch[0];
      }
    }
  }

  /** A writer whose candidate was the successor of what it read is refused once anything landed. */
  lemma StaleCandidate(seen: seq<Entry>, log: seq<Entry>, next: u64)
    requires seen <= log && Increasing(log) && NextVersion(seen) == Ok(next)
    ensures Above(log, next) <==> |log| == |seen|
  {
    if |log| > |seen| {
      assert seen != [] ==> seen[|seen| - 1] == log[|seen| - 1];
    }
  }

  // ---------------------------------------------------------------------------
  // The log as an object

  class MetadataLog {
    var entries: seq<Entry>

    ghost predicate Valid()
      reads this
    {
      Increasing(entries)
    }

    constructor ()
      ensures Valid() && entries == []
    {
      entries := [];
    }

    /** All or nothing: a batch that does not follow the log stores nothing of itself. */
    method Append(batch: seq<Entry>) returns (r: Result<(), LogError>)
      requires Valid()
      modifies this
      ensures Valid()
      ensures Increasing(old(entries) + batch) ==> r == Ok(()) && entries == old(entries) + batch
      ensures !Increasing(old(entries) + batch) ==> r == Err(NonMonotonicCommitVersion) && entries == old(entries)
      ensures Increasing(old(entries) + batch) <==> Follows(old(entries), batch)
    {
      hide Increasing;
      FollowingKeepsTheOrder(entries, batch);
      var previous: Option<u64> := if entries == [] then None else Some(entries[|entries| - 1].version);
      assert entries + batch[..0] == entries && batch[0..] == batch;
      for i := 0 to |batch|
        invariant entries == old(entries)
        invariant previous == LastOf(entries + batch[..i])
        invariant Follows(entries, batch) <==> Follows(entries + batch[..i], batch[i..])
      {
        if previous.Some? && batch[i].version <= previous.value {
          return Err(NonMonotonicCommitVersion);
        }
        previous := Some(batch[i].version);
        assert batch[i..][1..] == batch[i + 1..];
        assert entries + batch[..i] + [batch[i]] == entries + batch[..i + 1];
      }
      entries := entries + batch;
      r := Ok(());
    }

    method ReadFrom(start: u64, max: nat) returns (page: seq<Entry>)
      requires Valid()
      ensures page == PageOf(entries, start, max)
    {
      page := [];
      ghost var first := FirstAt(entries, start);
      for i := 0 to |entries|
        invariant page == if i <= first then [] else entries[first..Min(i, Min(first + max, |entries|))]
      {
        if entries[i].version >= start && |page| < max {
          page := page + [entries[i]];
        }
      }
    }

    method LastVersion() returns (r: Option<u64>)
      ensures r == LastOf(entries)
    {
      r := if entries == [] then None else Some(entries[|entries| - 1].version);
    }
  }

  function LastOf(log: seq<Entry>): Option<u64> {
    if log == [] then None else Some(log[|log| - 1].version)
  }

  // ---------------------------------------------------------------------------
  // The optimistic append, with other writers racing it

  lemma OnceInAnIncreasingLog(log: seq<Entry>, i: nat)
    requires Increasing(log) && i < |log|
    ensures multiset(log)[log[i]] == 1
  {
    var e := log[i];
    assert log == log[..i] + [e] + log[i + 1..];
    assert multiset(log) == multiset(log[..i]) + multiset{e} + multiset(log[i + 1..]);
    assert e !in log[..i] && e !in log[i + 1..];
  }

  /** What the rest of the world does at each turn of one call's retry loop. */
  datatype World = World(beforeRead: nat -> seq<Entry>, beforeAppend: nat -> seq<Entry>, refuses: nat -> bool)

  /** Another writer's batch lands if it follows the log, and leaves it alone otherwise. */
  function Grown(log: seq<Entry>, batch: seq<Entry>): seq<Entry> {
    if Follows(log, batch) then log + batch else log
  }

  /** Where a call that reads at this turn finds the log. */
  function AtRead(log: seq<Entry>, world: World, turn: nat): seq<Entry> {
    Grown(log, world.beforeRead(turn))
  }

  /** The log after one turn of everybody else, and nobody else. */
  function AfterTurn(log: seq<Entry>, world: World, turn: nat): seq<Entry> {
    Grown(AtRead(log, world, turn), world.beforeAppend(turn))
  }

  /** The log after `turns` whole turns of everybody else. */
  function Rivals(log: seq<Entry>, world: World, turns: nat): seq<Entry> {
    if turns == 0 then log else AfterTurn(Rivals(log, world, turns - 1), world, turns - 1)
  }

  /** Somebody landed between this turn's read and its append. */
  predicate LosesRace(log: seq<Entry>, world: World, turn: nat) {
    AfterTurn(log, world, turn) != AtRead(log, world, turn)
  }

  lemma GrownKeepsOrder(log: seq<Entry>, batch: seq<Entry>)
    requires Increasing(log)
    ensures Increasing(Grown(log, batch)) && log <= Grown(log, batch)
    ensures Grown(log, batch) == log <==> |Grown(log, batch)| == |log|
  {
    if Follows(log, batch) {
      FollowingKeepsTheOrder(log, batch);
    }
  }

  lemma {:induction false} RivalsKeepOrder(log: seq<Entry>, world: World, turns: nat)
    requires Increasing(log)
    ensures Increasing(Rivals(log, world, turns)) && log <= Rivals(log, world, turns)
  {
    hide Increasing, Grown;
    if turns > 0 {
      var before := Rivals(log, world, turns - 1);
      RivalsKeepOrder(log, world, turns - 1);
      GrownKeepsOrder(before, world.beforeRead(turns - 1));
      GrownKeepsOrder(AtRead(before, world, turns - 1), world.beforeAppend(turns - 1));
    }
  }

  /** Every race lost is at least one entry some other writer landed. */
  lemma {:induction false} LostRacesGrowTheLog(log: seq<Entry>, world: World, turns: nat)
    requires Increasing(log) && forall i | 0 <= i < turns :: LosesRace(Rivals(log, world, i), world, i)
    ensures |Rivals(log, world, turns)| >= |log| + turns
  {
    hide Increasing, Grown;
    if turns > 0 {
      var before := Rivals(log, world, turns - 1);
      LostRacesGrowTheLog(log, world, turns - 1);
      RivalsKeepOrder(log, world, turns - 1);
      GrownKeepsOrder(before, world.beforeRead(turns - 1));
      GrownKeepsOrder(AtRead(before, world, turns - 1), world.beforeAppend(turns - 1));
    }
  }

  /**
   Exactly what one call leaves: `turns` whole turns of the other writers, then whatever they did in
   the turn that answered, and its own record on top if and only if it answered `Ok`.
   */
  ghost predicate Leaves(before: seq<Entry>, after: seq<Entry>, world: World, record: LogRecord,
                         turns: nat, r: Result<u64, LogError>) {
    && turns <= 8 && (r == Err(Transient) <==> turns == 8)
    && (forall i | 0 <= i < turns :: LosesRace(Rivals(before, world, i), world, i))
    && var log := Rivals(before, world, turns);
       match r
       case Err(Transient) => after == log
       case Err(CommitVersionOverflow) => after == AtRead(log, world, turns) && LastOf(after) == Some(MAX_U64)
       case Err(Refused) => world.refuses(turns) && after == AfterTurn(log, world, turns)
       case Ok(version) =>
         && !world.refuses(turns) && !LosesRace(log, world, turns)
         && NextVersion(AtRead(log, world, turns)) == Ok(version)
         && after == AfterTurn(log, world, turns) + [Entry(version, record)]
       case Err(NonMonotonicCommitVersion) => false
  }

  /**
   `append_durably`: read the last version, try the one after it, and try again when a racing writer
   landed first. `turns` is how many races it lost; everything else that happened to the log is what
   the other writers did, so an error means this call put nothing there.
   */
  method AppendDurably(log: MetadataLog, record: LogRecord, world: World)
    returns (r: Result<u64, LogError>, ghost turns: nat)
    requires log.Valid()
    modifies log
    ensures log.Valid() && Leaves(old(log.entries), log.entries, world, record, turns, r)
  {
    hide AfterTurn, AtRead, LosesRace, NextVersion, Increasing;
    turns := 0;
    ghost var before := log.entries;
    for i := 0 to MAX_APPEND_RETRIES
      invariant log.Valid() && turns == i && log.entries == Rivals(before, world, i)
      invariant forall k | 0 <= k < i :: LosesRace(Rivals(before, world, k), world, k)
    {
      r := AttemptOnce(log, record, world, i);
      if r != Err(NonMonotonicCommitVersion) {
        return;
      }
      turns := i + 1;
    }
    r := Err(Transient);
  }

  /** The newest entry, and the only one like it. */
  ghost predicate Landed(log: seq<Entry>, e: Entry) {
    log != [] && log[|log| - 1] == e && multiset(log)[e] == 1
  }

  /** What a finished call means: `Ok` stands in the log once, and giving up saw eight others land. */
  lemma LeavesMeans(before: seq<Entry>, after: seq<Entry>, world: World, record: LogRecord, turns: nat, r: Result<u64, LogError>)
    requires Increasing(before) && Increasing(after) && Leaves(before, after, world, record, turns, r)
    ensures before <= after
    ensures r.Ok? ==> Landed(after, Entry(r.value, record))
    ensures r == Err(Transient) ==> after == Rivals(before, world, 8) && |after| >= |before| + 8
  {
    hide Increasing, Grown, LosesRace, Follows;
    var log := Rivals(before, world, turns);
    RivalsKeepOrder(before, world, turns);
    GrownKeepsOrder(log, world.beforeRead(turns));
    GrownKeepsOrder(AtRead(log, world, turns), world.beforeAppend(turns));
    if r.Ok? {
      OnceInAnIncreasingLog(after, |after| - 1);
    } else if r == Err(Transient) {
      LostRacesGrowTheLog(before, world, turns);
    }
  }

  /** One turn of the loop; it loses the race exactly when somebody landed since it read. */
  method AttemptOnce(log: MetadataLog, record: LogRecord, world: World, turn: nat) returns (r: Result<u64, LogError>)
    requires log.Valid()
    modifies log
    ensures log.Valid()
    ensures match r
            case Err(CommitVersionOverflow) =>
              log.entries == AtRead(old(log.entries), world, turn) && LastOf(log.entries) == Some(MAX_U64)
            case Err(Refused) => world.refuses(turn) && log.entries == AfterTurn(old(log.entries), world, turn)
            case Err(NonMonotonicCommitVersion) =>
              LosesRace(old(log.entries), world, turn) && log.entries == AfterTurn(old(log.entries), world, turn)
            case Err(Transient) => false
            case Ok(version) =>
              && !world.refuses(turn) && !LosesRace(old(log.entries), world, turn)
              && NextVersion(AtRead(old(log.entries), world, turn)) == Ok(version)
              && log.entries == AfterTurn(old(log.entries), world, turn) + [Entry(version, record)]
  {
    hide Increasing, Follows;
    RivalAppends(log, world.beforeRead(turn));
    var last := log.LastVersion();
    if last == Some(MAX_U64) {
      return Err(CommitVersionOverflow);
    }
    var next: u64 := if last.Some? then last.value + 1 else 0;
    ghost var seen := log.entries;
    GrownKeepsOrder(seen, world.beforeAppend(turn));
    RivalAppends(log, world.beforeAppend(turn));
    if world.refuses(turn) {
      return Err(Refused);
    }
    StaleCandidate(seen, log.entries, next);
    r := AppendOne(log, Entry(next, record));
  }

  method AppendOne(log: MetadataLog, entry: Entry) returns (r: Result<u64, LogError>)
    requires log.Valid()
    modifies log
    ensures log.Valid()
    ensures if Above(old(log.entries), entry.version)
            then r == Ok(entry.version) && log.entries == old(log.entries) + [entry]
            else r == Err(NonMonotonicCommitVersion) && log.entries == old(log.entries)
  {
    assert Follows(log.entries + [entry], [entry][1..]);
    var appended := log.Append([entry]);
    if appended.Err? {
      return Err(appended.error);
    }
    r := Ok(entry.version);
  }

  method RivalAppends(log: MetadataLog, batch: seq<Entry>)
    requires log.Valid()
    modifies log
    ensures log.Valid() && log.entries == Grown(old(log.entries), batch)
  {
    var _ := log.Append(batch);
  }
}
