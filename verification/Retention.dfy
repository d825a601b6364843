/**
 The retention follower: an index kept by folding a pushed stream of log entries and rebuilt from
 the log when the stream skips or the fold refuses, which may trim and delete only while it is
 known to be the fold of a prefix of the log.
 */
module Retention {
  import opened Bytes
  import opened VersionedLog
  import opened ObjectIndex

  const REBUILD_PAGE_ENTRIES: nat := 1024

  /** An entry of the metadata log; what its record says is not interpreted here. */
  type Committed = Logged<seq<byte>>

  predicate Overlaps(folded: seq<Committed>, entry: Committed) {
    folded != [] && entry.version <= folded[|folded| - 1].version
  }

  /** Where the next page begins: just past the last entry folded. */
  function NextFrom(folded: seq<Committed>): nat {
    if folded == [] then 0 else folded[|folded| - 1].version + 1
  }

  /** A prefix of the log has been folded, in order and once, and `from` is what follows it. */
  ghost predicate ReadUpTo(log: seq<Committed>, from: nat, folded: seq<Committed>) {
    folded <= log && from == NextFrom(folded)
  }

  lemma PrefixEnds(log: seq<Committed>, folded: seq<Committed>)
    requires Increasing(log) && folded <= log
    ensures FirstAt(log, NextFrom(folded)) == |folded|
  {
    if folded != [] {
      var v := folded[|folded| - 1].version;
      assert log[|folded| - 1].version == v;
      assert forall k | 0 <= k < |folded| :: log[k].version <= v;
      assert |folded| < |log| ==> log[|folded|].version > v;
    }
  }

  /** A page extends the prefix; an empty one means there is nothing beyond it. */
  lemma OnePage(log: seq<Committed>, folded: seq<Committed>)
    requires Increasing(log) && folded <= log
    ensures var page := PageOf(log, NextFrom(folded), REBUILD_PAGE_ENTRIES);
      && (page == [] ==> folded == log)
      && folded + page <= log
      && (page != [] ==> NextFrom(folded + page) == page[|page| - 1].version + 1)
  {
    PrefixEnds(log, folded);
    hide FirstAt;
    var page := PageOf(log, NextFrom(folded), REBUILD_PAGE_ENTRIES);
    assert folded + page == log[..|folded| + |page|];
  }

  // ---------------------------------------------------------------------------
  // Stream, rebuilds and rounds, interleaved with commits

  /** `inRound` is whether the rebuild was asked for by a round, which goes on to act if it succeeds. */
  datatype Mode = Following | Rebuilding(inRound: bool) | Acting

  /**
   `position` is how much of the log the stream has handed out or dropped; `lagged` that it has
   dropped something it has not yet said so about.
   */
  datatype Task = Task(
    log: seq<Committed>,
    position: nat,
    lagged: bool,
    folded: seq<Committed>,
    synced: bool,
    mode: Mode)

  datatype Step =
    | Commit(entry: Committed)
    | Overrun(dropped: nat)
    | Receive(foldFails: bool)
    | Tick
    | ReadPage(readFails: bool, foldFails: bool)
    | EndRound

  function Restarted(s: Task, inRound: bool): Task {
    s.(synced := false, folded := [], mode := Rebuilding(inRound))
  }

  function Do(s: Task, step: Step): Task {
    match step
    case Commit(entry) => if Above(s.log, entry.version) then s.(log := s.log + [entry]) else s
    case Overrun(dropped) =>
      if s.position + dropped <= |s.log| && dropped > 0 then s.(position := s.position + dropped, lagged := true) else s
    case Receive(foldFails) => if s.mode.Following? then DoReceive(s, foldFails) else s
    case Tick =>
      if !s.mode.Following? then s else if s.synced then s.(mode := Acting) else Restarted(s, true)
    case ReadPage(readFails, foldFails) => if s.mode.Rebuilding? then DoPage(s, readFails, foldFails) else s
    case EndRound => if s.mode.Acting? then s.(mode := Following) else s
  }

  /** A signalled lag rebuilds; an overlap is stripped; a refused fold rebuilds. */
  function DoReceive(s: Task, foldFails: bool): Task {
    if s.lagged then Restarted(s.(lagged := false), false)
    else if s.position >= |s.log| then s
    else
      var entry, s' := s.log[s.position], s.(position := s.position + 1);
      if Overlaps(s.folded, entry) then s'
      else if foldFails then Restarted(s', false)
      else s'.(folded := s.folded + [entry])
  }

  function DoPage(s: Task, readFails: bool, foldFails: bool): Task
    requires s.mode.Rebuilding?
  {
    var page := PageOf(s.log, NextFrom(s.folded), REBUILD_PAGE_ENTRIES);
    if readFails then s.(folded := [], mode := Following)
    else if page == [] then s.(synced := true, mode := if s.mode.inRound then Acting else Following)
    else if page[|page| - 1].version == MAX_U64 || foldFails then s.(folded := [], mode := Following)
    else s.(folded := s.folded + page)
  }

  function Run(s: Task, steps: seq<Step>): Task {
    if steps == [] then s else Do(Run(s, steps[..|steps| - 1]), steps[|steps| - 1])
  }

  /** Subscribed at the end of the log as it stood, and about to read it from the beginning. */
  function Subscribed(log: seq<Committed>): Task {
    Task(log, |log|, false, [], false, Rebuilding(false))
  }

  // ---------------------------------------------------------------------------
  // What every step keeps

  ghost predicate Inv(s: Task) {
    && Increasing(s.log) && s.position <= |s.log|
    && (s.mode.Rebuilding? ==> s.folded <= s.log && !s.synced)
    && (s.mode.Acting? ==> s.synced)
    && (s.synced ==> s.folded <= s.log)
    && (s.synced && !s.lagged ==> s.position <= |s.folded|)
  }

  /** By version, the overlap is exactly what the prefix already holds. */
  lemma {:induction false} OverlapIsThePrefix(log: seq<Committed>, folded: seq<Committed>, i: nat)
    requires Increasing(log) && folded <= log && i < |log|
    ensures Overlaps(folded, log[i]) <==> i < |folded|
  {
    if folded != [] {
      assert folded[|folded| - 1] == log[|folded| - 1];
    }
  }

  lemma ReceiveKeepsInv(s: Task, foldFails: bool)
    requires Inv(s) && s.mode.Following?
    ensures Inv(DoReceive(s, foldFails))
  {
    if s.synced && !s.lagged && s.position < |s.log| {
      OverlapIsThePrefix(s.log, s.folded, s.position);
      assert s.log[..|s.folded|] == s.folded;
    }
  }

  lemma PageKeepsInv(s: Task, readFails: bool, foldFails: bool)
    requires Inv(s) && s.mode.Rebuilding?
    ensures Inv(DoPage(s, readFails, foldFails))
  {
    OnePage(s.log, s.folded);
    hide PageOf;
  }

  lemma StepKeepsInv(s: Task, step: Step)
    requires Inv(s)
    ensures Inv(Do(s, step))
  {
    match step
    case Commit(entry) =>
      if Above(s.log, entry.version) {
        IncreasingGrows(s.log, entry);
      }
    case Overrun(_) =>
    case Receive(foldFails) =>
      if s.mode.Following? {
        ReceiveKeepsInv(s, foldFails);
      }
    case Tick =>
    case ReadPage(readFails, foldFails) =>
      if s.mode.Rebuilding? {
        PageKeepsInv(s, readFails, foldFails);
      }
    case EndRound =>
  }

  lemma {:induction false} RunsKeepInv(log: seq<Committed>, steps: seq<Step>)
    requires Increasing(log)
    ensures Inv(Run(Subscribed(log), steps))
    decreases |steps|
  {
    if steps != [] {
      RunsKeepInv(log, steps[..|steps| - 1]);
      hide Inv, Do;
      StepKeepsInv(Run(Subscribed(log), steps[..|steps| - 1]), steps[|steps| - 1]);
    }
  }

  /**
   Whenever a round trims or sweeps, what the follower has folded is a prefix of the log, each
   entry exactly once: for any overlap of stream and rebuild, any lag and any failed rebuild.
   */
  lemma {:induction false} ActsOnAPrefix(log: seq<Committed>, steps: seq<Step>)
    requires Increasing(log) && Run(Subscribed(log), steps).mode.Acting?
    ensures var s := Run(Subscribed(log), steps);
      s.synced && s.folded <= s.log && Increasing(s.folded)
  {
    hide Run;
    RunsKeepInv(log, steps);
  }

  /**
   Why the lag must be signalled: a follower that swallowed the signal would fold past the gap and
   act on an index that is no prefix of the log.
   */
  lemma {:induction false} UnsignalledGapIsNoPrefix(s: Task)
    requires Inv(s) && s.mode.Following? && s.synced && |s.folded| < s.position < |s.log|
    ensures var deaf := DoReceive(s.(lagged := false), false);
      deaf.synced && !(deaf.folded <= deaf.log)
  {
    OverlapIsThePrefix(s.log, s.folded, s.position);
    var deaf := DoReceive(s.(lagged := false), false);
    assert deaf.folded[|s.folded|] == s.log[s.position];
    assert s.log[|s.folded|].version < s.log[s.position].version;
  }

  // ---------------------------------------------------------------------------
  // That it acts at all

  /** `n` pages read one after another with nothing going wrong. */
  function Pages(n: nat): (steps: seq<Step>)
    ensures |steps| == n
  {
    seq(n, _ => ReadPage(false, false))
  }

  lemma OnePageFirst(s: Task, n: nat)
    ensures Run(s, Pages(n + 1)) == Run(Do(s, ReadPage(false, false)), Pages(n))
  {
    hide Do;
    var first := [ReadPage(false, false)];
    assert Pages(n + 1) == first + Pages(n);
    RunsJoin(s, first, Pages(n));
    assert first[..0] == [] && Run(s, []) == s;
    assert Run(s, first) == Do(Run(s, first[..0]), first[0]);
  }

  /** Left alone, a rebuild ends with the whole log folded, as long as no version is the last there is. */
  lemma {:induction false} CalmRebuildEnds(s: Task) returns (n: nat)
    requires Inv(s) && s.mode.Rebuilding? && forall e | e in s.log :: e.version < MAX_U64
    ensures Run(s, Pages(n))
      == s.(folded := s.log, synced := true, mode := if s.mode.inRound then Acting else Following)
    decreases |s.log| - |s.folded|
  {
    hide Run, Inv, Do;
    var next := CalmPage(s);
    n := 1;
    OnePageFirst(s, 0);
    NoSteps(next);
    assert Pages(0) == [];
    if next.mode.Rebuilding? {
      var more := CalmRebuildEnds(next);
      n := more + 1;
      OnePageFirst(s, more);
    }
  }

  /** One page with nothing going wrong: the end of the log, or that much more of it folded. */
  lemma CalmPage(s: Task) returns (next: Task)
    requires Inv(s) && s.mode.Rebuilding? && forall e | e in s.log :: e.version < MAX_U64
    ensures next == Do(s, ReadPage(false, false)) && Inv(next)
    ensures if next.mode.Rebuilding?
            then next == s.(folded := s.log[..Min(|s.folded| + 1024, |s.log|)]) && |s.folded| < |s.log|
            else next == s.(folded := s.log, synced := true, mode := if s.mode.inRound then Acting else Following)
  {
    next := Do(s, ReadPage(false, false));
    PageKeepsInv(s, false, false);
    PageFollows(s.log, s.folded);
    hide PageOf, Inv, NextFrom, Increasing;
    var page := PageOf(s.log, NextFrom(s.folded), REBUILD_PAGE_ENTRIES);
    if page == [] {
      assert next == s.(synced := true, mode := if s.mode.inRound then Acting else Following);
    } else {
      assert page[|page| - 1].version < MAX_U64;
      assert next == s.(folded := s.folded + page);
    }
  }

  /** The page after a prefix: the next 1024 entries, or as many as there are. */
  lemma PageFollows(log: seq<Committed>, folded: seq<Committed>)
    requires Increasing(log) && folded <= log
    ensures var page, end := PageOf(log, NextFrom(folded), REBUILD_PAGE_ENTRIES), Min(|folded| + 1024, |log|);
      && folded + page == log[..end]
      && (page == [] <==> folded == log)
      && (page != [] ==> page[|page| - 1] in log && |folded| < |log|)
  {
    PrefixEnds(log, folded);
    hide FirstAt, Increasing;
    var page := PageOf(log, NextFrom(folded), REBUILD_PAGE_ENTRIES);
    assert folded + page == log[..Min(|folded| + 1024, |log|)];
    if page != [] {
      assert page[|page| - 1] == log[|folded| + |page| - 1];
    }
  }

  /**
   A round acts: at once when the follower is synced, and otherwise once it has read the log through.
   */
  lemma {:induction false} RoundActs(s: Task) returns (n: nat)
    requires Inv(s) && s.mode.Following? && forall e | e in s.log :: e.version < MAX_U64
    ensures var s' := Run(Do(s, Tick), Pages(n));
      && s' == s.(folded := if s.synced then s.folded else s.log, synced := true, mode := Acting)
      && Do(s', EndRound) == s'.(mode := Following)
  {
    var ticked := Do(s, Tick);
    StepKeepsInv(s, Tick);
    if s.synced {
      n := 0;
      assert Pages(0) == [];
    } else {
      n := CalmRebuildEnds(ticked);
    }
  }

  /** The follower starts by reading the log it subscribed to. */
  lemma {:induction false} StartsSynced(log: seq<Committed>) returns (n: nat)
    requires Increasing(log) && forall e | e in log :: e.version < MAX_U64
    ensures Run(Subscribed(log), Pages(n)) == Task(log, |log|, false, log, true, Following)
  {
    n := CalmRebuildEnds(Subscribed(log));
  }

  /** A new entry is folded as it comes; one the log was read past is only passed over. */
  lemma StreamIsFolded(s: Task)
    requires Inv(s) && s.mode.Following? && s.synced && !s.lagged && s.position < |s.log|
    ensures Do(s, Receive(false)) ==
      s.(position := s.position + 1, folded := if s.position < |s.folded| then s.folded else s.folded + [s.log[s.position]])
  {
    OverlapIsThePrefix(s.log, s.folded, s.position);
  }

  /**
   However much of the stream is dropped, and whether or not a fold is refused, the follower notices at
   its next receive and, left alone, is the whole log again with the stream where it stood.
   */
  lemma {:induction false} LagIsHealed(s: Task, dropped: nat, foldFails: bool) returns (n: nat)
    requires Inv(s) && s.mode.Following? && 0 < dropped <= |s.log| - s.position
    requires forall e | e in s.log :: e.version < MAX_U64
    ensures Run(Do(Do(s, Overrun(dropped)), Receive(foldFails)), Pages(n))
      == s.(position := s.position + dropped, lagged := false, folded := s.log, synced := true)
  {
    StepKeepsInv(s, Overrun(dropped));
    StepKeepsInv(Do(s, Overrun(dropped)), Receive(foldFails));
    n := CalmRebuildEnds(Do(Do(s, Overrun(dropped)), Receive(foldFails)));
  }

  lemma {:induction false} RefusedFoldIsHealed(s: Task) returns (n: nat)
    requires Inv(s) && s.mode.Following? && s.synced && !s.lagged && |s.folded| <= s.position < |s.log|
    requires forall e | e in s.log :: e.version < MAX_U64
    ensures Run(Do(s, Receive(true)), Pages(n)) == s.(position := s.position + 1, folded := s.log)
  {
    OverlapIsThePrefix(s.log, s.folded, s.position);
    StepKeepsInv(s, Receive(true));
    n := CalmRebuildEnds(Do(s, Receive(true)));
  }

  /** A rebuild gives up, empty and unsynced, at a failed read, a refused fold or the last version there is. */
  lemma RebuildGivesUp(s: Task, readFails: bool, foldFails: bool)
    requires Inv(s) && s.mode.Rebuilding?
    requires readFails || (s.folded != s.log && (foldFails
      || (|s.log| <= |s.folded| + 1024 && s.log[|s.log| - 1].version == MAX_U64)))
    ensures Do(s, ReadPage(readFails, foldFails)) == s.(folded := [], mode := Following)
  {
    OnePage(s.log, s.folded);
    PrefixEnds(s.log, s.folded);
    hide FirstAt, Increasing;
  }

  // ---------------------------------------------------------------------------
  // The follower as an object, moving as the step system says. Its index is what it has folded since
  // it was last cleared.

  lemma {:induction false} RunsJoin(s: Task, a: seq<Step>, b: seq<Step>)
    ensures Run(s, a + b) == Run(Run(s, a), b)
    decreases |b|
  {
    hide Do;
    if b == [] {
      assert a + b == a;
    } else {
      assert (a + b)[..|a + b| - 1] == a + b[..|b| - 1];
      RunsJoin(s, a, b[..|b| - 1]);
    }
  }

  lemma OneStepMore(s: Task, steps: seq<Step>, step: Step)
    ensures Run(s, steps + [step]) == Do(Run(s, steps), step)
  {
    assert (steps + [step])[..|steps|] == steps;
  }

  /** What the rest of the world does while one page is read: entries land, the read or the fold fails. */
  datatype Turn = Turn(lands: seq<Committed>, readFails: bool, foldFails: bool)

  const CALM := Turn([], false, false)

  /** Once the given turns have run out, nobody else does anything. */
  function TurnAt(turns: seq<Turn>, i: nat): Turn {
    if i < |turns| then turns[i] else CALM
  }

  predicate Fails(t: Turn) {
    t.readFails || t.foldFails
  }

  function Commits(entries: seq<Committed>): (steps: seq<Step>)
    ensures |steps| == |entries|
  {
    seq(|entries|, i requires 0 <= i < |entries| => Commit(entries[i]))
  }

  /** The first `n` turns as steps: in each, others' entries land and then a page is read. */
  function StepsOf(turns: seq<Turn>, n: nat): seq<Step> {
    if n == 0 then []
    else
      var t := TurnAt(turns, n - 1);
      StepsOf(turns, n - 1) + Commits(t.lands) + [ReadPage(t.readFails, t.foldFails)]
  }

  lemma OneTurnMore(s: Task, turns: seq<Turn>, n: nat)
    ensures var t := TurnAt(turns, n);
      Run(s, StepsOf(turns, n + 1)) == Do(Run(Run(s, StepsOf(turns, n)), Commits(t.lands)), ReadPage(t.readFails, t.foldFails))
  {
    hide Run, Do;
    var t := TurnAt(turns, n);
    RunsJoin(s, StepsOf(turns, n), Commits(t.lands));
    OneStepMore(s, StepsOf(turns, n) + Commits(t.lands), ReadPage(t.readFails, t.foldFails));
  }

  lemma OneCommitMore(s: Task, entries: seq<Committed>, i: nat)
    requires i < |entries|
    ensures Run(s, Commits(entries[..i + 1])) == Do(Run(s, Commits(entries[..i])), Commit(entries[i]))
  {
    hide Run, Do;
    OneStepMore(s, Commits(entries[..i]), Commit(entries[i]));
    assert Commits(entries[..i + 1]) == Commits(entries[..i]) + [Commit(entries[i])];
  }

  class Shard {
    var entries: seq<Committed>

    ghost predicate Valid()
      reads this
    {
      Increasing(entries)
    }

    constructor ()
      ensures Valid() && entries == []
    {
      entries := [];
    }

    method Land(e: Committed)
      requires Valid()
      modifies this
      ensures Valid()
      ensures entries == old(entries) + if Above(old(entries), e.version) then [e] else []
    {
      if Above(entries, e.version) {
        IncreasingGrows(entries, e);
        entries := entries + [e];
      }
    }

    /** Other writers' entries, as the commits of a task `s` that watches this log. */
    method LandAll(es: seq<Committed>, ghost s: Task)
      requires Valid() && s.log == entries
      modifies this
      ensures Valid() && old(entries) <= entries
      ensures Run(s, Commits(es)) == s.(log := entries)
    {
      hide Run, Increasing, Commits;
      NoSteps(s);
      assert Commits(es[..0]) == [];
      for i := 0 to |es|
        invariant Valid() && old(entries) <= entries
        invariant Run(s, Commits(es[..i])) == s.(log := entries)
      {
        OneCommitMore(s, es, i);
        Land(es[i]);
      }
      assert es[..|es|] == es;
    }

    method ReadFrom(start: u64, max: nat) returns (page: seq<Committed>)
      ensures page == PageOf(entries, start, max)
    {
      page := PageOf(entries, start, max);
    }
  }

  class Follower {
    var folded: seq<Committed>
    var synced: bool

    constructor ()
      ensures folded == [] && !synced
    {
      folded, synced := [], false;
    }

    /** This follower as a task of the step system, with its stream where it stands. */
    ghost function AsTask(log: seq<Committed>, position: nat, lagged: bool, mode: Mode): Task
      reads this
    {
      Task(log, position, lagged, folded, synced, mode)
    }

    /**
     Reads the log to its end while others append to it, one page a turn. It goes through the steps its
     first `pages` turns make and no others, and ends synced with exactly the log folded, or unsynced
     and empty; the latter only if its last turn failed or the log reached the last version there is.
     */
    method Rebuild(shard: Shard, turns: seq<Turn>, ghost position: nat, ghost lagged: bool)
      returns (ghost pages: nat)
      requires shard.Valid()
      modifies this, shard
      ensures shard.Valid() && old(shard.entries) <= shard.entries
      ensures pages > 0 && Finished(shard.entries, TurnAt(turns, pages - 1))
      ensures Run(Restarted(old(AsTask(shard.entries, position, lagged, Following)), false), StepsOf(turns, pages))
           == AsTask(shard.entries, position, lagged, Following)
    {
      hide PageOf, FirstAt, Run, Increasing, StepsOf, Commits, DoPage;
      ghost var s0 := Restarted(AsTask(shard.entries, position, lagged, Following), false);
      synced, folded := false, [];
      NoTurns(s0, turns);
      var from: u64, turn := 0, 0;
      var more := true;
      while more
        invariant shard.Valid() && old(shard.entries) <= shard.entries
        invariant more ==> !synced && ReadUpTo(shard.entries, from, folded)
        invariant !more ==> turn > 0 && Finished(shard.entries, TurnAt(turns, turn - 1))
        invariant Run(s0, StepsOf(turns, turn)) == AsTask(shard.entries, position, lagged, if more then Rebuilding(false) else Following)
        decreases if turn < |turns| then |turns| - turn else 0, more, |shard.entries| - |folded|
      {
        var t := TurnAt(turns, turn);
        OneTurnMore(s0, turns, turn);
        if turn < |turns| {
          shard.LandAll(t.lands, Run(s0, StepsOf(turns, turn)));
        } else {
          NothingLands(Run(s0, StepsOf(turns, turn)));
        }
        more, from := FoldPage(shard, from, t, position, lagged);
        turn := turn + 1;
      }
      pages := turn;
    }

    /** How a rebuild may end, given the turn it ended in. */
    ghost predicate Finished(log: seq<Committed>, t: Turn)
      reads this
    {
      && (if synced then folded == log else folded == [])
      && (!synced ==> Fails(t) || exists e | e in log :: e.version == MAX_U64)
    }

    /** One turn of the loop: a page is read and folded, or the rebuild ends. */
    method FoldPage(shard: Shard, from: u64, t: Turn, ghost position: nat, ghost lagged: bool)
      returns (more: bool, next: u64)
      requires shard.Valid() && !synced && ReadUpTo(shard.entries, from, folded)
      modifies this
      ensures more ==> !synced && ReadUpTo(shard.entries, next, folded) && |folded| > |old(folded)|
      ensures !more ==> Finished(shard.entries, t)
      ensures AsTask(shard.entries, position, lagged, if more then Rebuilding(false) else Following)
           == DoPage(old(AsTask(shard.entries, position, lagged, Rebuilding(false))), t.readFails, t.foldFails)
    {
      hide PageOf, Increasing;
      more, next := false, from;
      if t.readFails {
        folded := [];
        return;
      }
      var page := shard.ReadFrom(from, REBUILD_PAGE_ENTRIES);
      OnePage(shard.entries, folded);
      if page == [] {
        synced := true;
        return;
      }
      var last := page[|page| - 1];
      assert last in shard.entries by {
        assert (folded + page)[|folded + page| - 1] == last;
      }
      if last.version == MAX_U64 || t.foldFails {
        folded := [];
        return;
      }
      folded := folded + page;
      more, next := true, last.version + 1;
    }

    /**
     The next entry of the stream: one step of the task, followed by the turns of a rebuild if the fold
     refused it.
     */
    method Fold(shard: Shard, foldFails: bool, turns: seq<Turn>, ghost position: nat, entry: Committed)
      returns (ghost pages: nat)
      requires shard.Valid() && position < |shard.entries| && entry == shard.entries[position]
      modifies this, shard
      ensures shard.Valid() && old(shard.entries) <= shard.entries
      ensures Overlaps(old(folded), entry) ==> folded == old(folded) && synced == old(synced)
      ensures !Overlaps(old(folded), entry) && !foldFails ==> folded == old(folded) + [entry] && synced == old(synced)
      ensures !Overlaps(old(folded), entry) && foldFails ==>
        pages > 0 && Finished(shard.entries, TurnAt(turns, pages - 1))
      ensures Run(old(AsTask(shard.entries, position, false, Following)), [Receive(foldFails)] + StepsOf(turns, pages))
           == AsTask(shard.entries, position + 1, false, Following)
    {
      hide Run, StepsOf;
      ghost var s0 := AsTask(shard.entries, position, false, Following);
      pages := 0;
      ReceiveThenTurns(s0, foldFails, turns, 0);
      NoTurns(DoReceive(s0, foldFails), turns);
      if folded != [] && entry.version <= folded[|folded| - 1].version {
        return;
      }
      if foldFails {
        pages := Rebuild(shard, turns, position + 1, false);
        ReceiveThenTurns(s0, foldFails, turns, pages);
        return;
      }
      folded := folded + [entry];
    }
  }

  lemma NoTurns(s: Task, turns: seq<Turn>)
    ensures Run(s, StepsOf(turns, 0)) == s
  {}

  lemma NothingLands(s: Task)
    ensures Run(s, Commits(CALM.lands)) == s
  {}

  lemma ReceiveThenTurns(s: Task, foldFails: bool, turns: seq<Turn>, n: nat)
    requires s.mode.Following?
    ensures Run(s, [Receive(foldFails)] + StepsOf(turns, n)) == Run(DoReceive(s, foldFails), StepsOf(turns, n))
  {
    hide DoReceive, StepsOf;
    RunsJoin(s, [Receive(foldFails)], StepsOf(turns, n));
    NoSteps(s);
    assert [Receive(foldFails)][..0] == [];
    assert Run(s, [Receive(foldFails)]) == Do(Run(s, []), Receive(foldFails));
  }

  lemma NoSteps(s: Task)
    ensures Run(s, []) == s
  {}

  // ---------------------------------------------------------------------------
  // What a trim drops

  datatype ObjectRef = ObjectRef(key: ObjectKey, base: nat, count: nat)

  function EndOf(r: ObjectRef): nat {
    r.base + r.count
  }

  /** An end past the largest offset cannot be represented, and asking for it is an error. */
  predicate Overflows(r: ObjectRef) {
    EndOf(r) > MAX_I64
  }

  /** A partition's entries, history before tail: ascending, without overlap, none wholly trimmed. */
  ghost predicate Ascending(entries: seq<ObjectRef>, logStart: nat) {
    && (forall i | 0 <= i < |entries| :: entries[i].count > 0 && EndOf(entries[i]) > logStart)
    && (forall i, j | 0 <= i < j < |entries| :: EndOf(entries[i]) <= entries[j].base)
  }

  /** `find_batches` with no byte bound: a page of the entries that end past `cursor`. */
  function FindBatches(entries: seq<ObjectRef>, cursor: nat, max: nat): (r: Result<seq<ObjectRef>, ()>)
    ensures r.Ok? ==> |r.value| <= max
  {
    if entries == [] then Ok([])
    else if Overflows(entries[0]) then Err(())
    else if EndOf(entries[0]) <= cursor then FindBatches(entries[1..], cursor, max)
    else if max == 0 then Ok([])
    else
      var others :- FindBatches(entries[1..], cursor, max - 1);
      Ok([entries[0]] + others)
  }

  lemma {:induction false} PageIsTheNextRun(entries: seq<ObjectRef>, k: nat, cursor: nat, max: nat)
    requires k <= |entries| && max > 0
    requires forall i | 0 <= i < k :: EndOf(entries[i]) <= cursor && !Overflows(entries[i])
    requires forall i | k <= i < |entries| :: EndOf(entries[i]) > cursor
    ensures var r := FindBatches(entries, cursor, max);
      r.Ok? ==> r.value == entries[k..Min(k + max, |entries|)] && forall b | b in r.value :: !Overflows(b)
    ensures FindBatches(entries, cursor, max).Err? ==> exists i | k <= i < |entries| :: Overflows(entries[i])
    decreases |entries|
  {
    hide EndOf, Overflows, FindBatches;
    SkipsWhatEnded(entries, k, cursor, max);
    TakesARun(entries[k..], cursor, max);
    var n := Min(max, |entries| - k);
    assert entries[k..][..n] == entries[k..k + n];
  }

  lemma {:induction false} SkipsWhatEnded(entries: seq<ObjectRef>, k: nat, cursor: nat, max: nat)
    requires k <= |entries| && forall i | 0 <= i < k :: EndOf(entries[i]) <= cursor && !Overflows(entries[i])
    ensures FindBatches(entries, cursor, max) == FindBatches(entries[k..], cursor, max)
    decreases k
  {
    hide EndOf, Overflows;
    if k == 0 {
      assert entries[0..] == entries;
    } else {
      SkipsWhatEnded(entries[1..], k - 1, cursor, max);
      assert entries[1..][k - 1..] == entries[k..];
    }
  }

  lemma {:induction false} TakesARun(entries: seq<ObjectRef>, cursor: nat, max: nat)
    requires forall i | 0 <= i < |entries| :: EndOf(entries[i]) > cursor
    ensures var r := FindBatches(entries, cursor, max);
      r.Ok? ==> r.value == entries[..Min(max, |entries|)] && forall b | b in r.value :: !Overflows(b)
    ensures FindBatches(entries, cursor, max).Err? ==> exists i | 0 <= i < |entries| :: Overflows(entries[i])
    decreases |entries|
  {
    hide Overflows;
    if entries != [] && !Overflows(entries[0]) && max > 0 {
      var rest := entries[1..];
      TakesARun(rest, cursor, max - 1);
      assert entries[..Min(max, |entries|)] == [entries[0]] + rest[..Min(max - 1, |rest|)];
      assert forall i | 0 <= i < |rest| :: rest[i] == entries[i + 1];
    }
  }

  function Keys(entries: seq<ObjectRef>): seq<ObjectKey> {
    if entries == [] then [] else Keys(entries[..|entries| - 1]) + [entries[|entries| - 1].key]
  }

  predicate Contains(r: ObjectRef, offset: int) {
    r.base <= offset < r.base + r.count
  }

  /** No offset of this object is at or past the trim point. */
  ghost predicate WhollyUnder(r: ObjectRef, start: nat) {
    forall offset | Contains(r, offset) :: offset < start
  }

  lemma EndsUnder(r: ObjectRef, start: nat)
    requires r.count > 0
    ensures WhollyUnder(r, start) <==> EndOf(r) <= start
  {
    assert Contains(r, r.base + r.count - 1);
  }

  /** The objects of the entries wholly under the trim point, in the order they stand. */
  ghost function Under(entries: seq<ObjectRef>, start: nat): seq<ObjectKey> {
    if entries == [] then []
    else
      var last := entries[|entries| - 1];
      Under(entries[..|entries| - 1], start) + (if WhollyUnder(last, start) then [last.key] else [])
  }

  lemma {:induction false} UnderOfPrefix(entries: seq<ObjectRef>, n: nat, start: nat)
    requires n <= |entries| && forall i | 0 <= i < n :: EndOf(entries[i]) <= start
    requires forall e | e in entries :: e.count > 0
    ensures Keys(entries[..n]) <= Under(entries, start)
    ensures (forall i | n <= i < |entries| :: EndOf(entries[i]) > start) ==> Keys(entries[..n]) == Under(entries, start)
    decreases |entries|
  {
    if entries == [] {
    } else {
      var front := entries[..|entries| - 1];
      hide WhollyUnder;
      EndsUnder(entries[|entries| - 1], start);
      if n < |entries| {
        assert front[..n] == entries[..n];
        UnderOfPrefix(front, n, start);
      } else {
        assert entries[..n] == entries && front[..n - 1] == front;
        UnderOfPrefix(front, n - 1, start);
      }
    }
  }

  /**
   `below`: the objects of the entries wholly under `start`, in offset order. It never goes past
   the trim point nor skips an entry, and when no index read fails it leaves none of them out.
   */
  method Below(entries: seq<ObjectRef>, logStart: nat, start: nat) returns (dropped: seq<ObjectKey>)
    requires Ascending(entries, logStart)
    ensures dropped <= Under(entries, start)
    ensures (forall e | e in entries :: e.base + e.count <= 0x7FFF_FFFF_FFFF_FFFF) ==> dropped == Under(entries, start)
  {
    hide FindBatches, Keys, Under;
    dropped := [];
    ghost var n := 0;
    NoKeys(entries);
    var cursor: nat := logStart;
    while cursor < start
      invariant n <= |entries| && dropped == Keys(entries[..n])
      invariant forall i | 0 <= i < n :: EndOf(entries[i]) <= start && EndOf(entries[i]) <= cursor && !Overflows(entries[i])
      invariant forall i | n <= i < |entries| :: EndOf(entries[i]) > cursor
      decreases |entries| - n
    {
      UnderOfPrefix(entries, n, start);
      var page := FindBatches(entries, cursor, MAX_BATCHES_PER_PAGE);
      PageIsTheNextRun(entries, n, cursor, MAX_BATCHES_PER_PAGE);
      if page.Err? || page.value == [] {
        return;
      }
      var done;
      dropped, cursor, done, n := DropPage(entries, dropped, page.value, cursor, start, n);
      if done {
        UnderOfPrefix(entries, n, start);
        return;
      }
    }
    UnderOfPrefix(entries, n, start);
  }

  lemma NoKeys(entries: seq<ObjectRef>)
    ensures Keys(entries[..0]) == []
  {}

  /** One page of them; `done` when an entry reaches past the trim point. */
  method DropPage(ghost entries: seq<ObjectRef>, dropped: seq<ObjectKey>, page: seq<ObjectRef>, cursor: nat, start: nat, ghost n: nat)
    returns (more: seq<ObjectKey>, next: nat, done: bool, ghost m: nat)
    requires n + |page| <= |entries| && page == entries[n..n + |page|] && page != []
    requires (forall b | b in page :: !Overflows(b)) && dropped == Keys(entries[..n])
    requires forall i | 0 <= i < n :: EndOf(entries[i]) <= start && EndOf(entries[i]) <= cursor && !Overflows(entries[i])
    requires forall i | n <= i < |entries| :: EndOf(entries[i]) > cursor
    requires forall i, j | 0 <= i < j < |entries| :: EndOf(entries[i]) < EndOf(entries[j])
    ensures n <= m <= |entries| && more == Keys(entries[..m])
    ensures forall i | 0 <= i < m :: EndOf(entries[i]) <= start && EndOf(entries[i]) <= next && !Overflows(entries[i])
    ensures forall i | m <= i < |entries| :: EndOf(entries[i]) > next
    ensures if done then m < |entries| && EndOf(entries[m]) > start else m == n + |page|
  {
    hide Overflows;
    more, next, m := dropped, cursor, n;
    for i := 0 to |page|
      invariant m == n + i && more == Keys(entries[..m])
      invariant forall k | 0 <= k < m :: EndOf(entries[k]) <= start && EndOf(entries[k]) <= next && !Overflows(entries[k])
      invariant forall k | m <= k < |entries| :: EndOf(entries[k]) > next
    {
      var end := EndOf(page[i]);
      assert page[i] == entries[m];
      if end > start {
        return more, next, true, m;
      }
      assert entries[..m + 1][..m] == entries[..m];
      more, next, m := more + [page[i].key], end, m + 1;
    }
    done := false;
  }
}
