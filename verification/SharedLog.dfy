/**
 The whole node as a step system: the group actor and any number of concurrent offset commits,
 each reading the log's last version, appending optimistically and then applying, over one shared
 log, with appends refused and the process restarted at any point.
 */
module SharedLog {
  import opened Bytes
  import opened GroupState
  import opened GroupLog
  import opened VersionedLog
  import opened GroupTransitions
  import opened CommittedOffsets

  // ---------------------------------------------------------------------------
  // State and steps

  /** One call of the optimistic append; `begun` and `seen` are the log's length at those moments. */
  datatype Writer =
    | Reading(record: LogRecord, tries: nat, begun: nat)
    | Holding(record: LogRecord, tries: nat, begun: nat, seen: nat, next: u64)
    | Appended(record: LogRecord, version: u64)

  datatype Node = Node(
    log: seq<Entry>,
    started: seq<Entry>,
    live: Groups,
    actor: Option<Writer>,
    offsets: Offsets,
    commits: map<nat, Writer>,
    acked: set<Entry>)

  datatype Who = TheActor | TheCommit(id: nat)

  datatype Request = FireEvent(group: GroupId, event: Event) | SetRoster(group: GroupId, roster: Option<Roster>)

  datatype Step =
    | Receive(request: Request)
    | BeginCommit(id: nat, key: OffsetKey, offset: i64)
    | ReadVersion(who: Who)
    | TryAppend(who: Who)
    | LogRefuses(who: Who)
    | ApplyRequest
    | ApplyCommit(id: nat)
    | Restart

  function RecordOf(request: Request): LogRecord {
    match request
    case FireEvent(group, event) => GroupTransitioned(group, event)
    case SetRoster(group, roster) => GroupRosterUpdated(group, roster)
  }

  /** Whether the live coordinator would take this record; the actor asks before it appends. */
  predicate Admits(live: Groups, record: LogRecord) {
    record.GroupTransitioned? ==> Legal(live, record.group, record.event)
  }

  function WriterOf(s: Node, who: Who): Option<Writer> {
    match who
    case TheActor => s.actor
    case TheCommit(id) => if id in s.commits then Some(s.commits[id]) else None
  }

  /** The writer moved on, or its call answered an error and is gone. */
  function WithWriter(s: Node, who: Who, w: Option<Writer>): Node {
    match who
    case TheActor => s.(actor := w)
    case TheCommit(id) =>
      s.(commits := match w case Some(writer) => s.commits[id := writer] case None => s.commits - {id})
  }

  /** A node whose coordinator and offsets have just been rebuilt from its log. */
  function Opened(log: seq<Entry>, acked: set<Entry>): Node {
    Node(log, log, ReplayAll(log).groups, None, MergeAll(map[], log), map[], acked)
  }

  /** A step that is not enabled leaves the node as it was. */
  function Do(s: Node, step: Step): Node {
    match step
    case Receive(request) =>
      if s.actor.None? && Admits(s.live, RecordOf(request))
      then s.(actor := Some(Reading(RecordOf(request), 0, |s.log|))) else s
    case BeginCommit(id, key, offset) =>
      if id !in s.commits then s.(commits := s.commits[id := Reading(CommitOf(key, offset), 0, |s.log|)]) else s
    case ReadVersion(who) => DoRead(s, who)
    case TryAppend(who) => DoAppend(s, who)
    case LogRefuses(who) =>
      var w := WriterOf(s, who);
      if w.Some? && !w.value.Appended? then WithWriter(s, who, None) else s
    case ApplyRequest =>
      if s.actor.Some? && s.actor.value.Appended?
      then s.(live := ApplyRecord(s.live, s.actor.value.record), actor := None) else s
    case ApplyCommit(id) =>
      if id in s.commits && s.commits[id].Appended? then DoApplyCommit(s, id) else s
    case Restart =>
      if EndsOnTheBrink(s.log) then s else Opened(s.log, s.acked)
  }

  function DoRead(s: Node, who: Who): Node {
    var w := WriterOf(s, who);
    if w.None? || !w.value.Reading? then s
    else match NextVersion(s.log)
      case Err(_) => WithWriter(s, who, None)
      case Ok(next) =>
        WithWriter(s, who, Some(Holding(w.value.record, w.value.tries, w.value.begun, |s.log|, next)))
  }

  /** Accepted above the last version; otherwise one more try, up to eight. */
  function DoAppend(s: Node, who: Who): Node {
    var w := WriterOf(s, who);
    if w.None? || !w.value.Holding? then s
    else
      var h := w.value;
      if Above(s.log, h.next) then
        WithWriter(s.(log := s.log + [Entry(h.next, h.record)]), who, Some(Appended(h.record, h.next)))
      else if h.tries + 1 == MAX_APPEND_RETRIES then WithWriter(s, who, None)
      else
        WithWriter(s, who, Some(Reading(h.record, h.tries + 1, h.begun)))
  }

  function ApplyRecord(live: Groups, record: LogRecord): Groups {
    match record
    case OffsetCommitted(_, _, _, _) => live
    case GroupTransitioned(group, event) => if Legal(live, group, event) then Applied(live, group, event) else live
    case GroupRosterUpdated(group, roster) => WithRoster(live, group, roster)
  }

  function DoApplyCommit(s: Node, id: nat): Node
    requires id in s.commits && s.commits[id].Appended?
  {
    var e := Entry(s.commits[id].version, s.commits[id].record);
    s.(offsets := Merge(s.offsets, e), commits := s.commits - {id}, acked := s.acked + {e})
  }

  function Run(s: Node, steps: seq<Step>): Node {
    if steps == [] then s else Do(Run(s, steps[..|steps| - 1]), steps[|steps| - 1])
  }

  // ---------------------------------------------------------------------------
  // What every step keeps

  /** The live coordinator with the actor's durable but unapplied request added. */
  function Ahead(s: Node): Groups {
    if s.actor.Some? && s.actor.value.Appended? then ApplyRecord(s.live, s.actor.value.record) else s.live
  }

  /** A writer lost one race for every entry it counted; its candidate follows what it read. */
  ghost predicate GoodWriter(log: seq<Entry>, w: Writer) {
    match w
    case Reading(_, tries, begun) => tries < MAX_APPEND_RETRIES && begun + tries <= |log|
    case Holding(_, tries, begun, seen, next) =>
      && tries < MAX_APPEND_RETRIES && begun + tries <= seen <= |log| && NextVersion(log[..seen]) == Ok(next)
    case Appended(record, version) => Entry(version, record) in log
  }

  ghost predicate GoodWriters(s: Node) {
    && (s.actor.Some? ==>
          && GoodWriter(s.log, s.actor.value)
          && !s.actor.value.record.OffsetCommitted?
          && Admits(s.live, s.actor.value.record))
    && forall id | id in s.commits ::
         GoodWriter(s.log, s.commits[id]) && s.commits[id].record.OffsetCommitted?
  }

  /** A group that was whole at the start is whole and up to date; one that was poisoned stays as it was. */
  ghost predicate GroupAgrees(s: Node, group: GroupId) {
    if group in ReplayAll(s.started).poisoned
    then ViewOf(ReplayAll(s.log), group) == ViewOf(ReplayAll(s.started), group)
    else ViewOf(ReplayAll(s.log), group) == ViewOf(Replayed(Ahead(s), {}), group)
  }

  ghost predicate Pending(commits: map<nat, Writer>, e: Entry) {
    exists id | id in commits :: commits[id] == Appended(e.record, e.version)
  }

  predicate Shown(m: Offsets, e: Entry)
    requires e.record.OffsetCommitted?
  {
    var key := KeyOf(e.record);
    key in m && m[key].version >= e.version
  }

  /** Memory shows entries of the log, and every entry it does not show is on its way. */
  ghost predicate OffsetsAgree(log: seq<Entry>, m: Offsets, commits: map<nat, Writer>) {
    && (forall key | key in m :: Entry(m[key].version, CommitOf(key, m[key].offset)) in log)
    && (forall e | e in log && e.record.OffsetCommitted? :: Shown(m, e) || Pending(commits, e))
  }

  ghost predicate AcksHold(log: seq<Entry>, m: Offsets, acked: set<Entry>) {
    forall e | e in acked :: e in log && e.record.OffsetCommitted? && Shown(m, e)
  }

  ghost predicate Inv(s: Node) {
    && Increasing(s.log)
    && GoodWriters(s)
    && (forall group :: GroupAgrees(s, group))
    && OffsetsAgree(s.log, s.offsets, s.commits)
    && AcksHold(s.log, s.offsets, s.acked)
  }

  // ---------------------------------------------------------------------------
  // Opening

  lemma {:induction false} LatestCovers(log: seq<Entry>, e: Entry)
    requires Increasing(log) && e in log && e.record.OffsetCommitted?
    ensures var latest := Latest(log, KeyOf(e.record));
      latest.Some? && latest.value.version >= e.version
  {
    var front, last := log[..|log| - 1], log[|log| - 1];
    if e == last {
    } else if Commits(last, KeyOf(e.record)) {
      var i :| 0 <= i < |log| && log[i] == e;
      assert log[i].version < last.version;
    } else {
      LatestCovers(front, e);
    }
  }

  lemma {:induction false} LatestIsInTheLog(log: seq<Entry>, key: OffsetKey)
    requires Latest(log, key).Some?
    ensures Entry(Latest(log, key).value.version, CommitOf(key, Latest(log, key).value.offset)) in log
  {
    if !Commits(log[|log| - 1], key) {
      LatestIsInTheLog(log[..|log| - 1], key);
    }
  }

  lemma OpenedOffsetsAgree(log: seq<Entry>)
    requires Increasing(log)
    ensures OffsetsAgree(log, MergeAll(map[], log), map[])
    ensures forall e | e in log && e.record.OffsetCommitted? :: Shown(MergeAll(map[], log), e)
  {
    var m := MergeAll(map[], log);
    forall key | key in m ensures Entry(m[key].version, CommitOf(key, m[key].offset)) in log {
      ReplayServesTheLatest(log, key);
      LatestIsInTheLog(log, key);
    }
    forall e | e in log && e.record.OffsetCommitted? ensures Shown(m, e) {
      ReplayServesTheLatest(log, KeyOf(e.record));
      LatestCovers(log, e);
    }
  }

  lemma OpenedIsGood(log: seq<Entry>, acked: set<Entry>)
    requires Increasing(log)
    requires forall e | e in acked :: e in log && e.record.OffsetCommitted?
    ensures Inv(Opened(log, acked))
  {
    hide MergeAll, ReplayAll;
    OpenedOffsetsAgree(log);
  }

  // ---------------------------------------------------------------------------
  // One step

  lemma StepKeepsInv(s: Node, step: Step)
    requires Inv(s)
    ensures Inv(Do(s, step))
  {
    match step
    case Receive(request) => ReceiveKeepsInv(s, request);
    case BeginCommit(id, key, offset) => BeginKeepsInv(s, id, key, offset);
    case ReadVersion(who) => ReadKeepsInv(s, who);
    case TryAppend(who) => AppendKeepsInv(s, who);
    case LogRefuses(who) =>
      var w := WriterOf(s, who);
      if w.Some? && !w.value.Appended? {
        WriterMoves(s, who, None);
      }
    case ApplyRequest => ApplyKeepsInv(s);
    case ApplyCommit(id) => ApplyCommitKeepsInv(s, id);
    case Restart =>
      if !EndsOnTheBrink(s.log) {
        OpenedIsGood(s.log, s.acked);
      }
  }

  lemma ReceiveKeepsInv(s: Node, request: Request)
    requires Inv(s)
    ensures Inv(Do(s, Receive(request)))
  {
    hide ReplayAll, ViewOf, OffsetsAgree, AcksHold, Increasing;
    var s' := Do(s, Receive(request));
    forall group ensures GroupAgrees(s', group) {
      assert GroupAgrees(s, group);
    }
  }

  lemma BeginKeepsInv(s: Node, id: nat, key: OffsetKey, offset: i64)
    requires Inv(s)
    ensures Inv(Do(s, BeginCommit(id, key, offset)))
  {
    hide ReplayAll, ViewOf, Increasing;
    var s' := Do(s, BeginCommit(id, key, offset));
    forall group ensures GroupAgrees(s', group) {
      assert GroupAgrees(s, group);
    }
    PendingKept(s.log, s.commits, s'.commits);
  }

  /** Commits that were between append and apply still are. */
  lemma PendingKept(log: seq<Entry>, before: map<nat, Writer>, after: map<nat, Writer>)
    requires forall id | id in before && before[id].Appended? :: id in after && after[id] == before[id]
    ensures forall e | e in log && Pending(before, e) :: Pending(after, e)
  {
    forall e | e in log && Pending(before, e) ensures Pending(after, e) {
      var id :| id in before && before[id] == Appended(e.record, e.version);
      assert id in after && after[id] == Appended(e.record, e.version);
    }
  }

  /** A writer that has appended nothing yet may move or give up without anybody noticing. */
  lemma WriterMoves(s: Node, who: Who, w: Option<Writer>)
    requires Inv(s) && WriterOf(s, who).Some? && !WriterOf(s, who).value.Appended?
    requires w.Some? ==> !w.value.Appended? && GoodWriter(s.log, w.value) && w.value.record == WriterOf(s, who).value.record
    ensures Inv(WithWriter(s, who, w))
  {
    hide ReplayAll, ViewOf, Increasing, GoodWriter;
    var s' := WithWriter(s, who, w);
    forall group ensures GroupAgrees(s', group) {
      assert GroupAgrees(s, group);
    }
    PendingKept(s.log, s.commits, s'.commits);
  }

  lemma ReadKeepsInv(s: Node, who: Who)
    requires Inv(s)
    ensures Inv(DoRead(s, who))
  {
    hide Inv;
    var w := WriterOf(s, who);
    if w.Some? && w.value.Reading? {
      WriterIsGood(s, who);
      assert s.log[..|s.log|] == s.log;
      match NextVersion(s.log)
      case Err(_) => WriterMoves(s, who, None);
      case Ok(next) =>
        WriterMoves(s, who, Some(Holding(w.value.record, w.value.tries, w.value.begun, |s.log|, next)));
    }
  }

  lemma WriterIsGood(s: Node, who: Who)
    requires Inv(s) && WriterOf(s, who).Some?
    ensures Increasing(s.log) && GoodWriter(s.log, WriterOf(s, who).value)
  {}

  lemma AppendKeepsInv(s: Node, who: Who)
    requires Inv(s)
    ensures Inv(DoAppend(s, who))
  {
    hide Inv, GoodWriter;
    var w := WriterOf(s, who);
    if w.Some? && w.value.Holding? {
      var h := w.value;
      WriterIsGood(s, who);
      LostRace(s.log, h);
      if Above(s.log, h.next) {
        LandingKeepsInv(s, who, h);
      } else if h.tries + 1 == MAX_APPEND_RETRIES {
        WriterMoves(s, who, None);
      } else {
        WriterMoves(s, who, Some(Reading(h.record, h.tries + 1, h.begun)));
      }
    }
  }

  /** A candidate is refused only when somebody landed since it was read. */
  lemma LostRace(log: seq<Entry>, h: Writer)
    requires Increasing(log) && h.Holding? && GoodWriter(log, h)
    ensures h.tries < MAX_APPEND_RETRIES
    ensures !Above(log, h.next) ==> h.begun + h.tries + 1 <= |log|
    ensures !Above(log, h.next) && h.tries + 1 < MAX_APPEND_RETRIES ==>
      GoodWriter(log, Reading(h.record, h.tries + 1, h.begun))
  {
    StaleCandidate(log[..h.seen], log, h.next);
  }

  // ---------------------------------------------------------------------------
  // An append that lands

  lemma LandingKeepsInv(s: Node, who: Who, h: Writer)
    requires Inv(s) && WriterOf(s, who) == Some(h) && h.Holding? && Above(s.log, h.next)
    ensures var e := Entry(h.next, h.record);
      Inv(WithWriter(s.(log := s.log + [e]), who, Some(Appended(h.record, h.next))))
  {
    hide ReplayAll, ViewOf, GoodWriter, Increasing;
    var e := Entry(h.next, h.record);
    var s' := WithWriter(s.(log := s.log + [e]), who, Some(Appended(h.record, h.next)));
    IncreasingGrows(s.log, e);
    LandingKeepsWriters(s, who, h);
    forall group ensures GroupAgrees(s', group) {
      assert GroupAgrees(s, group);
      LandingKeepsGroup(s, who, h, group);
    }
    LandingKeepsOffsets(s, who, h);
  }

  lemma LongerLogKeepsWriter(log: seq<Entry>, e: Entry, w: Writer)
    requires GoodWriter(log, w)
    ensures GoodWriter(log + [e], w)
  {
    if w.Holding? {
      assert (log + [e])[..w.seen] == log[..w.seen];
    }
  }

  lemma LandingKeepsWriters(s: Node, who: Who, h: Writer)
    requires GoodWriters(s) && WriterOf(s, who) == Some(h) && h.Holding?
    ensures GoodWriters(WithWriter(s.(log := s.log + [Entry(h.next, h.record)]), who, Some(Appended(h.record, h.next))))
  {
    var e := Entry(h.next, h.record);
    assert GoodWriter(s.log + [e], Appended(h.record, h.next));
    hide GoodWriter;
    if s.actor.Some? {
      LongerLogKeepsWriter(s.log, e, s.actor.value);
    }
    forall id | id in s.commits ensures GoodWriter(s.log + [e], s.commits[id]) {
      LongerLogKeepsWriter(s.log, e, s.commits[id]);
    }
  }

  lemma LandingKeepsGroup(s: Node, who: Who, h: Writer, group: GroupId)
    requires GoodWriters(s) && GroupAgrees(s, group) && WriterOf(s, who) == Some(h) && h.Holding?
    ensures GroupAgrees(WithWriter(s.(log := s.log + [Entry(h.next, h.record)]), who, Some(Appended(h.record, h.next))), group)
  {
    hide ReplayAll, ViewOf, ReplayOne, ApplyRecord, GoodWriter, StepView;
    ReplayOneMore(s.log, Entry(h.next, h.record), group);
    if who == TheActor {
      ViewStep(Replayed(s.live, {}), h.record, group);
      AdmittedIsApplied(s.live, h.record);
      PoisonedViewStays(ReplayAll(s.started), h.record, group);
    } else {
      CommitsConcernNobody(h.record, group);
    }
  }

  lemma ReplayOneMore(log: seq<Entry>, e: Entry, group: GroupId)
    ensures ViewOf(ReplayAll(log + [e]), group) ==
      if Concerns(e.record, group) then StepView(ViewOf(ReplayAll(log), group), e.record) else ViewOf(ReplayAll(log), group)
  {
    ReplayAppends(Replayed(NO_GROUPS, {}), log, e);
    ViewStep(ReplayAll(log), e.record, group);
  }

  lemma PoisonedViewStays(r: Replayed, record: LogRecord, group: GroupId)
    ensures group in r.poisoned ==> StepView(ViewOf(r, group), record) == ViewOf(r, group)
    ensures group in r.poisoned <==> ViewOf(r, group).poisoned
  {}

  lemma CommitsConcernNobody(record: LogRecord, group: GroupId)
    requires record.OffsetCommitted?
    ensures !Concerns(record, group)
  {}

  lemma AdmittedIsApplied(live: Groups, record: LogRecord)
    requires Admits(live, record)
    ensures ReplayOne(Replayed(live, {}), record) == Replayed(ApplyRecord(live, record), {})
  {}

  lemma LandingKeepsOffsets(s: Node, who: Who, h: Writer)
    requires GoodWriters(s) && WriterOf(s, who) == Some(h) && h.Holding?
    requires OffsetsAgree(s.log, s.offsets, s.commits) && AcksHold(s.log, s.offsets, s.acked)
    ensures var s' := WithWriter(s.(log := s.log + [Entry(h.next, h.record)]), who, Some(Appended(h.record, h.next)));
      OffsetsAgree(s'.log, s'.offsets, s'.commits) && AcksHold(s'.log, s'.offsets, s'.acked)
  {
    hide GoodWriter;
    var e := Entry(h.next, h.record);
    var s' := WithWriter(s.(log := s.log + [e]), who, Some(Appended(h.record, h.next)));
    PendingKept(s.log, s.commits, s'.commits);
    if h.record.OffsetCommitted? {
      assert who.TheCommit? && s'.commits[who.id] == Appended(h.record, h.next);
      assert Pending(s'.commits, e);
    }
  }

  // ---------------------------------------------------------------------------
  // The two applies

  lemma ApplyKeepsInv(s: Node)
    requires Inv(s)
    ensures Inv(Do(s, ApplyRequest))
  {
    hide ReplayAll, ViewOf, OffsetsAgree, AcksHold, Increasing, ApplyRecord;
    var s' := Do(s, ApplyRequest);
    forall group ensures GroupAgrees(s', group) {
      assert GroupAgrees(s, group);
    }
  }

  lemma ApplyCommitKeepsInv(s: Node, id: nat)
    requires Inv(s)
    ensures Inv(Do(s, ApplyCommit(id)))
  {
    hide ReplayAll, ViewOf, Increasing;
    if id in s.commits && s.commits[id].Appended? {
      var s' := DoApplyCommit(s, id);
      forall group ensures GroupAgrees(s', group) {
        assert GroupAgrees(s, group);
      }
      assert GoodWriter(s.log, s.commits[id]);
      MergeShows(s, id);
    }
  }

  lemma MergeShows(s: Node, id: nat)
    requires id in s.commits && s.commits[id].Appended? && s.commits[id].record.OffsetCommitted?
    requires Entry(s.commits[id].version, s.commits[id].record) in s.log
    requires OffsetsAgree(s.log, s.offsets, s.commits) && AcksHold(s.log, s.offsets, s.acked)
    ensures var s' := DoApplyCommit(s, id);
      OffsetsAgree(s'.log, s'.offsets, s'.commits) && AcksHold(s'.log, s'.offsets, s'.acked)
  {
    var s' := DoApplyCommit(s, id);
    var landed := Entry(s.commits[id].version, s.commits[id].record);
    assert landed.record == CommitOf(KeyOf(landed.record), landed.record.offset);
    forall e | e in s.log && e.record.OffsetCommitted? ensures Shown(s'.offsets, e) || Pending(s'.commits, e) {
      if !Shown(s.offsets, e) && e != landed {
        var other :| other in s.commits && s.commits[other] == Appended(e.record, e.version);
        assert other in s'.commits && s'.commits[other] == Appended(e.record, e.version);
      }
    }
  }

  // ---------------------------------------------------------------------------
  // Whole runs

  lemma {:induction false} RunsKeepInv(log: seq<Entry>, steps: seq<Step>)
    requires Increasing(log)
    ensures Inv(Run(Opened(log, {}), steps))
    decreases |steps|
  {
    hide Inv, Do;
    if steps == [] {
      OpenedIsGood(log, {});
    } else {
      RunsKeepInv(log, steps[..|steps| - 1]);
      StepKeepsInv(Run(Opened(log, {}), steps[..|steps| - 1]), steps[|steps| - 1]);
    }
  }

  lemma PoisonIsConstant(s: Node, step: Step)
    requires Inv(s)
    ensures ReplayAll(Do(s, step).started).poisoned == ReplayAll(s.started).poisoned
  {
    hide ReplayAll;
    if step == Restart && !EndsOnTheBrink(s.log) {
      forall group
        ensures group in ReplayAll(s.log).poisoned <==> group in ReplayAll(s.started).poisoned
      {
        assert GroupAgrees(s, group);
      }
      assert Do(s, step).started == s.log;
    } else {
      assert Do(s, step).started == s.started;
    }
  }

  lemma {:induction false} RunsKeepPoison(log: seq<Entry>, steps: seq<Step>)
    requires Increasing(log)
    ensures ReplayAll(Run(Opened(log, {}), steps).started).poisoned == ReplayAll(log).poisoned
    decreases |steps|
  {
    hide Inv, Do, ReplayAll;
    if steps != [] {
      var front := steps[..|steps| - 1];
      RunsKeepPoison(log, front);
      RunsKeepInv(log, front);
      PoisonIsConstant(Run(Opened(log, {}), front), steps[|steps| - 1]);
    }
  }

  /** What a poisoned group replays to never changes again. */
  lemma {:induction false} PoisonedStaysFrozen(log: seq<Entry>, steps: seq<Step>, group: GroupId)
    requires Increasing(log) && group in ReplayAll(log).poisoned
    ensures ViewOf(ReplayAll(Run(Opened(log, {}), steps).started), group) == ViewOf(ReplayAll(log), group)
    decreases |steps|
  {
    hide ReplayAll, ViewOf, Inv, Do;
    if steps != [] {
      var front, step := steps[..|steps| - 1], steps[|steps| - 1];
      var s := Run(Opened(log, {}), front);
      PoisonedStaysFrozen(log, front, group);
      RunsKeepInv(log, front);
      RunsKeepPoison(log, front);
      FrozenStep(s, step, group);
    }
  }

  lemma FrozenStep(s: Node, step: Step, group: GroupId)
    requires Inv(s) && group in ReplayAll(s.started).poisoned
    ensures ViewOf(ReplayAll(Do(s, step).started), group) == ViewOf(ReplayAll(s.started), group)
  {
    hide ReplayAll, ViewOf;
    assert GroupAgrees(s, group);
    assert Do(s, step).started == s.started || Do(s, step).started == s.log;
  }

  /**
   The durable log and the live coordinator agree. For every run from a log that replays legally,
   with commits interleaved, appends refused and restarts anywhere: replaying the log into a fresh
   coordinator gives exactly the live records and rosters, or, between the append and the apply of
   a request, the live ones with that one request added.
   */
  lemma {:induction false} LiveIsReplay(log: seq<Entry>, steps: seq<Step>)
    requires Increasing(log) && ReplayAll(log).poisoned == {}
    ensures var s := Run(Opened(log, {}), steps);
      ReplayAll(s.log) == Replayed(Ahead(s), {})
  {
    hide Inv, Run, ReplayAll, Ahead;
    var s := Run(Opened(log, {}), steps);
    RunsKeepInv(log, steps);
    RunsKeepPoison(log, steps);
    forall group
      ensures ViewOf(ReplayAll(s.log), group) == ViewOf(Replayed(Ahead(s), {}), group)
    {
      WholeGroup(s, group);
    }
    ViewsDecide(ReplayAll(s.log), Replayed(Ahead(s), {}));
  }

  lemma WholeGroup(s: Node, group: GroupId)
    requires Inv(s) && group !in ReplayAll(s.started).poisoned
    ensures ViewOf(ReplayAll(s.log), group) == ViewOf(Replayed(Ahead(s), {}), group)
  {
    hide ReplayAll, ViewOf, Ahead;
    assert GroupAgrees(s, group);
  }

  lemma ViewsDecide(a: Replayed, b: Replayed)
    requires forall group :: ViewOf(a, group) == ViewOf(b, group)
    ensures a == b
  {
    forall group: GroupId
      ensures group in a.poisoned <==> group in b.poisoned
      ensures Lookup(a.groups.records, group) == Lookup(b.groups.records, group)
      ensures Lookup(a.groups.rosters, group) == Lookup(b.groups.rosters, group)
    {
      assert ViewOf(a, group) == ViewOf(b, group);
    }
    LookupsDecide(a.groups.records, b.groups.records);
    LookupsDecide(a.groups.rosters, b.groups.rosters);
  }

  lemma LookupsDecide<V>(a: map<GroupId, V>, b: map<GroupId, V>)
    requires forall group: GroupId :: Lookup(a, group) == Lookup(b, group)
    ensures a == b
  {
    forall group: GroupId
      ensures group in a <==> group in b
      ensures group in a ==> a[group] == b[group]
    {
      assert Lookup(a, group) == Lookup(b, group);
    }
  }

  /** The same group by group, for any log: whole groups agree, poisoned ones never leave their prefix. */
  lemma {:induction false} GroupByGroup(log: seq<Entry>, steps: seq<Step>, group: GroupId)
    requires Increasing(log)
    ensures var s := Run(Opened(log, {}), steps);
      if group in ReplayAll(log).poisoned
      then ViewOf(ReplayAll(s.log), group) == ViewOf(ReplayAll(log), group)
      else ViewOf(ReplayAll(s.log), group) == ViewOf(Replayed(Ahead(s), {}), group)
  {
    hide Run, ReplayAll, Ahead, ViewOf;
    RunsKeepInv(log, steps);
    RunsKeepPoison(log, steps);
    if group in ReplayAll(log).poisoned {
      PoisonedStaysFrozen(log, steps, group);
    }
    assert GroupAgrees(Run(Opened(log, {}), steps), group);
  }

  /**
   Why the log must replay legally: a group poisoned at the start is served live, but what it is
   told next is lost on replay. Four steps are enough, whatever the log.
   */
  lemma {:induction false} PoisonedGroupsDrift(log: seq<Entry>, group: GroupId, roster: Roster)
    requires Increasing(log) && group in ReplayAll(log).poisoned && NextVersion(log).Ok?
    requires Lookup(ReplayAll(log).groups.rosters, group) != Some(roster)
    ensures var s := Run(Opened(log, {}), Telling(group, roster));
      && s.actor.None?
      && Lookup(s.live.rosters, group) == Some(roster)
      && Lookup(ReplayAll(s.log).groups.rosters, group) != Some(roster)
  {
    hide ReplayAll, MergeAll;
    var steps := Telling(group, roster);
    var record := GroupRosterUpdated(group, Some(roster));
    var s0 := Opened(log, {});
    var s1 := s0.(actor := Some(Reading(record, 0, |log|)));
    var s2 := s0.(actor := Some(Holding(record, 0, |log|, |log|, NextVersion(log).value)));
    var s3 := Do(s2, TryAppend(TheActor));
    assert steps[..3][..2] == steps[..2] && steps[..2][..1] == steps[..1] && steps[..1][..0] == [];
    assert Run(s0, steps[..1]) == s1;
    assert Run(s0, steps[..2]) == s2;
    assert Run(s0, steps[..3]) == s3;
    GroupByGroup(log, steps, group);
    assert Run(s0, steps) == Do(s3, ApplyRequest);
  }

  function Telling(group: GroupId, roster: Roster): seq<Step> {
    [Receive(SetRoster(group, Some(roster))), ReadVersion(TheActor), TryAppend(TheActor), ApplyRequest]
  }

  // ---------------------------------------------------------------------------
  // Offsets over whole runs

  /** The version served for a key never decreases, across commits in any order and restarts too. */
  lemma StepNeverGoesBack(s: Node, step: Step, key: OffsetKey)
    requires Inv(s)
    ensures AtLeast(Served(Do(s, step).offsets, key), Served(s.offsets, key))
  {
    hide ReplayAll, GroupAgrees, GoodWriters, AcksHold, NextVersion, ApplyRecord, Admits, Above;
    if step == Restart && !EndsOnTheBrink(s.log) && key in s.offsets {
      OpenedOffsetsAgree(s.log);
      var e := Entry(s.offsets[key].version, CommitOf(key, s.offsets[key].offset));
      assert e in s.log && Shown(MergeAll(map[], s.log), e);
    }
  }

  lemma {:induction false} ServedNeverGoesBack(log: seq<Entry>, steps: seq<Step>, more: seq<Step>, key: OffsetKey)
    requires Increasing(log)
    ensures var s0 := Opened(log, {});
      AtLeast(Served(Run(s0, steps + more).offsets, key), Served(Run(s0, steps).offsets, key))
    decreases |more|
  {
    hide Inv, Do, Opened;
    if more == [] {
      assert steps + more == steps;
    } else {
      var front := more[..|more| - 1];
      assert (steps + more)[..|steps + more| - 1] == steps + front;
      ServedNeverGoesBack(log, steps, front, key);
      RunsKeepInv(log, steps + front);
      StepNeverGoesBack(Run(Opened(log, {}), steps + front), more[|more| - 1], key);
    }
  }

  lemma AcknowledgedStays(s: Node, step: Step)
    ensures s.acked <= Do(s, step).acked
  {}

  lemma {:induction false} AcknowledgementsStay(s: Node, steps: seq<Step>, more: seq<Step>)
    ensures Run(s, steps).acked <= Run(s, steps + more).acked
    decreases |more|
  {
    hide Do;
    if more == [] {
      assert steps + more == steps;
    } else {
      var front := more[..|more| - 1];
      assert (steps + more)[..|steps + more| - 1] == steps + front;
      AcknowledgementsStay(s, steps, front);
      AcknowledgedStays(Run(s, steps + front), more[|more| - 1]);
    }
  }

  /**
   Once a commit is acknowledged it is in the log for good, once, and nothing older is ever served in
   its place: after any further steps, restarts among them.
   */
  lemma {:induction false} AcknowledgedIsServed(log: seq<Entry>, steps: seq<Step>, more: seq<Step>, e: Entry)
    requires Increasing(log) && e in Run(Opened(log, {}), steps).acked
    ensures var s := Run(Opened(log, {}), steps + more);
      && multiset(s.log)[e] == 1 && e.record.OffsetCommitted?
      && KeyOf(e.record) in s.offsets && s.offsets[KeyOf(e.record)].version >= e.version
  {
    hide Run;
    AcknowledgementsStay(Opened(log, {}), steps, more);
    RunsKeepInv(log, steps + more);
    var s := Run(Opened(log, {}), steps + more);
    assert e in s.log;
    var i :| 0 <= i < |s.log| && s.log[i] == e;
    OnceInAnIncreasingLog(s.log, i);
  }

  /** Memory shows, for each key, the newest entry of the log that is not still on its way. */
  lemma {:induction false} ServedIsNewestApplied(log: seq<Entry>, steps: seq<Step>, key: OffsetKey, e: Entry)
    requires Increasing(log) && e in Run(Opened(log, {}), steps).log && Commits(e, key)
    ensures var s := Run(Opened(log, {}), steps);
      || Pending(s.commits, e)
      || (key in s.offsets
          && s.offsets[key].version >= e.version
          && Entry(s.offsets[key].version, CommitOf(key, s.offsets[key].offset)) in s.log)
  {
    hide Run;
    RunsKeepInv(log, steps);
    var s := Run(Opened(log, {}), steps);
    assert Shown(s.offsets, e) || Pending(s.commits, e);
  }

  /** Once no commit is between its append and its apply, memory is what a replay would build. */
  lemma {:induction false} QuietIsReplay(log: seq<Entry>, steps: seq<Step>)
    requires Increasing(log)
    requires var s := Run(Opened(log, {}), steps);
      forall id | id in s.commits :: !s.commits[id].Appended?
    ensures var s := Run(Opened(log, {}), steps);
      s.offsets == MergeAll(map[], s.log)
  {
    hide Run;
    RunsKeepInv(log, steps);
    QuietAgrees(Run(Opened(log, {}), steps));
  }

  lemma QuietAgrees(s: Node)
    requires Inv(s) && forall id | id in s.commits :: !s.commits[id].Appended?
    ensures s.offsets == MergeAll(map[], s.log)
  {
    hide MergeAll, ReplayAll;
    var m := MergeAll(map[], s.log);
    forall key: OffsetKey ensures Served(m, key) == Served(s.offsets, key) {
      ReplayServesTheLatest(s.log, key);
      QuietKey(s, key);
    }
    forall key: OffsetKey
      ensures key in m <==> key in s.offsets
      ensures key in m ==> m[key] == s.offsets[key]
    {
      assert Served(m, key) == Served(s.offsets, key);
    }
  }

  lemma QuietKey(s: Node, key: OffsetKey)
    requires Inv(s) && forall id | id in s.commits :: !s.commits[id].Appended?
    ensures Served(s.offsets, key) == Latest(s.log, key)
  {
    hide ReplayAll;
    var latest := Latest(s.log, key);
    if latest.Some? {
      LatestIsInTheLog(s.log, key);
      var e := Entry(latest.value.version, CommitOf(key, latest.value.offset));
      assert KeyOf(e.record) == key;
      assert Shown(s.offsets, e) || Pending(s.commits, e);
    }
    if key in s.offsets {
      var e := Entry(s.offsets[key].version, CommitOf(key, s.offsets[key].offset));
      assert e in s.log && KeyOf(e.record) == key;
      LatestCovers(s.log, e);
      SameVersionSameEntry(s.log, e, Entry(latest.value.version, CommitOf(key, latest.value.offset)));
    }
  }

  lemma SameVersionSameEntry(log: seq<Entry>, a: Entry, b: Entry)
    requires Increasing(log) && a in log && b in log
    ensures a.version == b.version ==> a == b
  {
    var i :| 0 <= i < |log| && log[i] == a;
    var j :| 0 <= j < |log| && log[j] == b;
  }
}
