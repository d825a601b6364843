/**
 The group-transitions actor: what it does with one request, and the replay that rebuilds its
 coordinator from the log page by page, containing a group whose history is illegal.
 */
module GroupTransitions {
  import opened Bytes
  import opened GroupState
  import opened GroupLog
  import opened VersionedLog

  // ---------------------------------------------------------------------------
  // The coordinator's contents as a value

  datatype Groups = Groups(records: map<GroupId, GroupRecord>, rosters: map<GroupId, Roster>)

  const NO_GROUPS := Groups(map[], map[])

  /** A group nothing was recorded for is a fresh one. */
  function Current(c: Groups, group: GroupId): GroupRecord {
    if group in c.records then c.records[group] else FRESH
  }

  predicate Legal(c: Groups, group: GroupId, event: Event) {
    Transition(Current(c, group), event).Some?
  }

  function WithRoster(c: Groups, group: GroupId, roster: Option<Roster>): Groups {
    c.(rosters := match roster case Some(r) => c.rosters[group := r] case None => c.rosters - {group})
  }

  predicate ClearsRoster(event: Event) {
    event.AllMembersGone? || event.Expire?
  }

  /** A legal event applied: the record moves, and the last member's departure clears the roster. */
  function Applied(c: Groups, group: GroupId, event: Event): Groups
    requires Legal(c, group, event)
  {
    var moved := c.(records := c.records[group := Transition(Current(c, group), event).value]);
    if ClearsRoster(event) then WithRoster(moved, group, None) else moved
  }

  /** The roster of a group goes with its last member or its expiry, and with no other event of anybody's. */
  lemma LastOutClearsTheRoster(c: Groups, group: GroupId, event: Event, any: GroupId)
    requires Legal(c, group, event)
    ensures Lookup(Applied(c, group, event).rosters, any) ==
      if any == group && event in {AllMembersGone, Expire} then None else Lookup(c.rosters, any)
  {}

  // ---------------------------------------------------------------------------
  // Replay as one fold

  datatype Replayed = Replayed(groups: Groups, poisoned: set<GroupId>)

  function ReplayOne(r: Replayed, record: LogRecord): Replayed {
    match record
    case OffsetCommitted(_, _, _, _) => r
    case GroupTransitioned(group, event) =>
      if group in r.poisoned then r
      else if Legal(r.groups, group, event) then r.(groups := Applied(r.groups, group, event))
      else r.(poisoned := r.poisoned + {group})
    case GroupRosterUpdated(group, roster) =>
      if group in r.poisoned then r else r.(groups := WithRoster(r.groups, group, roster))
  }

  function ReplayFrom(init: Replayed, log: seq<Entry>): Replayed {
    if log == [] then init else ReplayOne(ReplayFrom(init, log[..|log| - 1]), log[|log| - 1].record)
  }

  function ReplayAll(log: seq<Entry>): Replayed {
    ReplayFrom(Replayed(NO_GROUPS, {}), log)
  }

  lemma ReplayAppends(init: Replayed, log: seq<Entry>, e: Entry)
    ensures ReplayFrom(init, log + [e]) == ReplayOne(ReplayFrom(init, log), e.record)
  {
    assert (log + [e])[..|log|] == log;
  }

  // ---------------------------------------------------------------------------
  // Replay, one group at a time

  datatype GroupView = GroupView(record: Option<GroupRecord>, roster: Option<Roster>, poisoned: bool)

  function Lookup<V>(m: map<GroupId, V>, group: GroupId): Option<V> {
    if group in m then Some(m[group]) else None
  }

  function ViewOf(r: Replayed, group: GroupId): GroupView {
    GroupView(Lookup(r.groups.records, group), Lookup(r.groups.rosters, group), group in r.poisoned)
  }

  predicate Concerns(record: LogRecord, group: GroupId) {
    !record.OffsetCommitted? && record.group == group
  }

  /** A group's own entries, in log order. */
  function Own(log: seq<Entry>, group: GroupId): (own: seq<LogRecord>)
    ensures forall r | r in own :: !r.OffsetCommitted?
  {
    if log == [] then []
    else
      var last := log[|log| - 1].record;
      Own(log[..|log| - 1], group) + (if Concerns(last, group) then [last] else [])
  }

  function EventsOf(own: seq<LogRecord>): seq<Event> {
    if own == [] then []
    else
      var last := own[|own| - 1];
      EventsOf(own[..|own| - 1]) + (if last.GroupTransitioned? then [last.event] else [])
  }

  /** A history the table allows from a fresh group on. */
  predicate LegalHistory(own: seq<LogRecord>) {
    Fire(FRESH, EventsOf(own)).Some?
  }

  function LongestLegal(own: seq<LogRecord>): (k: nat)
    ensures k <= |own| && LegalHistory(own[..k])
  {
    if own == [] then 0
    else if LegalHistory(own) then assert own[..|own|] == own; |own|
    else
      var front := own[..|own| - 1];
      assert forall k | 0 <= k <= |front| :: front[..k] == own[..k];
      LongestLegal(front)
  }

  /** The roster last set, unless the members have all gone since. */
  function RosterOf(own: seq<LogRecord>): Option<Roster> {
    if own == [] then None
    else match own[|own| - 1]
      case GroupRosterUpdated(_, roster) => roster
      case GroupTransitioned(_, AllMembersGone) => None
      case GroupTransitioned(_, Expire) => None
      case GroupTransitioned(_, _) => RosterOf(own[..|own| - 1])
      case OffsetCommitted(_, _, _, _) => RosterOf(own[..|own| - 1])
  }

  /** What a group's own history makes of it, with no other group in sight. */
  function OwnView(own: seq<LogRecord>): GroupView
    requires LegalHistory(own)
  {
    GroupView(
      if EventsOf(own) == [] then None else Some(Fire(FRESH, EventsOf(own)).value),
      RosterOf(own),
      false)
  }

  lemma {:induction false} FireAppends(r: GroupRecord, events: seq<Event>, e: Event)
    ensures Fire(r, events + [e]) ==
      match Fire(r, events) case None => None case Some(last) => Transition(last, e)
    decreases |events|
  {
    if events == [] {
      assert events + [e] == [e];
    } else {
      assert (events + [e])[0] == events[0] && (events + [e])[1..] == events[1..] + [e];
      if Transition(r, events[0]).Some? {
        FireAppends(Transition(r, events[0]).value, events[1..], e);
      }
    }
  }

  /** The prefixes of a legal history are legal, so the longest legal prefix is where poison starts. */
  lemma LegalPrefixes(own: seq<LogRecord>)
    requires own != [] && LegalHistory(own)
    ensures LegalHistory(own[..|own| - 1])
  {
    var front, last := own[..|own| - 1], own[|own| - 1];
    if last.GroupTransitioned? {
      FireAppends(FRESH, EventsOf(front), last.event);
    } else {
      assert EventsOf(front) + [] == EventsOf(front);
    }
  }

  lemma {:induction false} LongestLegalIsLongest(own: seq<LogRecord>, k: nat)
    requires k <= |own| && LegalHistory(own[..k])
    ensures k <= LongestLegal(own)
  {
    if !LegalHistory(own) {
      assert own[..|own|] == own;
      assert own[..|own| - 1][..k] == own[..k];
      LongestLegalIsLongest(own[..|own| - 1], k);
    }
  }

  /**
   Poison containment: for every log, legal or not, a group's replayed record and roster depend on
   its own entries alone and are those of its longest legal prefix; it is poisoned exactly when
   something was left over.
   */
  lemma {:induction false} PoisonIsContained(log: seq<Entry>, group: GroupId)
    ensures var own := Own(log, group);
      var k := LongestLegal(own);
      ViewOf(ReplayAll(log), group) == OwnView(own[..k]).(poisoned := k < |own|)
  {
    if log == [] {
      assert EventsOf([]) == [];
    } else {
      var front, e := log[..|log| - 1], log[|log| - 1];
      PoisonIsContained(front, group);
      var own := Own(front, group);
      ViewStep(ReplayAll(front), e.record, group);
      if Concerns(e.record, group) {
        OneMore(own, e.record);
      } else {
        assert own + [] == own;
      }
    }
  }

  /** An event that leaves somebody in the group, or finds nobody there to lose. */
  predicate LeavesRosterAlone(record: LogRecord) {
    record.GroupTransitioned? && record.event !in {AllMembersGone, Expire}
  }

  /** The entry at `i` set this roster, and nothing since set another or saw the last member go. */
  ghost predicate LastSetAt(own: seq<LogRecord>, roster: Roster, i: int) {
    && 0 <= i < |own| && own[i].GroupRosterUpdated? && own[i].roster == Some(roster)
    && forall j | i < j < |own| :: LeavesRosterAlone(own[j])
  }

  lemma {:induction false} RosterIsTheLastSet(own: seq<LogRecord>, roster: Roster)
    requires forall r | r in own :: !r.OffsetCommitted?
    ensures RosterOf(own) == Some(roster) <==> exists i :: LastSetAt(own, roster, i)
  {
    if own != [] {
      var n := |own| - 1;
      RosterIsTheLastSet(own[..n], roster);
      if RosterOf(own) == Some(roster) {
        if own[n].GroupRosterUpdated? {
          assert LastSetAt(own, roster, n);
        } else {
          var i :| LastSetAt(own[..n], roster, i);
          assert LastSetAt(own, roster, i);
        }
      }
      if i :| LastSetAt(own, roster, i) && i != n {
        assert LeavesRosterAlone(own[n]);
        assert LastSetAt(own[..n], roster, i);
      }
    }
  }

  /**
   The replayed roster of a group is the one set since the last AllMembersGone or Expire of its legal
   history, or there is none.
   */
  lemma RosterSinceTheLastDeparture(log: seq<Entry>, group: GroupId, roster: Roster)
    ensures var own := Own(log, group)[..LongestLegal(Own(log, group))];
      Lookup(ReplayAll(log).groups.rosters, group) == Some(roster) <==> exists i :: LastSetAt(own, roster, i)
  {
    hide ReplayAll, LongestLegal, LastSetAt, RosterOf;
    PoisonIsContained(log, group);
    RosterIsTheLastSet(Own(log, group)[..LongestLegal(Own(log, group))], roster);
  }

  /** One entry moves the view of the group it concerns and of no other. */
  function StepView(v: GroupView, record: LogRecord): GroupView {
    match record
    case OffsetCommitted(_, _, _, _) => v
    case GroupTransitioned(_, event) =>
      var current := if v.record.Some? then v.record.value else FRESH;
      var next := Transition(current, event);
      if v.poisoned then v
      else if next.None? then v.(poisoned := true)
      else v.(record := next, roster := if ClearsRoster(event) then None else v.roster)
    case GroupRosterUpdated(_, roster) => if v.poisoned then v else v.(roster := roster)
  }

  lemma ViewStep(r: Replayed, record: LogRecord, group: GroupId)
    ensures ViewOf(ReplayOne(r, record), group) ==
      if Concerns(record, group) then StepView(ViewOf(r, group), record) else ViewOf(r, group)
  {}

  lemma OneMore(own: seq<LogRecord>, record: LogRecord)
    requires !record.OffsetCommitted?
    ensures var k, k' := LongestLegal(own), LongestLegal(own + [record]);
      StepView(OwnView(own[..k]).(poisoned := k < |own|), record)
        == OwnView((own + [record])[..k']).(poisoned := k' < |own| + 1)
  {
    hide StepView, OwnView, LegalHistory, LongestLegal;
    var more := own + [record];
    var k, k' := LongestLegal(own), LongestLegal(more);
    LongestOfMore(own, record);
    if LegalHistory(own) {
      LegalMore(own, record);
      assert own[..k] == own;
      assert more[..k'] == if LegalHistory(more) then more else own;
    } else {
      assert more[..k'] == own[..k];
      PoisonedStays(OwnView(own[..k]), record);
    }
  }

  lemma LongestOfMore(own: seq<LogRecord>, record: LogRecord)
    ensures LegalHistory(own) ==> LongestLegal(own) == |own|
    ensures !LegalHistory(own) ==> LongestLegal(own) < |own| && !LegalHistory(own + [record])
    ensures LongestLegal(own + [record]) == if LegalHistory(own + [record]) then |own| + 1 else LongestLegal(own)
  {
    var more := own + [record];
    assert own[..|own|] == own && more[..|own|] == own && more[..|more| - 1] == own;
    if LegalHistory(more) {
      LegalPrefixes(more);
    }
  }

  lemma PoisonedStays(v: GroupView, record: LogRecord)
    ensures StepView(v.(poisoned := true), record) == v.(poisoned := true)
  {}

  lemma LegalMore(own: seq<LogRecord>, record: LogRecord)
    requires !record.OffsetCommitted? && LegalHistory(own)
    ensures StepView(OwnView(own), record) ==
      if LegalHistory(own + [record]) then OwnView(own + [record]) else OwnView(own).(poisoned := true)
    ensures !OwnView(own).poisoned && (LegalHistory(own + [record]) ==> !OwnView(own + [record]).poisoned)
  {
    var more := own + [record];
    assert more[..|more| - 1] == own && more[|more| - 1] == record;
    if record.GroupTransitioned? {
      FireAppends(FRESH, EventsOf(own), record.event);
    } else {
      assert EventsOf(own) + [] == EventsOf(own);
    }
  }

  // ---------------------------------------------------------------------------
  // The coordinator as an object, and the paged replay into it

  class Coordinator {
    var records: map<GroupId, GroupRecord>
    var rosters: map<GroupId, Roster>

    function Contents(): Groups
      reads this
    {
      Groups(records, rosters)
    }

    constructor ()
      ensures Contents() == NO_GROUPS
    {
      records := map[];
      rosters := map[];
    }

    /** A refused event leaves nothing applied. */
    method Fire(group: GroupId, event: Event) returns (r: Option<GroupRecord>)
      modifies this
      ensures r == Transition(Current(old(Contents()), group), event)
      ensures rosters == old(rosters)
      ensures records == if r.Some? then old(records)[group := r.value] else old(records)
    {
      r := Transition(Current(Contents(), group), event);
      if r.Some? {
        records := records[group := r.value];
      }
    }

    method SetRoster(group: GroupId, roster: Option<Roster>)
      modifies this
      ensures Contents() == WithRoster(old(Contents()), group, roster)
    {
      match roster
      case Some(snapshot) => rosters := rosters[group := snapshot];
      case None => rosters := rosters - {group};
    }
  }

  method ReplayEntry(coordinator: Coordinator, poisoned: set<GroupId>, record: LogRecord)
    returns (next: set<GroupId>)
    modifies coordinator
    ensures Replayed(coordinator.Contents(), next) == ReplayOne(Replayed(old(coordinator.Contents()), poisoned), record)
  {
    next := poisoned;
    match record
    case OffsetCommitted(_, _, _, _) =>
    case GroupTransitioned(group, event) =>
      if group !in poisoned {
        var fired := coordinator.Fire(group, event);
        if fired.None? {
          next := poisoned + {group};
        } else if ClearsRoster(event) {
          coordinator.SetRoster(group, None);
        }
      }
    case GroupRosterUpdated(group, roster) =>
      if group !in poisoned {
        coordinator.SetRoster(group, roster);
      }
  }

  method ReplayPage(coordinator: Coordinator, poisoned: set<GroupId>, page: seq<Entry>) returns (next: set<GroupId>)
    modifies coordinator
    ensures Replayed(coordinator.Contents(), next) == ReplayFrom(Replayed(old(coordinator.Contents()), poisoned), page)
  {
    ghost var init := Replayed(coordinator.Contents(), poisoned);
    next := poisoned;
    for i := 0 to |page|
      invariant Replayed(coordinator.Contents(), next) == ReplayFrom(init, page[..i])
    {
      ReplayAppends(init, page[..i], page[i]);
      assert page[..i] + [page[i]] == page[..i + 1];
      next := ReplayEntry(coordinator, next, page[i].record);
    }
    assert page[..|page|] == page;
  }

  lemma {:induction false} ReplayInPages(init: Replayed, a: seq<Entry>, b: seq<Entry>)
    ensures ReplayFrom(ReplayFrom(init, a), b) == ReplayFrom(init, a + b)
    decreases |b|
  {
    if b == [] {
      assert a + b == a;
    } else {
      var front := b[..|b| - 1];
      assert (a + b)[..|a + b| - 1] == a + front && (a + b)[|a + b| - 1] == b[|b| - 1];
      ReplayInPages(init, a, front);
    }
  }

  /** Paged replay is one fold over the whole log, whatever its length. */
  method Replay(coordinator: Coordinator, log: MetadataLog) returns (r: Result<(), LogError>)
    requires log.Valid()
    modifies coordinator
    ensures coordinator.Contents() == ReplayFrom(Replayed(old(coordinator.Contents()), {}), log.entries).groups
    ensures r == if EndsOnTheBrink(log.entries) then Err(CommitVersionOverflow) else Ok(())
  {
    hide PageOf, FirstAt, EndsOnTheBrink;
    ghost var init := Replayed(coordinator.Contents(), {});
    var start: u64 := 0;
    var poisoned := {};
    ghost var done := 0;
    FirstPage(log.entries);
    while true
      invariant Paged(log.entries, start, done)
      invariant Replayed(coordinator.Contents(), poisoned) == ReplayFrom(init, log.entries[..done])
      decreases |log.entries| - done
    {
      var page := log.ReadFrom(start, REPLAY_PAGE_SIZE);
      NextPage(log.entries, start, done);
      ReplayInPages(init, log.entries[..done], page);
      poisoned := ReplayPage(coordinator, poisoned, page);
      done := done + |page|;
      if |page| < REPLAY_PAGE_SIZE {
        return Ok(());
      }
      var last := page[|page| - 1];
      if last.version == MAX_U64 {
        return Err(CommitVersionOverflow);
      }
      start := last.version + 1;
    }
  }

  // ---------------------------------------------------------------------------
  // One request

  datatype HandleError = IllegalGroupTransition | LogFailed(error: LogError)

  /**
   Validated, then durable, then applied. An illegal event touches nothing; otherwise the log is left
   as `append_durably` leaves it and the coordinator moves if and only if the record landed.
   */
  method HandleOne(coordinator: Coordinator, log: MetadataLog, group: GroupId, event: Event, world: World)
    returns (r: Result<GroupRecord, HandleError>, ghost appended: Result<u64, LogError>, ghost turns: nat)
    requires log.Valid()
    modifies coordinator, log
    ensures log.Valid()
    ensures !Legal(old(coordinator.Contents()), group, event) ==>
      r == Err(IllegalGroupTransition) && log.entries == old(log.entries) && coordinator.Contents() == old(coordinator.Contents())
    ensures Legal(old(coordinator.Contents()), group, event) ==>
      && Leaves(old(log.entries), log.entries, world, GroupTransitioned(group, event), turns, appended)
      && (appended.Err? ==> r == Err(LogFailed(appended.error)) && coordinator.Contents() == old(coordinator.Contents()))
      && (appended.Ok? ==> r == Ok(Current(coordinator.Contents(), group))
                           && coordinator.Contents() == Applied(old(coordinator.Contents()), group, event))
    ensures coordinator.rosters ==
      if r.Ok? && event in {AllMembersGone, Expire} then old(coordinator.rosters) - {group} else old(coordinator.rosters)
  {
    hide Leaves;
    appended, turns := Err(Refused), 0;
    if Transition(Current(coordinator.Contents(), group), event).None? {
      return Err(IllegalGroupTransition), appended, turns;
    }
    var landed;
    landed, turns := AppendDurably(log, GroupTransitioned(group, event), world);
    appended := landed;
    if landed.Err? {
      return Err(LogFailed(landed.error)), appended, turns;
    }
    var fired := coordinator.Fire(group, event);
    if ClearsRoster(event) {
      coordinator.SetRoster(group, None);
    }
    r := Ok(fired.value);
  }

  /** Durable before it is live: the roster changes if and only if the record landed. */
  method UpdateRoster(coordinator: Coordinator, log: MetadataLog, group: GroupId, roster: Option<Roster>, world: World)
    returns (r: Result<u64, LogError>, ghost turns: nat)
    requires log.Valid()
    modifies coordinator, log
    ensures log.Valid() && Leaves(old(log.entries), log.entries, world, GroupRosterUpdated(group, roster), turns, r)
    ensures coordinator.Contents() ==
      if r.Ok? then WithRoster(old(coordinator.Contents()), group, roster) else old(coordinator.Contents())
  {
    hide Leaves;
    r, turns := AppendDurably(log, GroupRosterUpdated(group, roster), world);
    if r.Ok? {
      coordinator.SetRoster(group, roster);
    }
  }
}
