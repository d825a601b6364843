/**
 The classic consumer-group state machine: which events are legal where, and what the two
 counters beside the state mean.
 */
module GroupState {
  import opened Bytes

  datatype State = Empty | PreparingRebalance | CompletingRebalance | Stable | Dead

  datatype Event =
    | Join
    | JoinBarrierComplete
    | SyncComplete
    | MemberJoinedDuringSync
    | MemberLeft
    | AllMembersGone
    | Expire

  datatype GroupRecord = GroupRecord(state: State, generation: int, assignmentEpoch: int)

  const FRESH := GroupRecord(Empty, 0, -1)

  /** The transition table; `None` is an illegal event. */
  function Transition(r: GroupRecord, event: Event): Option<GroupRecord> {
    match (r.state, event)
    case (Empty, Join) => Some(r.(state := PreparingRebalance))
    case (Stable, Join) => Some(r.(state := PreparingRebalance))
    case (CompletingRebalance, MemberJoinedDuringSync) => Some(r.(state := PreparingRebalance))
    case (PreparingRebalance, MemberLeft) => Some(r.(state := PreparingRebalance))
    case (Stable, MemberLeft) => Some(r.(state := PreparingRebalance))
    case (CompletingRebalance, MemberLeft) => Some(r.(state := PreparingRebalance))
    case (Empty, Expire) => Some(r.(state := Dead))
    case (PreparingRebalance, JoinBarrierComplete) =>
      Some(r.(state := CompletingRebalance, generation := r.generation + 1))
    case (PreparingRebalance, AllMembersGone) => Some(r.(state := Empty))
    case (Stable, AllMembersGone) => Some(r.(state := Empty))
    case (CompletingRebalance, AllMembersGone) => Some(r.(state := Empty))
    case (CompletingRebalance, SyncComplete) => Some(r.(state := Stable, assignmentEpoch := r.generation))
    case _ => None
  }

  /** The record after a whole history, or `None` once any of it was illegal. */
  function Fire(r: GroupRecord, events: seq<Event>): Option<GroupRecord>
    decreases |events|
  {
    if events == [] then Some(r)
    else match Transition(r, events[0])
      case None => None
      case Some(next) => Fire(next, events[1..])
  }

  function Barriers(events: seq<Event>): nat {
    if events == [] then 0 else (if events[0].JoinBarrierComplete? then 1 else 0) + Barriers(events[1..])
  }

  /** A group that completed its sync serves the assignment of its own generation. */
  predicate Coherent(r: GroupRecord) {
    && -1 <= r.assignmentEpoch <= r.generation
    && (r.state.Stable? ==> r.assignmentEpoch == r.generation)
    && (r.state.CompletingRebalance? ==> r.assignmentEpoch < r.generation)
  }

  /**
   Over every legal history: the generation counts the join barriers, the assignment epoch never
   overtakes it, and the two agree exactly when a sync has completed since the last barrier.
   */
  lemma {:induction false} HistoriesAreCoherent(r: GroupRecord, events: seq<Event>)
    requires Coherent(r) && Fire(r, events).Some?
    ensures Coherent(FRESH)
    ensures var last := Fire(r, events).value;
      && Coherent(last)
      && last.generation == r.generation + Barriers(events)
      && r.assignmentEpoch <= last.assignmentEpoch
    decreases |events|
  {
    if events != [] {
      HistoriesAreCoherent(Transition(r, events[0]).value, events[1..]);
    }
  }

  /** Where a group has members, losing some or all of them is always admitted and spends no generation. */
  lemma MemberLossIsAdmitted(r: GroupRecord)
    ensures Transition(r, MemberLeft) ==
      if r.state.Empty? || r.state.Dead? then None else Some(r.(state := PreparingRebalance))
    ensures Transition(r, AllMembersGone) ==
      if r.state.Empty? || r.state.Dead? then None else Some(r.(state := Empty))
  {}

  /** The events a group in this state answers to. */
  function Admitted(state: State): set<Event> {
    match state
    case Empty => {Join, Expire}
    case PreparingRebalance => {JoinBarrierComplete, MemberLeft, AllMembersGone}
    case CompletingRebalance => {SyncComplete, MemberJoinedDuringSync, MemberLeft, AllMembersGone}
    case Stable => {Join, MemberLeft, AllMembersGone}
    case Dead => {}
  }

  /** The state says whether an event is legal, and the event alone says where it leads. */
  lemma TheEventDecides(r: GroupRecord, event: Event)
    ensures Transition(r, event).Some? <==> event in Admitted(r.state)
    ensures Transition(r, event).Some? ==>
      var next := Transition(r, event).value;
      && (next.state.PreparingRebalance? <==> event in {Join, MemberJoinedDuringSync, MemberLeft})
      && (next.state.CompletingRebalance? <==> event == JoinBarrierComplete)
      && (next.state.Stable? <==> event == SyncComplete)
      && (next.state.Empty? <==> event == AllMembersGone)
      && (next.state.Dead? <==> event == Expire)
      && next.generation == r.generation + (if event == JoinBarrierComplete then 1 else 0)
      && next.assignmentEpoch == if event == SyncComplete then r.generation else r.assignmentEpoch
  {}

  /** Every group that has not expired can be brought to its next generation by a single join barrier. */
  lemma {:induction false} LivingGroupsCanSettle(r: GroupRecord) returns (events: seq<Event>)
    requires !r.state.Dead?
    ensures Fire(r, events) == Some(GroupRecord(Stable, r.generation + 1, r.generation + 1))
    ensures Barriers(events) == 1
  {
    var opening := match r.state
      case PreparingRebalance => []
      case CompletingRebalance => [MemberJoinedDuringSync]
      case _ => [Join];
    var closing := [JoinBarrierComplete, SyncComplete];
    events := opening + closing;
    var open := r.(state := PreparingRebalance);
    assert closing[1..] == [SyncComplete] && closing[1..][1..] == [];
    assert Fire(open, closing) == Some(GroupRecord(Stable, r.generation + 1, r.generation + 1));
    assert Barriers(closing) == 1;
    if opening == [] {
      assert events == closing;
    } else {
      assert events[1..] == closing;
    }
  }

  /** A group is dead only because it was empty and its last event was its expiry; nothing follows that. */
  lemma {:induction false} DeathIsTheExpiryOfAnEmptyGroup(r: GroupRecord, events: seq<Event>)
    requires !r.state.Dead? && Fire(r, events).Some? && Fire(r, events).value.state.Dead?
    ensures events != [] && events[|events| - 1] == Expire && Expire !in events[..|events| - 1]
    ensures var before := Fire(r, events[..|events| - 1]);
      before.Some? && before.value.state.Empty?
    decreases |events|
  {
    var next, rest := Transition(r, events[0]).value, events[1..];
    if rest == [] {
      assert events[..|events| - 1] == [];
    } else {
      assert !next.state.Dead?;
      DeathIsTheExpiryOfAnEmptyGroup(next, rest);
      var front := events[..|events| - 1];
      assert front[0] == events[0] && front[1..] == rest[..|rest| - 1];
    }
  }
}
