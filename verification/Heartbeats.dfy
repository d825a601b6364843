/**
 Session tracking: which members of each group are believed alive, the batched removals that fire
 one event each under the lock, and what keeps a member from ever being swept.
 */
module Heartbeats {
  import opened Bytes
  import opened GroupState
  import opened GroupLog
  import opened SyncBarrier

  type MemberId = string

  const MIN_SESSION_TIMEOUT_MS: i32 := 6_000
  const MAX_SESSION_TIMEOUT_MS: i32 := 1_800_000

  datatype Session = Session(deadline: nat, timeout: i32)

  type Members = map<MemberId, Session>
  type Tracking = map<GroupId, Members>

  datatype Queued = Queued(group: GroupId, event: Event)

  function Distance(a: int, b: int): nat {
    if a < b then b - a else a - b
  }

  /** The timeout the broker will hold to: of those it allows, the one nearest to what was asked for. */
  function Clamp(timeout: i32): (ms: nat)
    ensures 6_000 <= ms <= 1_800_000
    ensures forall other | 6_000 <= other <= 1_800_000 :: Distance(timeout, ms) <= Distance(timeout, other)
  {
    if timeout < MIN_SESSION_TIMEOUT_MS then MIN_SESSION_TIMEOUT_MS
    else if timeout > MAX_SESSION_TIMEOUT_MS then MAX_SESSION_TIMEOUT_MS
    else timeout
  }

  // ---------------------------------------------------------------------------
  // The operations on values

  /** Everything the lock protects, and the actor's queue the events go to. */
  datatype Sessions = Sessions(groups: Tracking, queue: seq<Queued>)

  function MembersOf(t: Tracking, group: GroupId): Members {
    if group in t then t[group] else map[]
  }

  function Registered(s: Sessions, group: GroupId, member: MemberId, timeout: i32, now: nat): Sessions {
    s.(groups := s.groups[group := MembersOf(s.groups, group)[member := Session(now + Clamp(timeout), timeout)]])
  }

  /** A member that is not tracked is not renewed. */
  function Renewed(s: Sessions, group: GroupId, member: MemberId, now: nat): Sessions {
    if group in s.groups && member in s.groups[group] then
      var timeout := s.groups[group][member].timeout;
      s.(groups := s.groups[group := s.groups[group][member := Session(now + Clamp(timeout), timeout)]])
    else s
  }

  function Retained(members: Members, keep: (MemberId, Session) -> bool): Members {
    map m | m in members && keep(m, members[m]) :: members[m]
  }

  /** One pass: whoever is not kept goes, and if anybody went, one event is queued. */
  function RemovedWhere(s: Sessions, group: GroupId, keep: (MemberId, Session) -> bool): Sessions {
    if group !in s.groups then s
    else
      var left := Retained(s.groups[group], keep);
      var groups := s.groups[group := left];
      if |left| == |s.groups[group]| then s.(groups := groups)
      else Sessions(groups, s.queue + [Queued(group, if |left| == 0 then AllMembersGone else MemberLeft)])
  }

  function Swept(s: Sessions, group: GroupId, at: nat): Sessions {
    RemovedWhere(s, group, (m: MemberId, session: Session) => session.deadline > at)
  }

  function Left(s: Sessions, group: GroupId, members: seq<MemberId>): Sessions {
    RemovedWhere(s, group, (m: MemberId, session: Session) => m !in members)
  }

  predicate IsLive(s: Sessions, group: GroupId, member: MemberId, now: nat) {
    group in s.groups && member in s.groups[group] && s.groups[group][member].deadline > now
  }

  predicate IsTracked(s: Sessions, group: GroupId, member: MemberId) {
    group in s.groups && member in s.groups[group]
  }

  // ---------------------------------------------------------------------------
  // The tracker as an object

  class Tracker {
    var groups: Tracking
    var queue: seq<Queued>

    function Contents(): Sessions
      reads this
    {
      Sessions(groups, queue)
    }

    constructor ()
      ensures Contents() == Sessions(map[], [])
    {
      groups, queue := map[], [];
    }

    method Register(group: GroupId, member: MemberId, timeout: i32, now: nat)
      modifies this
      ensures Contents() == Registered(old(Contents()), group, member, timeout, now)
    {
      var members := MembersOf(groups, group);
      groups := groups[group := members[member := Session(now + Clamp(timeout), timeout)]];
    }

    method Renew(group: GroupId, member: MemberId, now: nat)
      modifies this
      ensures Contents() == Renewed(old(Contents()), group, member, now)
    {
      if group in groups && member in groups[group] {
        var timeout := groups[group][member].timeout;
        groups := groups[group := groups[group][member := Session(now + Clamp(timeout), timeout)]];
      }
    }

    /** The locked part of a removal: who goes is decided and the event enqueued as one step. */
    method RemoveWhere(group: GroupId, keep: (MemberId, Session) -> bool) returns (removed: bool)
      modifies this
      ensures Contents() == RemovedWhere(old(Contents()), group, keep)
      ensures removed <==> queue != old(queue)
    {
      if group !in groups {
        return false;
      }
      var before := |groups[group]|;
      groups := groups[group := Retained(groups[group], keep)];
      if |groups[group]| == before {
        return false;
      }
      queue := queue + [Queued(group, if |groups[group]| == 0 then AllMembersGone else MemberLeft)];
      removed := true;
    }

    method Sweep(group: GroupId, at: nat) returns (removed: bool)
      modifies this
      ensures Contents() == Swept(old(Contents()), group, at)
      ensures removed <==> queue != old(queue)
    {
      removed := RemoveWhere(group, (m: MemberId, session: Session) => session.deadline > at);
    }

    method Leave(group: GroupId, members: seq<MemberId>) returns (removed: bool)
      modifies this
      ensures Contents() == Left(old(Contents()), group, members)
      ensures removed <==> queue != old(queue)
    {
      removed := RemoveWhere(group, (m: MemberId, session: Session) => m !in members);
    }
  }

  /**
   What follows once the actor has answered, whatever it answered: a removal that took anybody settles
   the barrier for the generation `record` named before it, so nobody stays parked on it.
   */
  method Release(removed: bool, record: Option<GroupRecord>, barrier: Barrier)
    modifies barrier
    ensures removed && record.Some? ==>
      barrier.cell == AfterRefuse(old(barrier.cell), record.value.generation) && Settled(barrier.cell, record.value.generation)
    ensures !removed || record.None? ==> barrier.cell == old(barrier.cell) && barrier.notified == old(barrier.notified)
  {
    if removed && record.Some? {
      barrier.Refuse(record.value.generation);
    }
  }

  // ---------------------------------------------------------------------------
  // One event for each pass that drops somebody

  lemma SameSizeIsSame(members: Members, keep: (MemberId, Session) -> bool)
    ensures |Retained(members, keep)| == |members| <==> Retained(members, keep) == members
  {
    var left := Retained(members, keep);
    assert left.Keys <= members.Keys;
    if |left| == |members| {
      SubsetOfSameSize(left.Keys, members.Keys);
      assert forall m | m in members :: m in left.Keys;
    }
  }

  lemma SubsetOfSameSize(a: set<MemberId>, b: set<MemberId>)
    requires a <= b && |a| == |b|
    ensures a == b
  {
    assert |b - a| == |b| - |a|;
  }

  /**
   The event a removal queues is one the table admits of any group that has members, at the same
   generation: the one read before the removal is the one the actor would return.
   */
  lemma RemovalSpendsNoGeneration(s: Sessions, group: GroupId, keep: (MemberId, Session) -> bool, r: GroupRecord)
    requires !r.state.Empty? && !r.state.Dead? && RemovedWhere(s, group, keep).queue != s.queue
    ensures var s' := RemovedWhere(s, group, keep);
      var queued := s'.queue[|s.queue|..];
      && |queued| == 1 && queued[0].group == group
      && Transition(r, queued[0].event) ==
           Some(r.(state := if MembersOf(s'.groups, group) == map[] then Empty else PreparingRebalance))
  {
    OneEventPerPass(s, group, keep);
    MemberLossIsAdmitted(r);
  }

  function Dropped(s: Sessions, s': Sessions, group: GroupId): set<MemberId> {
    MembersOf(s.groups, group).Keys - MembersOf(s'.groups, group).Keys
  }

  /**
   Exactly one event for a pass that drops anybody and none for one that does not; it says
   AllMembersGone if and only if nobody is left; other groups and the members kept are untouched.
   */
  lemma {:induction false} OneEventPerPass(s: Sessions, group: GroupId, keep: (MemberId, Session) -> bool)
    ensures var s' := RemovedWhere(s, group, keep);
      && s'.queue == s.queue + (if Dropped(s, s', group) == {} then []
                                else [Queued(group, if MembersOf(s'.groups, group) == map[] then AllMembersGone else MemberLeft)])
      && (forall m | m in MembersOf(s.groups, group) ::
            m in Dropped(s, s', group) <==> !keep(m, MembersOf(s.groups, group)[m]))
      && (forall m | m in MembersOf(s'.groups, group) ::
            m in MembersOf(s.groups, group) && MembersOf(s'.groups, group)[m] == MembersOf(s.groups, group)[m])
      && (forall g | g != group :: MembersOf(s'.groups, g) == MembersOf(s.groups, g))
  {
    if group in s.groups {
      SameSizeIsSame(s.groups[group], keep);
      var left := Retained(s.groups[group], keep);
      if left != s.groups[group] {
        var m :| m in s.groups[group] && m !in left;
        assert m in Dropped(s, RemovedWhere(s, group, keep), group);
      }
    }
  }

  // ---------------------------------------------------------------------------
  // Traces

  /** What happens under the lock, in order; a sweep uses the clock it read before taking it. */
  datatype Op =
    | DoRegister(group: GroupId, member: MemberId, timeout: i32, now: nat)
    | DoRenew(group: GroupId, member: MemberId, now: nat)
    | DoSweep(group: GroupId, at: nat)
    | DoLeave(group: GroupId, members: seq<MemberId>)

  function Do(s: Sessions, op: Op): Sessions {
    match op
    case DoRegister(group, member, timeout, now) => Registered(s, group, member, timeout, now)
    case DoRenew(group, member, now) => Renewed(s, group, member, now)
    case DoSweep(group, at) => Swept(s, group, at)
    case DoLeave(group, members) => Left(s, group, members)
  }

  function Run(s: Sessions, ops: seq<Op>): Sessions
    decreases |ops|
  {
    if ops == [] then s else Run(Do(s, ops[0]), ops[1..])
  }

  /** A member's own session, with nobody else in sight. */
  function SessionOf(s: Sessions, group: GroupId, member: MemberId): Option<Session> {
    if IsTracked(s, group, member) then Some(s.groups[group][member]) else None
  }

  function OwnStep(v: Option<Session>, op: Op, group: GroupId, member: MemberId): Option<Session> {
    if op.group != group then v
    else match op
      case DoRegister(_, m, timeout, now) => if m == member then Some(Session(now + Clamp(timeout), timeout)) else v
      case DoRenew(_, m, now) =>
        if m == member && v.Some? then Some(Session(now + Clamp(v.value.timeout), v.value.timeout)) else v
      case DoSweep(_, at) => if v.Some? && v.value.deadline > at then v else None
      case DoLeave(_, members) => if member in members then None else v
  }

  /** Members do not disturb each other: a member's session is a function of the operations alone. */
  lemma SessionsAreSeparate(s: Sessions, op: Op, group: GroupId, member: MemberId)
    ensures SessionOf(Do(s, op), group, member) == OwnStep(SessionOf(s, group, member), op, group, member)
  {}

  /** The sweep takes a member if and only if it is no longer live when the sweep read the clock. */
  lemma SweptMeansNotLive(s: Sessions, group: GroupId, member: MemberId, at: nat)
    ensures IsTracked(Swept(s, group, at), group, member) <==> IsLive(s, group, member, at)
  {}

  // ---------------------------------------------------------------------------
  // What keeps a member from being swept

  /** An operation that shows the member alive. */
  predicate Touches(op: Op, group: GroupId, member: MemberId) {
    (op.DoRegister? || op.DoRenew?) && op.group == group && op.member == member
  }

  /** The clock an operation read; a leave reads none. */
  function Reading(op: Op): nat {
    match op
    case DoRegister(_, _, _, now) => now
    case DoRenew(_, _, now) => now
    case DoSweep(_, at) => at
    case DoLeave(_, _) => 0
  }

  /**
   One clock: a register or renewal reads it under the lock, so no earlier operation, a sweep that
   read it before waiting for the lock included, can have read it later.
   */
  ghost predicate OneClock(ops: seq<Op>) {
    forall i, j | 0 <= i < j < |ops| && (ops[j].DoRegister? || ops[j].DoRenew?) :: Reading(ops[i]) <= Reading(ops[j])
  }

  function PeriodAfter(op: Op, period: nat): nat {
    if op.DoRegister? then Clamp(op.timeout) else period
  }

  /** Each register or renewal of the member comes less than its clamped timeout after the one before. */
  predicate CloseTogether(ops: seq<Op>, group: GroupId, member: MemberId, last: nat, period: nat)
    decreases |ops|
  {
    ops == [] ||
    if Touches(ops[0], group, member)
    then Reading(ops[0]) < last + period && CloseTogether(ops[1..], group, member, Reading(ops[0]), PeriodAfter(ops[0], period))
    else CloseTogether(ops[1..], group, member, last, period)
  }

  predicate HeardAgain(ops: seq<Op>, group: GroupId, member: MemberId) {
    exists i | 0 <= i < |ops| :: Touches(ops[i], group, member)
  }

  /** After the member was last heard of, no sweep reads a clock its timeout past that. */
  predicate NotYetDue(ops: seq<Op>, group: GroupId, member: MemberId, last: nat, period: nat)
    decreases |ops|
  {
    ops == [] ||
    if Touches(ops[0], group, member)
    then NotYetDue(ops[1..], group, member, Reading(ops[0]), PeriodAfter(ops[0], period))
    else
      && (ops[0].DoSweep? && ops[0].group == group && !HeardAgain(ops[1..], group, member) ==> ops[0].at < last + period)
      && NotYetDue(ops[1..], group, member, last, period)
  }

  /** The member does not leave of its own accord. */
  predicate Stays(ops: seq<Op>, group: GroupId, member: MemberId) {
    forall op | op in ops && op.DoLeave? && op.group == group :: member !in op.members
  }

  /** The next time the member is heard of lies within its timeout, and no reading before it is later. */
  lemma {:induction false} NextTouchIsSoon(ops: seq<Op>, group: GroupId, member: MemberId, last: nat, period: nat) returns (i: nat)
    requires CloseTogether(ops, group, member, last, period) && HeardAgain(ops, group, member)
    ensures i < |ops| && Touches(ops[i], group, member) && Reading(ops[i]) < last + period
    decreases |ops|
  {
    if Touches(ops[0], group, member) {
      i := 0;
    } else {
      var k :| 0 <= k < |ops| && Touches(ops[k], group, member);
      assert ops[1..][k - 1] == ops[k];
      i := NextTouchIsSoon(ops[1..], group, member, last, period);
      i := i + 1;
    }
  }

  /** At a sweep, the member's deadline is still ahead of the clock the sweep read. */
  lemma DeadlineIsAhead(ops: seq<Op>, group: GroupId, member: MemberId, last: nat, period: nat)
    requires ops != [] && ops[0].DoSweep? && ops[0].group == group && OneClock(ops)
    requires CloseTogether(ops, group, member, last, period) && NotYetDue(ops, group, member, last, period)
    ensures ops[0].at < last + period
  {
    var rest := ops[1..];
    if HeardAgain(rest, group, member) {
      var i := NextTouchIsSoon(rest, group, member, last, period);
      assert rest[i] == ops[i + 1];
    }
  }

  /**
   A member whose registrations and renewals are closer together than its clamped timeout is never
   swept: it is tracked after every operation, whatever the other members, groups and sweeps do.
   */
  lemma {:induction false} PunctualIsNeverSwept(s: Sessions, ops: seq<Op>, group: GroupId, member: MemberId,
                                                last: nat, period: nat, k: nat)
    requires SessionOf(s, group, member).Some? && k <= |ops|
    requires SessionOf(s, group, member).value.deadline == last + period
    requires period == Clamp(SessionOf(s, group, member).value.timeout)
    requires OneClock(ops) && Stays(ops, group, member)
    requires CloseTogether(ops, group, member, last, period) && NotYetDue(ops, group, member, last, period)
    ensures IsTracked(Run(s, ops[..k]), group, member)
    decreases k
  {
    if k > 0 {
      var op, rest := ops[0], ops[1..];
      SessionsAreSeparate(s, op, group, member);
      assert op in ops;
      if op.DoSweep? && op.group == group {
        DeadlineIsAhead(ops, group, member, last, period);
      }
      hide Do;
      assert ops[..k][0] == op && ops[..k][1..] == rest[..k - 1];
      assert forall i | 0 <= i < |rest| :: rest[i] == ops[i + 1];
      if Touches(op, group, member) {
        PunctualIsNeverSwept(Do(s, op), rest, group, member, Reading(op), PeriodAfter(op, period), k - 1);
      } else {
        PunctualIsNeverSwept(Do(s, op), rest, group, member, last, period, k - 1);
      }
    }
  }

  /** And one that has been silent for its whole timeout goes at the next sweep. */
  lemma SilentIsSwept(s: Sessions, group: GroupId, member: MemberId, last: nat, at: nat)
    requires SessionOf(s, group, member).Some?
    requires SessionOf(s, group, member).value.deadline == last + Clamp(SessionOf(s, group, member).value.timeout)
    ensures IsTracked(Swept(s, group, at), group, member) <==> at < last + Clamp(SessionOf(s, group, member).value.timeout)
  {
    SweptMeansNotLive(s, group, member, at);
  }

  // ---------------------------------------------------------------------------
  // The queue over whole traces

  /** The event an operation queues, told from who was there before and who is after. */
  function EventOf(s: Sessions, op: Op): seq<Queued> {
    var s' := Do(s, op);
    if (op.DoRegister? || op.DoRenew?) || Dropped(s, s', op.group) == {} then []
    else [Queued(op.group, if MembersOf(s'.groups, op.group) == map[] then AllMembersGone else MemberLeft)]
  }

  function EventsOf(s: Sessions, ops: seq<Op>): seq<Queued>
    decreases |ops|
  {
    if ops == [] then [] else EventOf(s, ops[0]) + EventsOf(Do(s, ops[0]), ops[1..])
  }

  /** The queue order is the removal order: over every trace, one event per dropping pass and no other. */
  lemma {:induction false} QueueIsRemovalOrder(s: Sessions, ops: seq<Op>)
    ensures Run(s, ops).queue == s.queue + EventsOf(s, ops)
    decreases |ops|
  {
    hide Do, EventOf;
    if ops == [] {
      assert s.queue + [] == s.queue;
    } else {
      QueueStep(s, ops[0]);
      QueueIsRemovalOrder(Do(s, ops[0]), ops[1..]);
      Associates(s.queue, EventOf(s, ops[0]), EventsOf(Do(s, ops[0]), ops[1..]));
    }
  }

  lemma Associates(a: seq<Queued>, b: seq<Queued>, c: seq<Queued>)
    ensures a + b + c == a + (b + c)
  {}

  lemma QueueStep(s: Sessions, op: Op)
    ensures Do(s, op).queue == s.queue + EventOf(s, op)
  {
    match op
    case DoRegister(_, _, _, _) => assert s.queue + [] == s.queue;
    case DoRenew(_, _, _) => assert s.queue + [] == s.queue;
    case DoSweep(group, at) => OneEventPerPass(s, group, (m: MemberId, session: Session) => session.deadline > at);
    case DoLeave(group, members) => OneEventPerPass(s, group, (m: MemberId, session: Session) => m !in members);
  }
}
