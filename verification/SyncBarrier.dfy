/**
 The SyncGroup barrier: one cell per group that a leader's submission or a refusal settles for a
 generation, the submissions that race each other and the group's own transitions towards it, and
 the followers that wait on it.
 */
module SyncBarrier {
  import opened Bytes
  import opened GroupState

  type Assignments = map<string, seq<byte>>

  datatype Assignment = Assignment(generation: int, slices: Option<Assignments>)

  type Cell = Option<Assignment>

  datatype Known = Mine(slices: Assignments) | Superseded | Refused | Waiting

  // ---------------------------------------------------------------------------
  // The cell

  function KnownFor(cell: Cell, generation: int): Known {
    if cell.None? || cell.value.generation < generation then Waiting
    else if cell.value.generation > generation then Superseded
    else match cell.value.slices
      case None => Refused
      case Some(slices) => Mine(slices)
  }

  /** A submission lands unless the group has left the generation or a later one is there. */
  predicate Takes(cell: Cell, generation: int, still: bool) {
    still && (cell.Some? ==> cell.value.generation <= generation)
  }

  /** A refusal replaces absence and older generations, never a map it would unpublish. */
  predicate Declines(cell: Cell, generation: int) {
    && cell.Some?
    && (cell.value.generation > generation || (cell.value.generation == generation && cell.value.slices.Some?))
  }

  function AfterSubmit(cell: Cell, generation: int, slices: Assignments, still: bool): Cell {
    if Takes(cell, generation, still) then Some(Assignment(generation, Some(slices))) else cell
  }

  function AfterRefuse(cell: Cell, generation: int): Cell {
    if Declines(cell, generation) then cell else Some(Assignment(generation, None))
  }

  predicate Settled(cell: Cell, generation: int) {
    KnownFor(cell, generation) != Waiting
  }

  /** Whatever is written, a generation that has an answer keeps one, and a map is never unpublished. */
  lemma SettledStays(cell: Cell, written: int, slices: Assignments, still: bool, g: int)
    requires Settled(cell, g)
    ensures Settled(AfterSubmit(cell, written, slices, still), g) && Settled(AfterRefuse(cell, written), g)
    ensures KnownFor(cell, g).Mine? ==>
      KnownFor(AfterRefuse(cell, written), g) == KnownFor(cell, g) || KnownFor(AfterRefuse(cell, written), g).Superseded?
  {}

  /** The barrier entry as the object two connections share. */
  class Barrier {
    var cell: Cell
    var notified: nat

    constructor ()
      ensures cell == None && notified == 0
    {
      cell := None;
      notified := 0;
    }

    method Submit(generation: int, slices: Assignments, still: bool) returns (r: Option<Assignments>)
      modifies this
      ensures cell == AfterSubmit(old(cell), generation, slices, still)
      ensures cell == if still && (old(cell).Some? ==> old(cell).value.generation <= generation)
                      then Some(Assignment(generation, Some(slices))) else old(cell)
      ensures r == if Takes(old(cell), generation, still) then Some(slices) else None
      ensures r.Some? ==> KnownFor(cell, generation) == Mine(slices) && notified == old(notified) + 1
      ensures r.None? ==> notified == old(notified)
      ensures forall g :: Settled(old(cell), g) ==> Settled(cell, g)
    {
      var superseded := cell.Some? && cell.value.generation > generation;
      if superseded || !still {
        return None;
      }
      cell := Some(Assignment(generation, Some(slices)));
      notified := notified + 1;
      r := Some(slices);
    }

    method Refuse(generation: int)
      modifies this
      ensures cell == AfterRefuse(old(cell), generation) && Settled(cell, generation)
      ensures cell == match old(cell)
        case Some(Assignment(g, slices)) =>
          if g > generation || (g == generation && slices.Some?) then old(cell) else Some(Assignment(generation, None))
        case None => Some(Assignment(generation, None))
      ensures notified == old(notified) + if Declines(old(cell), generation) then 0 else 1
      ensures forall g :: Settled(old(cell), g) ==> Settled(cell, g)
    {
      if cell.Some?
         && (cell.value.generation > generation || (cell.value.generation == generation && cell.value.slices.Some?)) {
        return;
      }
      cell := Some(Assignment(generation, None));
      notified := notified + 1;
    }
  }

  // ---------------------------------------------------------------------------
  // Submissions, followers and the group's own transitions, interleaved

  datatype Answer = Granted(slices: Assignments) | RebalanceInProgress | CoordinatorNotAvailable

  datatype Outcome = Transitioned(record: GroupRecord) | Illegal | Unavailable

  /** One assignment-bearing call, from past the fence to its answer. */
  datatype Call =
    | AwaitingActor(generation: int, slices: Assignments)
    | Returned(generation: int, slices: Assignments, outcome: Outcome)
    | Submitting(generation: int, slices: Assignments)
    | Refusing(generation: int, answer: Answer)
    | Answered(generation: int, answer: Answer)

  /** Where a waiting call is in its loop: it has not looked, it looked and saw Waiting, or it sleeps. */
  datatype Place = AtTop | Looked | Asleep

  /** Its wakeup: an announcement reaches those that are registered when it is made, and no others. */
  datatype Signal = Unarmed | Armed | Signalled

  datatype Follower =
    | Following(generation: int, place: Place, signal: Signal)
    | Released(generation: int, known: Known)

  /** `notifying` counts publications written and not yet announced; `published` remembers every map. */
  datatype Sync = Sync(
    record: GroupRecord,
    cell: Cell,
    notifying: nat,
    calls: map<nat, Call>,
    followers: map<nat, Follower>,
    published: set<Assignment>)

  datatype Step =
    | Change(event: Event)
    | BeginSync(id: nat, slices: Assignments)
    | ActorSyncs(id: nat, reachable: bool)
    | Judge(id: nat)
    | SubmitCell(id: nat)
    | RefuseCell(id: nat)
    | SomebodyRefuses(generation: int)
    | Notify
    | Arrive(id: nat, generation: int)
    | Register(id: nat)
    | Look(id: nat)
    | Park(id: nat)
    | Wake(id: nat)
    | Expire(id: nat)

  predicate StableAt(record: GroupRecord, generation: int) {
    record.state.Stable? && record.generation == generation
  }

  predicate Fenced(record: GroupRecord) {
    record.state.CompletingRebalance? || record.state.Stable?
  }

  /** A publication writes the cell and owes a wakeup. */
  function Publish(s: Sync, cell: Cell): Sync {
    s.(cell := cell, notifying := s.notifying + 1)
  }

  function Announced(f: Follower): Follower {
    if f.Following? && f.signal.Armed? then f.(signal := Signalled) else f
  }

  predicate FollowsAt(s: Sync, id: nat, place: Place) {
    id in s.followers && s.followers[id].Following? && s.followers[id].place == place
  }

  function Do(s: Sync, step: Step): Sync {
    match step
    case Change(event) =>
      var next := Transition(s.record, event);
      if next.Some? then s.(record := next.value) else s
    case BeginSync(id, slices) =>
      if id !in s.calls && Fenced(s.record)
      then s.(calls := s.calls[id := AwaitingActor(s.record.generation, slices)]) else s
    case ActorSyncs(id, reachable) => if id in s.calls then DoActor(s, id, reachable) else s
    case Judge(id) => if id in s.calls then DoJudge(s, id) else s
    case SubmitCell(id) => if id in s.calls then DoSubmit(s, id) else s
    case RefuseCell(id) => if id in s.calls then DoRefuse(s, id) else s
    case SomebodyRefuses(generation) =>
      if Declines(s.cell, generation) then s else Publish(s, AfterRefuse(s.cell, generation))
    case Notify =>
      if s.notifying == 0 then s
      else s.(notifying := s.notifying - 1, followers := map id | id in s.followers :: Announced(s.followers[id]))
    case Arrive(id, generation) =>
      if id !in s.followers then s.(followers := s.followers[id := Following(generation, AtTop, Unarmed)]) else s
    case Register(id) =>
      if FollowsAt(s, id, AtTop) && s.followers[id].signal.Unarmed?
      then s.(followers := s.followers[id := s.followers[id].(signal := Armed)]) else s
    case Look(id) =>
      if FollowsAt(s, id, AtTop) && !s.followers[id].signal.Unarmed? then DoLook(s, id) else s
    case Park(id) => if FollowsAt(s, id, Looked) then DoPark(s, id) else s
    case Wake(id) =>
      if FollowsAt(s, id, Asleep) && s.followers[id].signal.Signalled?
      then s.(followers := s.followers[id := Following(s.followers[id].generation, AtTop, Unarmed)]) else s
    case Expire(id) =>
      if FollowsAt(s, id, Asleep)
      then s.(followers := s.followers[id := Released(s.followers[id].generation, KnownFor(s.cell, s.followers[id].generation))])
      else s
  }

  /** Looking reads the cell and does not sleep: whatever happens before `DoPark` finds the follower awake. */
  function DoLook(s: Sync, id: nat): Sync
    requires FollowsAt(s, id, AtTop)
  {
    var f := s.followers[id];
    var known := KnownFor(s.cell, f.generation);
    s.(followers := s.followers[id := if known == Waiting then f.(place := Looked) else Released(f.generation, known)])
  }

  /** Polling the wakeup puts the follower to sleep, and registers it if nothing did so before. */
  function DoPark(s: Sync, id: nat): Sync
    requires FollowsAt(s, id, Looked)
  {
    var f := s.followers[id];
    s.(followers := s.followers[id :=
      Following(f.generation, Asleep, if f.signal.Unarmed? then Armed else f.signal)])
  }

  /** `SyncComplete` through the actor: applied, illegal, or the log could not be reached. */
  function DoActor(s: Sync, id: nat, reachable: bool): Sync
    requires id in s.calls
  {
    var c := s.calls[id];
    var next := Transition(s.record, SyncComplete);
    if !c.AwaitingActor? then s
    else if next.None? then s.(calls := s.calls[id := Returned(c.generation, c.slices, Illegal)])
    else if !reachable then s.(calls := s.calls[id := Returned(c.generation, c.slices, Unavailable)])
    else s.(record := next.value, calls := s.calls[id := Returned(c.generation, c.slices, Transitioned(next.value))])
  }

  /** One question of every outcome: is the group Stable at this generation? */
  function DoJudge(s: Sync, id: nat): Sync
    requires id in s.calls
  {
    var c := s.calls[id];
    if !c.Returned? then s
    else if c.outcome.Unavailable? then s.(calls := s.calls[id := Refusing(c.generation, CoordinatorNotAvailable)])
    else
      var record := if c.outcome.Transitioned? then c.outcome.record else s.record;
      if StableAt(record, c.generation) then s.(calls := s.calls[id := Submitting(c.generation, c.slices)])
      else s.(calls := s.calls[id := Refusing(c.generation, RebalanceInProgress)])
  }

  /** The same question again, under the cell's lock. */
  function DoSubmit(s: Sync, id: nat): Sync
    requires id in s.calls
  {
    var c := s.calls[id];
    if !c.Submitting? then s
    else if Takes(s.cell, c.generation, StableAt(s.record, c.generation)) then
      Publish(s, Some(Assignment(c.generation, Some(c.slices))))
        .(calls := s.calls[id := Answered(c.generation, Granted(c.slices))],
          published := s.published + {Assignment(c.generation, Some(c.slices))})
    else s.(calls := s.calls[id := Refusing(c.generation, RebalanceInProgress)])
  }

  function DoRefuse(s: Sync, id: nat): Sync
    requires id in s.calls
  {
    var c := s.calls[id];
    if !c.Refusing? then s
    else
      var refused := if Declines(s.cell, c.generation) then s else Publish(s, AfterRefuse(s.cell, c.generation));
      refused.(calls := s.calls[id := Answered(c.generation, c.answer)])
  }

  function Run(s: Sync, steps: seq<Step>): Sync {
    if steps == [] then s else Do(Run(s, steps[..|steps| - 1]), steps[|steps| - 1])
  }

  function Opened(record: GroupRecord): Sync {
    Sync(record, None, 0, map[], map[], {})
  }

  // ---------------------------------------------------------------------------
  // What every step keeps

  /** An answered submission has settled its generation, and a granted one published its map. */
  ghost predicate CallsSettle(s: Sync) {
    forall id | id in s.calls :: CallSettles(s, s.calls[id])
  }

  ghost predicate CallSettles(s: Sync, c: Call) {
    && (c.Refusing? ==> !c.answer.Granted?)
    && (c.Answered? ==> Settled(s.cell, c.generation))
    && (c.Answered? && c.answer.Granted? ==> Assignment(c.generation, Some(c.answer.slices)) in s.published)
  }

  /** From its look on, a follower with no wakeup delivered or on its way has nothing to be woken for. */
  ghost predicate NobodyIsStranded(s: Sync) {
    forall id | id in s.followers :: NotStranded(s, s.followers[id])
  }

  ghost predicate NotStranded(s: Sync, f: Follower) {
    f.Following? && !f.place.AtTop? ==>
      && !f.signal.Unarmed?
      && (f.signal.Armed? ==> s.notifying > 0 || !Settled(s.cell, f.generation))
  }

  /** Whatever map is on the cell, or was read off it, was published for that very generation. */
  ghost predicate MapsAreOwn(s: Sync) {
    && (s.cell.Some? && s.cell.value.slices.Some? ==> s.cell.value in s.published)
    && (forall id | id in s.followers && s.followers[id].Released? && s.followers[id].known.Mine? ::
          Assignment(s.followers[id].generation, Some(s.followers[id].known.slices)) in s.published)
  }

  ghost predicate Inv(s: Sync) {
    CallsSettle(s) && NobodyIsStranded(s) && MapsAreOwn(s)
  }

  lemma PublishKeepsInv(s: Sync, cell: Cell)
    requires Inv(s) && (cell.Some? && cell.value.slices.Some? ==> cell.value in s.published)
    requires forall g :: Settled(s.cell, g) ==> Settled(cell, g)
    ensures Inv(Publish(s, cell))
  {}

  lemma CallKeepsInv(s: Sync, id: nat, c: Call)
    requires Inv(s) && CallSettles(s, c)
    ensures Inv(s.(calls := s.calls[id := c]))
  {}

  lemma FollowerKeepsInv(s: Sync, id: nat, f: Follower)
    requires Inv(s) && NotStranded(s, f)
    requires f.Released? && f.known.Mine? ==> Assignment(f.generation, Some(f.known.slices)) in s.published
    ensures Inv(s.(followers := s.followers[id := f]))
  {}

  lemma NotifyKeepsInv(s: Sync)
    requires Inv(s)
    ensures Inv(Do(s, Notify))
  {
    hide Settled;
  }

  lemma RefusalKeepsInv(s: Sync, generation: int)
    requires Inv(s)
    ensures var s' := if Declines(s.cell, generation) then s else Publish(s, AfterRefuse(s.cell, generation));
      Inv(s') && Settled(s'.cell, generation)
  {
    if !Declines(s.cell, generation) {
      PublishKeepsInv(s, AfterRefuse(s.cell, generation));
    }
  }

  lemma SubmitKeepsInv(s: Sync, id: nat)
    requires Inv(s) && id in s.calls
    ensures Inv(DoSubmit(s, id))
  {
    var c := s.calls[id];
    if c.Submitting? {
      if Takes(s.cell, c.generation, StableAt(s.record, c.generation)) {
        var a := Assignment(c.generation, Some(c.slices));
        var s1 := s.(published := s.published + {a});
        assert Inv(s1);
        PublishKeepsInv(s1, Some(a));
        CallKeepsInv(Publish(s1, Some(a)), id, Answered(c.generation, Granted(c.slices)));
      } else {
        CallKeepsInv(s, id, Refusing(c.generation, RebalanceInProgress));
      }
    }
  }

  lemma CallStepKeepsInv(s: Sync, step: Step)
    requires Inv(s)
    requires step.BeginSync? || step.ActorSyncs? || step.Judge? || step.SubmitCell? || step.RefuseCell?
    ensures Inv(Do(s, step))
  {
    var id := step.id;
    if step.SubmitCell? && id in s.calls {
      SubmitKeepsInv(s, id);
    } else if step.RefuseCell? && id in s.calls {
      RefuseKeepsInv(s, id);
    } else if id in Do(s, step).calls {
      hide Settled;
      var c := Do(s, step).calls[id];
      if id !in s.calls || c != s.calls[id] {
        CallKeepsInv(s.(record := Do(s, step).record), id, c);
      }
    }
  }

  lemma RefuseKeepsInv(s: Sync, id: nat)
    requires Inv(s) && id in s.calls
    ensures Inv(DoRefuse(s, id))
  {
    var c := s.calls[id];
    if c.Refusing? {
      assert CallSettles(s, c);
      RefusalKeepsInv(s, c.generation);
      var refused := if Declines(s.cell, c.generation) then s else Publish(s, AfterRefuse(s.cell, c.generation));
      CallKeepsInv(refused, id, Answered(c.generation, c.answer));
    }
  }

  lemma FollowerStepKeepsInv(s: Sync, step: Step)
    requires Inv(s) && (step.Arrive? || step.Register? || step.Look? || step.Park? || step.Wake? || step.Expire?)
    ensures Inv(Do(s, step))
  {
    if step.id in Do(s, step).followers && Do(s, step) != s {
      FollowerKeepsInv(s, step.id, Do(s, step).followers[step.id]);
    }
  }

  lemma StepKeepsInv(s: Sync, step: Step)
    requires Inv(s)
    ensures Inv(Do(s, step))
  {
    match step
    case Change(_) =>
    case SomebodyRefuses(generation) => RefusalKeepsInv(s, generation);
    case Notify => NotifyKeepsInv(s);
    case BeginSync(_, _) => CallStepKeepsInv(s, step);
    case ActorSyncs(_, _) => CallStepKeepsInv(s, step);
    case Judge(_) => CallStepKeepsInv(s, step);
    case SubmitCell(_) => CallStepKeepsInv(s, step);
    case RefuseCell(_) => CallStepKeepsInv(s, step);
    case Arrive(_, _) => FollowerStepKeepsInv(s, step);
    case Register(_) => FollowerStepKeepsInv(s, step);
    case Look(_) => FollowerStepKeepsInv(s, step);
    case Park(_) => FollowerStepKeepsInv(s, step);
    case Wake(_) => FollowerStepKeepsInv(s, step);
    case Expire(_) => FollowerStepKeepsInv(s, step);
  }

  lemma {:induction false} RunsKeepInv(record: GroupRecord, steps: seq<Step>)
    ensures Inv(Run(Opened(record), steps))
    decreases |steps|
  {
    if steps != [] {
      RunsKeepInv(record, steps[..|steps| - 1]);
      hide Inv, Do;
      StepKeepsInv(Run(Opened(record), steps[..|steps| - 1]), steps[|steps| - 1]);
    }
  }

  // ---------------------------------------------------------------------------
  // Over every interleaving

  /** Once a generation has an answer, no step takes it back. */
  lemma StepKeepsSettled(s: Sync, step: Step, generation: int)
    requires Settled(s.cell, generation)
    ensures Settled(Do(s, step).cell, generation)
  {}

  lemma {:induction false} SettledForGood(s: Sync, more: seq<Step>, generation: int)
    requires Settled(s.cell, generation)
    ensures Settled(Run(s, more).cell, generation)
    decreases |more|
  {
    if more != [] {
      SettledForGood(s, more[..|more| - 1], generation);
      hide Do, Settled;
      StepKeepsSettled(Run(s, more[..|more| - 1]), more[|more| - 1], generation);
    }
  }

  /**
   After an assignment-bearing call is answered, by success or by any refusal, the barrier never
   again answers Waiting for its generation: not now, and not after any further steps.
   */
  lemma {:induction false} AnsweredIsSettled(record: GroupRecord, steps: seq<Step>, more: seq<Step>, id: nat)
    requires var s := Run(Opened(record), steps);
      id in s.calls && s.calls[id].Answered?
    ensures var s := Run(Opened(record), steps);
      KnownFor(Run(s, more).cell, s.calls[id].generation) != Waiting
  {
    var s := Run(Opened(record), steps);
    RunsKeepInv(record, steps);
    assert CallSettles(s, s.calls[id]);
    SettledForGood(s, more, s.calls[id].generation);
  }

  /** A follower that has looked, asleep or about to be, while its answer is on the cell. */
  ghost predicate WaitsForWhatIsThere(s: Sync, id: nat) {
    && id in s.followers && s.followers[id].Following? && !s.followers[id].place.AtTop?
    && KnownFor(s.cell, s.followers[id].generation) != Waiting
  }

  /** No lost wakeup: such a follower has its wakeup, or one is about to be announced and will reach it. */
  lemma {:induction false} NoLostWakeup(record: GroupRecord, steps: seq<Step>, id: nat)
    requires WaitsForWhatIsThere(Run(Opened(record), steps), id)
    ensures var s := Run(Opened(record), steps);
      s.followers[id].signal.Signalled? || (s.followers[id].signal.Armed? && s.notifying > 0)
  {
    RunsKeepInv(record, steps);
    assert NotStranded(Run(Opened(record), steps), Run(Opened(record), steps).followers[id]);
  }

  /** A follower that has its wakeup and is not yet asleep, or is, comes back to the top of its loop. */
  lemma SignalledComesRound(s: Sync, id: nat)
    requires FollowsAt(s, id, Looked) || FollowsAt(s, id, Asleep)
    requires s.followers[id].signal.Signalled?
    ensures var top := Do(Do(s, Park(id)), Wake(id));
      top == s.(followers := s.followers[id := Following(s.followers[id].generation, AtTop, Unarmed)])
  {
    hide KnownFor;
    var parked := Do(s, Park(id));
    assert parked == s.(followers := s.followers[id := Following(s.followers[id].generation, Asleep, Signalled)]);
  }

  lemma FromTheTopToTheAnswer(s: Sync, id: nat)
    requires FollowsAt(s, id, AtTop) && s.followers[id].signal.Unarmed?
    requires KnownFor(s.cell, s.followers[id].generation) != Waiting
    ensures var freed := Do(Do(s, Register(id)), Look(id));
      && id in freed.followers
      && freed.followers[id] == Released(s.followers[id].generation, KnownFor(s.cell, s.followers[id].generation))
  {
    hide KnownFor;
    var armed := Do(s, Register(id));
    assert armed == s.(followers := s.followers[id := Following(s.followers[id].generation, AtTop, Armed)]);
  }

  /** The announcement alone frees it: its own next steps bring that very answer. */
  lemma {:induction false} AnnouncedIsFreed(record: GroupRecord, steps: seq<Step>, id: nat)
    requires WaitsForWhatIsThere(Run(Opened(record), steps), id)
    ensures var s := Run(Opened(record), steps);
      var freed := Do(Do(Do(Do(Do(s, Notify), Park(id)), Wake(id)), Register(id)), Look(id));
      && id in freed.followers
      && freed.followers[id] == Released(s.followers[id].generation, KnownFor(s.cell, s.followers[id].generation))
  {
    var s := Run(Opened(record), steps);
    NoLostWakeup(record, steps, id);
    hide Run, KnownFor;
    var announced := Do(s, Notify);
    assert announced.cell == s.cell && id in announced.followers;
    assert announced.followers[id] == s.followers[id].(signal := Signalled);
    hide Do;
    SignalledComesRound(announced, id);
    FromTheTopToTheAnswer(Do(Do(announced, Park(id)), Wake(id)), id);
  }

  // ---------------------------------------------------------------------------
  // The other order

  /** The same steps where a follower looks first and is registered by the poll that puts it to sleep. */
  function DoLookingFirst(s: Sync, step: Step): Sync {
    match step
    case Register(_) => s
    case Look(id) => if FollowsAt(s, id, AtTop) then DoLook(s, id) else s
    case _ => Do(s, step)
  }

  function RunLookingFirst(s: Sync, steps: seq<Step>): Sync {
    if steps == [] then s else DoLookingFirst(RunLookingFirst(s, steps[..|steps| - 1]), steps[|steps| - 1])
  }

  lemma OneMoreStep(s: Sync, steps: seq<Step>, step: Step)
    ensures Run(s, steps + [step]) == Do(Run(s, steps), step)
    ensures RunLookingFirst(s, steps + [step]) == DoLookingFirst(RunLookingFirst(s, steps), step)
  {
    assert (steps + [step])[..|steps|] == steps;
  }

  /** A refusal written and announced between a follower's look and its sleep. */
  function AnsweredInTheWindow(id: nat, generation: int): seq<Step> {
    HasLooked(id, generation) + [SomebodyRefuses(generation)] + [Notify] + [Park(id)]
  }

  function HasLooked(id: nat, generation: int): seq<Step> {
    [Arrive(id, generation)] + [Register(id)] + [Look(id)]
  }

  lemma ArmedLooks(s: Sync, id: nat, g: int)
    requires s.followers == map[] && s.cell == None
    ensures Do(Do(Do(s, Arrive(id, g)), Register(id)), Look(id)) == s.(followers := map[id := Following(g, Looked, Armed)])
  {
    var arrived := Do(s, Arrive(id, g));
    assert arrived == s.(followers := map[id := Following(g, AtTop, Unarmed)]);
    var armed := Do(arrived, Register(id));
    assert armed == s.(followers := map[id := Following(g, AtTop, Armed)]);
  }

  lemma UnarmedLooks(s: Sync, id: nat, g: int)
    requires s.followers == map[] && s.cell == None
    ensures DoLookingFirst(DoLookingFirst(DoLookingFirst(s, Arrive(id, g)), Register(id)), Look(id))
      == s.(followers := map[id := Following(g, Looked, Unarmed)])
  {
    var arrived := DoLookingFirst(s, Arrive(id, g));
    assert arrived == s.(followers := map[id := Following(g, AtTop, Unarmed)]);
  }

  lemma HaveLooked(record: GroupRecord, id: nat, g: int)
    ensures Run(Opened(record), HasLooked(id, g))
      == Opened(record).(followers := map[id := Following(g, Looked, Armed)])
    ensures RunLookingFirst(Opened(record), HasLooked(id, g))
      == Opened(record).(followers := map[id := Following(g, Looked, Unarmed)])
  {
    var s := Opened(record);
    ArmedLooks(s, id, g);
    UnarmedLooks(s, id, g);
    assert Run(s, []) == s && RunLookingFirst(s, []) == s;
    hide Run, RunLookingFirst, Do, DoLookingFirst;
    OneMoreStep(s, [], Arrive(id, g));
    assert [] + [Arrive(id, g)] == [Arrive(id, g)];
    OneMoreStep(s, [Arrive(id, g)], Register(id));
    OneMoreStep(s, [Arrive(id, g)] + [Register(id)], Look(id));
  }

  /**
   Registering before looking is what does it. On one schedule, whatever the record and the generation,
   the follower that registered first sleeps with its wakeup delivered; the one that looked first sleeps
   with its answer on the cell, no wakeup, and none on its way.
   */
  lemma LookingFirstStrands(record: GroupRecord, id: nat, generation: int)
    ensures var s := Run(Opened(record), AnsweredInTheWindow(id, generation));
      id in s.followers && s.followers[id] == Following(generation, Asleep, Signalled)
    ensures var s := RunLookingFirst(Opened(record), AnsweredInTheWindow(id, generation));
      && WaitsForWhatIsThere(s, id)
      && s.followers[id] == Following(generation, Asleep, Armed) && s.notifying == 0
  {
    HaveLooked(record, id, generation);
    hide Run, RunLookingFirst, HasLooked;
    var looked := HasLooked(id, generation);
    OneMoreStep(Opened(record), looked, SomebodyRefuses(generation));
    OneMoreStep(Opened(record), looked + [SomebodyRefuses(generation)], Notify);
    OneMoreStep(Opened(record), looked + [SomebodyRefuses(generation)] + [Notify], Park(id));
  }

  predicate StirsNobody(step: Step, id: nat) {
    !step.SubmitCell? && !step.RefuseCell? && !step.SomebodyRefuses? && step != Step.Expire(id)
  }

  lemma StepLeavesItAsleep(s: Sync, step: Step, id: nat)
    requires FollowsAt(s, id, Asleep) && s.followers[id].signal.Armed? && s.notifying == 0
    requires StirsNobody(step, id)
    ensures var s' := DoLookingFirst(s, step);
      s'.notifying == 0 && id in s'.followers && s'.followers[id] == s.followers[id]
  {
    hide KnownFor, Takes, StableAt, Transition;
  }

  /** And there it stays: short of a further publication, only its own deadline moves it. */
  lemma {:induction false} StrandedToTheDeadline(s: Sync, more: seq<Step>, id: nat)
    requires FollowsAt(s, id, Asleep) && s.followers[id].signal.Armed? && s.notifying == 0
    requires forall k | 0 <= k < |more| :: StirsNobody(more[k], id)
    ensures var s' := RunLookingFirst(s, more);
      s'.notifying == 0 && id in s'.followers && s'.followers[id] == s.followers[id]
    decreases |more|
  {
    if more != [] {
      var front := more[..|more| - 1];
      StrandedToTheDeadline(s, front, id);
      hide DoLookingFirst, StirsNobody;
      StepLeavesItAsleep(RunLookingFirst(s, front), more[|more| - 1], id);
    }
  }

  lemma StepPublishesWhileStable(s: Sync, step: Step)
    ensures forall a | a in Do(s, step).published && a !in s.published ::
      StableAt(s.record, a.generation) && Do(s, step).cell == Some(a) && a.slices.Some?
    ensures s.published <= Do(s, step).published
  {}

  /**
   Every map ever published was put on the cell by a step at which the group was Stable at that map's
   generation; `k` is that step.
   */
  lemma {:induction false} PublishedWhileStable(record: GroupRecord, steps: seq<Step>, a: Assignment) returns (k: nat)
    requires a in Run(Opened(record), steps).published
    ensures k < |steps|
    ensures StableAt(Run(Opened(record), steps[..k]).record, a.generation)
    ensures Run(Opened(record), steps[..k + 1]).cell == Some(a) && a.slices.Some?
    decreases |steps|
  {
    hide Do, StableAt;
    assert steps != [];
    var n := |steps| - 1;
    var front := steps[..n];
    if a in Run(Opened(record), front).published {
      k := PublishedWhileStable(record, front, a);
      assert front[..k] == steps[..k] && front[..k + 1] == steps[..k + 1];
    } else {
      k := n;
      StepPublishesWhileStable(Run(Opened(record), front), steps[n]);
      assert steps[..n + 1] == steps;
    }
  }

  /** Whoever is told an assignment is told one published for its own generation. */
  lemma {:induction false} NobodyGetsAnotherGenerations(record: GroupRecord, steps: seq<Step>, id: nat)
    ensures var s := Run(Opened(record), steps);
      && (id in s.followers && s.followers[id].Released? && s.followers[id].known.Mine? ==>
            Assignment(s.followers[id].generation, Some(s.followers[id].known.slices)) in s.published)
      && (id in s.calls && s.calls[id].Answered? && s.calls[id].answer.Granted? ==>
            Assignment(s.calls[id].generation, Some(s.calls[id].answer.slices)) in s.published)
  {
    RunsKeepInv(record, steps);
    var s := Run(Opened(record), steps);
    if id in s.calls {
      assert CallSettles(s, s.calls[id]);
    }
  }
}
