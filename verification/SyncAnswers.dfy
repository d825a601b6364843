/**
 Which answer an assignment-bearing call gets over a run of the SyncGroup barrier, and what followers
 are then told.
 */
module SyncAnswers {
  import opened Bytes
  import opened GroupState
  import opened SyncBarrier

  // ---------------------------------------------------------------------------
  // Left alone

  /** The cell, as a follower that looks is told it. */
  lemma LookTells(s: Sync, id: nat)
    requires FollowsAt(s, id, AtTop) && !s.followers[id].signal.Unarmed?
    ensures var f, told := s.followers[id], Do(s, Look(id)).followers[id];
      match s.cell
      case None => told == f.(place := Looked)
      case Some(Assignment(generation, slices)) =>
        if generation < f.generation then told == f.(place := Looked)
        else if generation > f.generation then told == Released(f.generation, Superseded)
        else told == Released(f.generation, if slices.Some? then Mine(slices.value) else Refused)
  {}

  /** At its deadline a sleeping follower is told whatever the cell says by then, and only a sleeping one has a deadline. */
  lemma DeadlineTells(s: Sync, id: nat)
    requires id in s.followers && s.followers[id].Following?
    ensures var f := s.followers[id];
      Do(s, Step.Expire(id)) ==
        if f.place != Asleep then s
        else s.(followers := s.followers[id := Released(f.generation,
          match s.cell
          case None => Waiting
          case Some(Assignment(generation, slices)) =>
            if generation < f.generation then Waiting
            else if generation > f.generation then Superseded
            else if slices.Some? then Mine(slices.value) else Refused)])
  {}

  /** From any state: a leader of the group's own generation, left alone, is granted its map. */
  lemma LeaderIsGranted(s: Sync, id: nat, slices: Assignments)
    requires id !in s.calls && s.record.state in {CompletingRebalance, Stable}
    requires s.cell.Some? ==> s.cell.value.generation <= s.record.generation
    ensures var g := s.record.generation;
      var s' := Do(Do(Do(Do(s, BeginSync(id, slices)), ActorSyncs(id, true)), Judge(id)), SubmitCell(id));
      && id in s'.calls && s'.calls[id] == Answered(g, Granted(slices))
      && s'.cell == Some(Assignment(g, Some(slices))) && s'.followers == s.followers && s'.notifying == s.notifying + 1
  {
    var g := s.record.generation;
    var begun := Do(s, BeginSync(id, slices));
    assert begun == s.(calls := s.calls[id := AwaitingActor(g, slices)]);
    var synced := Do(begun, ActorSyncs(id, true));
    assert StableAt(synced.record, g) && id in synced.calls && synced.calls[id].Returned?;
    var judged := Do(synced, Judge(id));
    assert judged == synced.(calls := synced.calls[id := Submitting(g, slices)]);
  }

  /** And whoever then comes for that generation is told that map. */
  lemma FollowerIsTold(s: Sync, id: nat, generation: int, slices: Assignments)
    requires id !in s.followers && s.cell == Some(Assignment(generation, Some(slices)))
    ensures var s' := Do(Do(Do(s, Arrive(id, generation)), Register(id)), Look(id));
      id in s'.followers && s'.followers[id] == Released(generation, Mine(slices))
  {
    var arrived := Do(s, Arrive(id, generation));
    assert arrived == s.(followers := s.followers[id := Following(generation, AtTop, Unarmed)]);
    FromTheTopToTheAnswer(arrived, id);
  }

  // ---------------------------------------------------------------------------
  // A call over a run

  function At(record: GroupRecord, steps: seq<Step>, n: nat): Sync
    requires n <= |steps|
  {
    Run(Opened(record), steps[..n])
  }

  lemma AtFirst(record: GroupRecord, steps: seq<Step>)
    ensures At(record, steps, 0) == Opened(record)
  {
    assert steps[..0] == [];
  }

  lemma AtNext(record: GroupRecord, steps: seq<Step>, n: nat)
    requires n < |steps|
    ensures At(record, steps, n + 1) == Do(At(record, steps, n), steps[n])
  {
    assert steps[..n + 1][..n] == steps[..n];
  }

  /** The step that takes a call out of the phase it is in. */
  predicate Advances(c: Call, step: Step, id: nat) {
    match c
    case AwaitingActor(_, _) => step.ActorSyncs? && step.id == id
    case Returned(_, _, _) => step == Judge(id)
    case Submitting(_, _) => step == SubmitCell(id)
    case Refusing(_, _) => step == RefuseCell(id)
    case Answered(_, _) => false
  }

  /** A call moves with its own next step and with no other. */
  lemma OnlyItsOwnStep(s: Sync, step: Step, id: nat)
    requires id in s.calls
    ensures id in Do(s, step).calls
    ensures Do(s, step).calls[id] != s.calls[id] <==> Advances(s.calls[id], step, id)
  {
    hide KnownFor, Takes, Declines, StableAt, Transition, AfterRefuse;
  }

  lemma {:induction false} CallStays(record: GroupRecord, steps: seq<Step>, id: nat, i: nat, n: nat)
    requires i <= n <= |steps| && id in At(record, steps, i).calls
    requires forall t | i <= t < n :: !Advances(At(record, steps, i).calls[id], steps[t], id)
    ensures id in At(record, steps, n).calls && At(record, steps, n).calls[id] == At(record, steps, i).calls[id]
    decreases n
  {
    hide At, Do, Advances;
    if i < n {
      CallStays(record, steps, id, i, n - 1);
      AtNext(record, steps, n - 1);
      OnlyItsOwnStep(At(record, steps, n - 1), steps[n - 1], id);
    }
  }

  /** The step that brought a call where it is at `n`, nothing having moved it since. */
  lemma {:induction false} LastMove(record: GroupRecord, steps: seq<Step>, id: nat, n: nat) returns (i: nat)
    requires n <= |steps| && id in At(record, steps, n).calls
    ensures i < n && id in At(record, steps, i + 1).calls
    ensures At(record, steps, i + 1).calls[id] == At(record, steps, n).calls[id]
    ensures id !in At(record, steps, i).calls || Advances(At(record, steps, i).calls[id], steps[i], id)
    ensures forall t | i < t < n :: !Advances(At(record, steps, n).calls[id], steps[t], id)
    decreases n
  {
    AtFirst(record, steps);
    hide At, Do, Advances;
    AtNext(record, steps, n - 1);
    if id in At(record, steps, n - 1).calls {
      OnlyItsOwnStep(At(record, steps, n - 1), steps[n - 1], id);
      if Advances(At(record, steps, n - 1).calls[id], steps[n - 1], id) {
        i := n - 1;
      } else {
        i := LastMove(record, steps, id, n - 1);
      }
    } else {
      i := n - 1;
    }
  }

  /** A call begun at `b`, past the actor at `a` and judged at `j`, in whatever interleaving. */
  ghost predicate Judged(record: GroupRecord, steps: seq<Step>, id: nat, generation: int, slices: Assignments,
                         b: int, a: int, j: int) {
    && 0 <= b < a < j < |steps|
    && steps[b] == BeginSync(id, slices) && id !in At(record, steps, b).calls
    && At(record, steps, b).record.state in {CompletingRebalance, Stable}
    && At(record, steps, b).record.generation == generation
    && steps[a].ActorSyncs? && steps[a].id == id && steps[j] == Judge(id)
    && (forall t | b < t < a :: !(steps[t].ActorSyncs? && steps[t].id == id))
    && (forall t | a < t < j :: steps[t] != Judge(id))
  }

  /** The first reading: the record the actor left, or where it refused the event the record when judged. */
  ghost predicate FirstReading(record: GroupRecord, steps: seq<Step>, generation: int, a: int, j: int)
    requires 0 <= a < j < |steps| && steps[a].ActorSyncs?
  {
    var acted, judged := At(record, steps, a).record, At(record, steps, j).record;
    if acted.state.CompletingRebalance? then steps[a].reachable && acted.generation == generation
    else judged.state.Stable? && judged.generation == generation
  }

  /** Granted at `k`: Stable at its generation at both readings, and nothing later on the cell. */
  ghost predicate GrantedAt(record: GroupRecord, steps: seq<Step>, id: nat, generation: int, slices: Assignments,
                            b: int, a: int, j: int, k: int) {
    && Judged(record, steps, id, generation, slices, b, a, j) && FirstReading(record, steps, generation, a, j)
    && j < k < |steps| && steps[k] == SubmitCell(id) && (forall t | j < t < k :: steps[t] != SubmitCell(id))
    && var s := At(record, steps, k);
       && s.record.state.Stable? && s.record.generation == generation
       && (s.cell.Some? ==> s.cell.value.generation <= generation)
  }

  /** Told at `k` that the coordinator is not available: the group was there to sync and the log was not. */
  ghost predicate UnavailableAt(record: GroupRecord, steps: seq<Step>, id: nat, generation: int, slices: Assignments,
                                b: int, a: int, j: int, k: int) {
    && Judged(record, steps, id, generation, slices, b, a, j)
    && At(record, steps, a).record.state.CompletingRebalance? && !steps[a].reachable
    && j < k < |steps| && steps[k] == RefuseCell(id) && (forall t | j < t < k :: steps[t] != RefuseCell(id))
  }

  /** What the actor makes of a call: `SyncComplete` applied, or illegal, or the log out of reach. */
  lemma ActorAnswers(s: Sync, id: nat, reachable: bool)
    requires id in s.calls && s.calls[id].AwaitingActor?
    ensures var c, s' := s.calls[id], Do(s, ActorSyncs(id, reachable));
      && id in s'.calls
      && s'.calls[id] == Returned(c.generation, c.slices,
           if !s.record.state.CompletingRebalance? then Illegal
           else if reachable then Transitioned(s.record.(state := Stable, assignmentEpoch := s.record.generation))
           else Unavailable)
  {}

  lemma JudgeAnswers(s: Sync, id: nat)
    requires id in s.calls && s.calls[id].Returned?
    ensures var c, s' := s.calls[id], Do(s, Judge(id));
      var read := if c.outcome.Transitioned? then c.outcome.record else s.record;
      && id in s'.calls
      && s'.calls[id] ==
           if c.outcome.Unavailable? then Refusing(c.generation, CoordinatorNotAvailable)
           else if read.state.Stable? && read.generation == c.generation then Submitting(c.generation, c.slices)
           else Refusing(c.generation, RebalanceInProgress)
  {}

  lemma SubmitAnswers(s: Sync, id: nat)
    requires id in s.calls && s.calls[id].Submitting?
    ensures var c, s' := s.calls[id], Do(s, SubmitCell(id));
      && id in s'.calls
      && s'.calls[id] ==
           if s.record.state.Stable? && s.record.generation == c.generation
              && (s.cell.Some? ==> s.cell.value.generation <= c.generation)
           then Answered(c.generation, Granted(c.slices))
           else Refusing(c.generation, RebalanceInProgress)
  {}

  lemma JudgedIs(record: GroupRecord, steps: seq<Step>, id: nat, generation: int, slices: Assignments, b: nat, a: nat, j: nat)
    requires Judged(record, steps, id, generation, slices, b, a, j)
    ensures var s := At(record, steps, j + 1);
      && id in s.calls
      && s.calls[id] ==
           if At(record, steps, a).record.state.CompletingRebalance? && !steps[a].reachable
           then Refusing(generation, CoordinatorNotAvailable)
           else if FirstReading(record, steps, generation, a, j) then Submitting(generation, slices)
           else Refusing(generation, RebalanceInProgress)
  {
    AtNext(record, steps, b);
    AtNext(record, steps, a);
    AtNext(record, steps, j);
    assert At(record, steps, b + 1).calls[id] == AwaitingActor(generation, slices) by {
      hide At;
    }
    hide At, Do;
    CallStays(record, steps, id, b + 1, a);
    ActorAnswers(At(record, steps, a), id, steps[a].reachable);
    CallStays(record, steps, id, a + 1, j);
    JudgeAnswers(At(record, steps, j), id);
  }

  lemma {:induction false} GrantedIs(record: GroupRecord, steps: seq<Step>, id: nat, generation: int, slices: Assignments,
                                     b: nat, a: nat, j: nat, k: nat)
    requires GrantedAt(record, steps, id, generation, slices, b, a, j, k)
    ensures var s := At(record, steps, |steps|);
      id in s.calls && s.calls[id] == Answered(generation, Granted(slices))
  {
    JudgedIs(record, steps, id, generation, slices, b, a, j);
    hide At, Do;
    CallStays(record, steps, id, j + 1, k);
    AtNext(record, steps, k);
    SubmitAnswers(At(record, steps, k), id);
    CallStays(record, steps, id, k + 1, |steps|);
  }

  lemma {:induction false} UnavailableIs(record: GroupRecord, steps: seq<Step>, id: nat, generation: int, slices: Assignments,
                                         b: nat, a: nat, j: nat, k: nat)
    requires UnavailableAt(record, steps, id, generation, slices, b, a, j, k)
    ensures var s := At(record, steps, |steps|);
      id in s.calls && s.calls[id] == Answered(generation, CoordinatorNotAvailable)
  {
    JudgedIs(record, steps, id, generation, slices, b, a, j);
    hide At;
    CallStays(record, steps, id, j + 1, k);
    AtNext(record, steps, k);
    assert At(record, steps, k + 1).calls[id] == Answered(generation, CoordinatorNotAvailable);
    CallStays(record, steps, id, k + 1, |steps|);
  }

  /** What a call that has just moved was before. */
  lemma CameFrom(s: Sync, step: Step, id: nat)
    requires id in Do(s, step).calls && (id !in s.calls || Advances(s.calls[id], step, id))
    ensures var c := Do(s, step).calls[id];
      match c
      case AwaitingActor(generation, slices) =>
        && id !in s.calls && step == BeginSync(id, slices)
        && s.record.state in {CompletingRebalance, Stable} && s.record.generation == generation
      case Returned(generation, slices, _) => id in s.calls && s.calls[id] == AwaitingActor(generation, slices)
      case Submitting(generation, slices) =>
        id in s.calls && s.calls[id].Returned? && s.calls[id].generation == generation && s.calls[id].slices == slices
      case Refusing(generation, answer) =>
        && id in s.calls && s.calls[id].generation == generation && (s.calls[id].Returned? || s.calls[id].Submitting?)
        && (answer == CoordinatorNotAvailable ==> s.calls[id].Returned? && s.calls[id].outcome.Unavailable?)
      case Answered(generation, answer) =>
        && id in s.calls && s.calls[id].generation == generation
        && (if answer.Granted? then s.calls[id] == Submitting(generation, answer.slices) || s.calls[id] == Refusing(generation, answer)
            else s.calls[id] == Refusing(generation, answer))
  {
    hide KnownFor, Declines, StableAt, AfterRefuse, Takes;
  }

  /** Every call that was judged was begun and went through the actor. */
  lemma WasJudged(record: GroupRecord, steps: seq<Step>, id: nat, j: nat) returns (b: nat, a: nat)
    requires j < |steps| && id in At(record, steps, j).calls && At(record, steps, j).calls[id].Returned?
    requires steps[j] == Judge(id)
    ensures var c := At(record, steps, j).calls[id];
      && Judged(record, steps, id, c.generation, c.slices, b, a, j)
      && c.outcome == (
           var acted := At(record, steps, a).record;
           if !acted.state.CompletingRebalance? then Illegal
           else if steps[a].reachable then Transitioned(acted.(state := Stable, assignmentEpoch := acted.generation))
           else Unavailable)
  {
    hide At, Do;
    var c := At(record, steps, j).calls[id];
    a := LastMove(record, steps, id, j);
    AtNext(record, steps, a);
    CameFrom(At(record, steps, a), steps[a], id);
    ActorAnswers(At(record, steps, a), id, steps[a].reachable);
    b := LastMove(record, steps, id, a);
    AtNext(record, steps, b);
    CameFrom(At(record, steps, b), steps[b], id);
  }

  lemma {:induction false} WasGranted(record: GroupRecord, steps: seq<Step>, id: nat) returns (b: nat, a: nat, j: nat, k: nat)
    requires var s := At(record, steps, |steps|);
      id in s.calls && s.calls[id].Answered? && s.calls[id].answer.Granted?
    ensures var c := At(record, steps, |steps|).calls[id];
      GrantedAt(record, steps, id, c.generation, c.answer.slices, b, a, j, k)
  {
    k := LastMove(record, steps, id, |steps|);
    RunsKeepInv(record, steps[..k]);
    AtNext(record, steps, k);
    hide At, Do;
    CameFrom(At(record, steps, k), steps[k], id);
    assert CallSettles(At(record, steps, k), At(record, steps, k).calls[id]);
    SubmitAnswers(At(record, steps, k), id);
    j := LastMove(record, steps, id, k);
    AtNext(record, steps, j);
    CameFrom(At(record, steps, j), steps[j], id);
    b, a := WasJudged(record, steps, id, j);
    JudgeAnswers(At(record, steps, j), id);
  }

  lemma {:induction false} WasUnavailable(record: GroupRecord, steps: seq<Step>, id: nat)
    returns (slices: Assignments, b: nat, a: nat, j: nat, k: nat)
    requires var s := At(record, steps, |steps|);
      id in s.calls && s.calls[id].Answered? && s.calls[id].answer.CoordinatorNotAvailable?
    ensures UnavailableAt(record, steps, id, At(record, steps, |steps|).calls[id].generation, slices, b, a, j, k)
  {
    hide At, Do;
    k := LastMove(record, steps, id, |steps|);
    AtNext(record, steps, k);
    CameFrom(At(record, steps, k), steps[k], id);
    j := LastMove(record, steps, id, k);
    AtNext(record, steps, j);
    CameFrom(At(record, steps, j), steps[j], id);
    slices := At(record, steps, j).calls[id].slices;
    b, a := WasJudged(record, steps, id, j);
  }

  /**
   In every interleaving a call is granted its map if and only if it was begun for the group's own
   generation, found the group Stable at it at both readings, and found nothing later on the cell.
   */
  lemma GrantedExactly(record: GroupRecord, steps: seq<Step>, id: nat, generation: int, slices: Assignments)
    ensures var s := Run(Opened(record), steps);
      (id in s.calls && s.calls[id] == Answered(generation, Granted(slices)))
      <==> exists b, a, j, k :: GrantedAt(record, steps, id, generation, slices, b, a, j, k)
  {
    assert At(record, steps, |steps|) == Run(Opened(record), steps) by {
      assert steps[..|steps|] == steps;
    }
    hide At, GrantedAt;
    var s := At(record, steps, |steps|);
    if id in s.calls && s.calls[id] == Answered(generation, Granted(slices)) {
      var b, a, j, k := WasGranted(record, steps, id);
    }
    if b, a, j, k :| GrantedAt(record, steps, id, generation, slices, b, a, j, k) {
      InOrder(record, steps, id, generation, slices, b, a, j, k);
      GrantedIs(record, steps, id, generation, slices, b, a, j, k);
    }
  }

  lemma InOrder(record: GroupRecord, steps: seq<Step>, id: nat, generation: int, slices: Assignments, b: int, a: int, j: int, k: int)
    requires GrantedAt(record, steps, id, generation, slices, b, a, j, k) || UnavailableAt(record, steps, id, generation, slices, b, a, j, k)
    ensures 0 <= b < a < j < k < |steps|
  {}

  /** And it is told the coordinator is not available if and only if the actor could not reach the log for it. */
  lemma UnavailableExactly(record: GroupRecord, steps: seq<Step>, id: nat, generation: int)
    ensures var s := Run(Opened(record), steps);
      (id in s.calls && s.calls[id] == Answered(generation, CoordinatorNotAvailable))
      <==> exists slices, b, a, j, k :: UnavailableAt(record, steps, id, generation, slices, b, a, j, k)
  {
    assert At(record, steps, |steps|) == Run(Opened(record), steps) by {
      assert steps[..|steps|] == steps;
    }
    hide At, UnavailableAt;
    var s := At(record, steps, |steps|);
    if id in s.calls && s.calls[id] == Answered(generation, CoordinatorNotAvailable) {
      var slices, b, a, j, k := WasUnavailable(record, steps, id);
    }
    if slices, b, a, j, k :| UnavailableAt(record, steps, id, generation, slices, b, a, j, k) {
      InOrder(record, steps, id, generation, slices, b, a, j, k);
      UnavailableIs(record, steps, id, generation, slices, b, a, j, k);
    }
  }
}
