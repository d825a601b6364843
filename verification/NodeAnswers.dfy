/**
 What a node does with one request that nobody races: the record it writes, the state it leaves and
 what it then serves, from any state a run can reach.
 */
module NodeAnswers {
  import opened Bytes
  import opened GroupState
  import opened GroupLog
  import opened VersionedLog
  import opened GroupTransitions
  import opened CommittedOffsets
  import opened SharedLog

  /** The log after one more record of its own version. */
  function Logging(log: seq<Entry>, record: LogRecord): seq<Entry>
    requires NextVersion(log).Ok?
  {
    log + [Entry(NextVersion(log).value, record)]
  }

  lemma NextIsAbove(log: seq<Entry>)
    requires NextVersion(log).Ok?
    ensures Above(log, NextVersion(log).value)
    ensures NextVersion(log).value == if log == [] then 0 else log[|log| - 1].version + 1
  {}

  /** Read and append: the record is the log's newest entry, and its writer holds its version. */
  lemma AppendLeftAlone(s: Node, who: Who)
    requires WriterOf(s, who).Some? && WriterOf(s, who).value.Reading? && NextVersion(s.log).Ok?
    ensures var record, next := WriterOf(s, who).value.record, NextVersion(s.log).value;
      Do(Do(s, ReadVersion(who)), TryAppend(who))
        == WithWriter(s.(log := Logging(s.log, record)), who, Some(Appended(record, next)))
  {
    NextIsAbove(s.log);
    hide ReplayAll, MergeAll, Merge, ApplyRecord, NextVersion;
    var read := Do(s, ReadVersion(who));
    assert read.log == s.log && WriterOf(read, who).value.Holding?;
  }

  /** A commit is logged under the next version, acknowledged, and served from then on. */
  lemma CommitLeftAlone(s: Node, id: nat, group: GroupId, topic: TopicId, partition: i32, offset: i64)
    requires Inv(s) && id !in s.commits && NextVersion(s.log).Ok?
    ensures var key, next := OffsetKey(group, topic, partition), NextVersion(s.log).value;
      var begun := Do(s, BeginCommit(id, key, offset));
      var s' := Do(Do(Do(begun, ReadVersion(TheCommit(id))), TryAppend(TheCommit(id))), ApplyCommit(id));
      var e := Entry(next, OffsetCommitted(group, topic, partition, offset));
      s' == s.(log := s.log + [e], offsets := s.offsets[key := Versioned(next, offset)], acked := s.acked + {e})
  {
    var key, next := OffsetKey(group, topic, partition), NextVersion(s.log).value;
    if key in s.offsets {
      assert Entry(s.offsets[key].version, CommitOf(key, s.offsets[key].offset)) in s.log;
      NewerThanAll(s.log, s.offsets[key].version);
    }
    CommitIsAppended(s, id, key, offset);
    hide Do, NextVersion, Inv;
    var begun := Do(s, BeginCommit(id, key, offset));
    var appended := Do(Do(begun, ReadVersion(TheCommit(id))), TryAppend(TheCommit(id)));
    CommitIsApplied(appended, id);
    assert s.commits[id := Appended(CommitOf(key, offset), next)] - {id} == s.commits;
  }

  lemma CommitIsAppended(s: Node, id: nat, key: OffsetKey, offset: i64)
    requires id !in s.commits && NextVersion(s.log).Ok?
    ensures var begun, next := Do(s, BeginCommit(id, key, offset)), NextVersion(s.log).value;
      Do(Do(begun, ReadVersion(TheCommit(id))), TryAppend(TheCommit(id)))
        == s.(log := Logging(s.log, CommitOf(key, offset)), commits := s.commits[id := Appended(CommitOf(key, offset), next)])
  {
    hide ReplayAll, MergeAll, NextVersion, ApplyRecord, CommitOf;
    var begun := Do(s, BeginCommit(id, key, offset));
    assert begun == s.(commits := s.commits[id := Reading(CommitOf(key, offset), 0, |s.log|)]);
    hide Do;
    AppendLeftAlone(begun, TheCommit(id));
  }

  lemma CommitIsApplied(s: Node, id: nat)
    requires id in s.commits && s.commits[id].Appended?
    ensures var e := Entry(s.commits[id].version, s.commits[id].record);
      Do(s, ApplyCommit(id)) == s.(offsets := Merge(s.offsets, e), commits := s.commits - {id}, acked := s.acked + {e})
  {}

  lemma NewerThanAll(log: seq<Entry>, version: u64)
    requires Increasing(log) && NextVersion(log).Ok? && exists e | e in log :: e.version == version
    ensures version < NextVersion(log).value
  {
    var e :| e in log && e.version == version;
    var i :| 0 <= i < |log| && log[i] == e;
    assert i < |log| - 1 ==> log[i].version < log[|log| - 1].version;
  }

  /** The group, with everything the actor did for it. */
  function Handled(s: Node, request: Request): Node {
    Do(Do(Do(Do(s, Receive(request)), ReadVersion(TheActor)), TryAppend(TheActor)), ApplyRequest)
  }

  /**
   An event the group's state admits is logged and applied, the roster going with the last member; one
   it does not admit changes nothing.
   */
  lemma EventLeftAlone(s: Node, group: GroupId, event: Event)
    requires s.actor.None? && NextVersion(s.log).Ok?
    ensures var current := Current(s.live, group);
      if event in Admitted(current.state) then
        Handled(s, FireEvent(group, event)) == s.(
          log := Logging(s.log, GroupTransitioned(group, event)),
          live := Groups(
            s.live.records[group := Transition(current, event).value],
            if event in {AllMembersGone, Expire} then s.live.rosters - {group} else s.live.rosters))
      else Do(s, Receive(FireEvent(group, event))) == s
  {
    TheEventDecides(Current(s.live, group), event);
    var received := Do(s, Receive(FireEvent(group, event)));
    if event in Admitted(Current(s.live, group).state) {
      assert received == s.(actor := Some(Reading(GroupTransitioned(group, event), 0, |s.log|)));
      AppendLeftAlone(received, TheActor);
    }
  }

  lemma RosterLeftAlone(s: Node, group: GroupId, roster: Option<Roster>)
    requires s.actor.None? && NextVersion(s.log).Ok?
    ensures Handled(s, SetRoster(group, roster)) == s.(
      log := Logging(s.log, GroupRosterUpdated(group, roster)),
      live := s.live.(rosters := match roster case Some(r) => s.live.rosters[group := r] case None => s.live.rosters - {group}))
  {
    hide ReplayAll, MergeAll, NextVersion;
    var received := Do(s, Receive(SetRoster(group, roster)));
    assert received == s.(actor := Some(Reading(GroupRosterUpdated(group, roster), 0, |s.log|)));
    AppendLeftAlone(received, TheActor);
  }
}
