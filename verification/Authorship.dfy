/**
 Who wrote what: a ledger kept beside the node's step system that gives every call of the optimistic
 append a number and notes which call each entry of the log came from. It changes nothing the node
 does; it lets the races be spoken of call by call.
 */
module Authorship {
  import opened Bytes
  import opened GroupLog
  import opened VersionedLog
  import opened CommittedOffsets
  import opened SharedLog

  /** The author of what the log held at the start. */
  const NOBODY: nat := 0

  /** A call that ran out of tries, and the log's length when it began and when it gave up. */
  datatype GaveUp = GaveUp(call: nat, begun: nat, ended: nat)

  /** A call that answered Ok, and the entry it answered for. */
  datatype Answered = Answered(call: nat, entry: Entry)

  /** `authors` runs beside the log; `calls` numbers the calls under way. */
  datatype Ledger = Ledger(
    authors: seq<nat>,
    calls: map<Who, nat>,
    next: nat,
    gaveUp: set<GaveUp>,
    answered: set<Answered>)

  function Blank(log: seq<Entry>): Ledger {
    Ledger(seq(|log|, _ => NOBODY), map[], 1, {}, {})
  }

  function CallOf(b: Ledger, who: Who): nat {
    if who in b.calls then b.calls[who] else NOBODY
  }

  function Begun(b: Ledger, who: Who): Ledger {
    b.(calls := b.calls[who := b.next], next := b.next + 1)
  }

  /** A call that is no longer under way is struck off. */
  function Kept(s': Node, b: Ledger, who: Who): Ledger {
    if WriterOf(s', who).None? then b.(calls := b.calls - {who}) else b
  }

  /** What one step adds to the ledger. */
  function Noted(s: Node, b: Ledger, step: Step): Ledger {
    match step
    case Receive(request) =>
      if s.actor.None? && Admits(s.live, RecordOf(request)) then Begun(b, TheActor) else b
    case BeginCommit(id, _, _) => if id !in s.commits then Begun(b, TheCommit(id)) else b
    case ReadVersion(who) => Kept(Do(s, step), b, who)
    case LogRefuses(who) => Kept(Do(s, step), b, who)
    case TryAppend(who) => NotedAppend(s, b, who)
    case ApplyRequest => NotedAnswer(s, b, TheActor)
    case ApplyCommit(id) => NotedAnswer(s, b, TheCommit(id))
    case Restart => if EndsOnTheBrink(s.log) then b else b.(calls := map[])
  }

  function NotedAppend(s: Node, b: Ledger, who: Who): Ledger {
    var w := WriterOf(s, who);
    if w.None? || !w.value.Holding? then b
    else if Above(s.log, w.value.next) then b.(authors := b.authors + [CallOf(b, who)])
    else if w.value.tries + 1 == MAX_APPEND_RETRIES then
      b.(calls := b.calls - {who}, gaveUp := b.gaveUp + {GaveUp(CallOf(b, who), w.value.begun, |s.log|)})
    else b
  }

  function NotedAnswer(s: Node, b: Ledger, who: Who): Ledger {
    var w := WriterOf(s, who);
    if w.None? || !w.value.Appended? then b
    else b.(calls := b.calls - {who},
            answered := b.answered + {Answered(CallOf(b, who), Entry(w.value.version, w.value.record))})
  }

  function LedgerAfter(log: seq<Entry>, steps: seq<Step>): Ledger {
    if steps == [] then Blank(log)
    else
      var front := steps[..|steps| - 1];
      Noted(Run(Opened(log, {}), front), LedgerAfter(log, front), steps[|steps| - 1])
  }

  // ---------------------------------------------------------------------------
  // What every step keeps

  /** The entry stands in the log, and this call put it there. */
  ghost predicate Wrote(log: seq<Entry>, authors: seq<nat>, call: nat, e: Entry) {
    |authors| == |log| && exists i | 0 <= i < |log| :: authors[i] == call && log[i] == e
  }

  /** No call wrote twice. */
  ghost predicate Once(authors: seq<nat>) {
    forall i, j | 0 <= i < j < |authors| :: authors[i] == authors[j] ==> authors[i] == NOBODY
  }

  ghost predicate Numbered(s: Node, b: Ledger) {
    && (forall who :: who in b.calls <==> WriterOf(s, who).Some?)
    && (forall who | who in b.calls :: 0 < b.calls[who] < b.next)
    && (forall v, w | v in b.calls && w in b.calls && v != w :: b.calls[v] != b.calls[w])
    && (forall call | call in b.authors :: call < b.next)
  }

  /** A call that has appended wrote its entry; one that has not wrote nothing. */
  ghost predicate CallStands(log: seq<Entry>, authors: seq<nat>, call: nat, w: Writer) {
    if w.Appended? then Wrote(log, authors, call, Entry(w.version, w.record)) else call !in authors
  }

  ghost predicate GaveUpStands(log: seq<Entry>, b: Ledger, g: GaveUp) {
    && 0 < g.call < b.next && g.call !in b.authors && (forall who | who in b.calls :: b.calls[who] != g.call)
    && g.begun + MAX_APPEND_RETRIES <= g.ended <= |log|
  }

  ghost predicate AnswerStands(log: seq<Entry>, b: Ledger, a: Answered) {
    0 < a.call < b.next && Wrote(log, b.authors, a.call, a.entry)
  }

  ghost predicate Booked(s: Node, b: Ledger) {
    && |b.authors| == |s.log| && b.next > 0 && Once(b.authors) && Numbered(s, b)
    && (forall who | who in b.calls :: CallStands(s.log, b.authors, b.calls[who], WriterOf(s, who).value))
    && (forall g | g in b.gaveUp :: GaveUpStands(s.log, b, g))
    && (forall a | a in b.answered :: AnswerStands(s.log, b, a))
  }

  lemma BlankIsBooked(log: seq<Entry>)
    ensures Booked(Opened(log, {}), Blank(log))
  {}

  /** Who else has a writer does not depend on this one's. */
  lemma OthersStay(s: Node, who: Who, w: Option<Writer>, other: Who)
    ensures WriterOf(WithWriter(s, who, w), who) == w
    ensures other != who ==> WriterOf(WithWriter(s, who, w), other) == WriterOf(s, other)
    ensures WithWriter(s, who, w).log == s.log
  {}

  lemma BeginKeepsBooks(s: Node, b: Ledger, who: Who, w: Writer)
    requires Booked(s, b) && WriterOf(s, who).None? && !w.Appended?
    ensures Booked(WithWriter(s, who, Some(w)), Begun(b, who))
  {
    hide Wrote, Once, WriterOf, WithWriter;
    var s', b' := WithWriter(s, who, Some(w)), Begun(b, who);
    BeginKeepsNumbers(s, b, who, w);
    OthersStay(s, who, Some(w), who);
    forall v | v in b'.calls ensures CallStands(s'.log, b'.authors, b'.calls[v], WriterOf(s', v).value) {
      OthersStay(s, who, Some(w), v);
      assert v != who ==> CallStands(s.log, b.authors, b.calls[v], WriterOf(s, v).value);
    }
    hide Numbered, CallStands;
    forall g | g in b'.gaveUp ensures GaveUpStands(s'.log, b', g) {
      assert GaveUpStands(s.log, b, g);
    }
    forall a | a in b'.answered ensures AnswerStands(s'.log, b', a) {
      assert AnswerStands(s.log, b, a);
    }
  }

  lemma BeginKeepsNumbers(s: Node, b: Ledger, who: Who, w: Writer)
    requires Numbered(s, b) && WriterOf(s, who).None? && b.next > 0
    ensures Numbered(WithWriter(s, who, Some(w)), Begun(b, who)) && b.next !in b.authors
  {
    hide WriterOf, WithWriter;
    forall v ensures v in Begun(b, who).calls <==> WriterOf(WithWriter(s, who, Some(w)), v).Some? {
      OthersStay(s, who, Some(w), v);
    }
  }

  /** A call under way moves without writing, or ends having written nothing more. */
  lemma MoveKeepsBooks(s: Node, b: Ledger, who: Who, w: Option<Writer>)
    requires Booked(s, b) && WriterOf(s, who).Some? && (w.Some? ==> !w.value.Appended? && !WriterOf(s, who).value.Appended?)
    ensures Booked(WithWriter(s, who, w), Kept(WithWriter(s, who, w), b, who))
  {
    hide Wrote, Once, WriterOf, WithWriter;
    var s' := WithWriter(s, who, w);
    var b' := Kept(s', b, who);
    OthersStay(s, who, w, who);
    forall v ensures v in b'.calls <==> WriterOf(s', v).Some? {
      OthersStay(s, who, w, v);
    }
    forall v | v in b'.calls ensures CallStands(s'.log, b'.authors, b'.calls[v], WriterOf(s', v).value) {
      OthersStay(s, who, w, v);
      assert CallStands(s.log, b.authors, b.calls[v], WriterOf(s, v).value);
    }
    hide CallStands;
    forall g | g in b'.gaveUp ensures GaveUpStands(s'.log, b', g) {
      assert GaveUpStands(s.log, b, g);
    }
    forall a | a in b'.answered ensures AnswerStands(s'.log, b', a) {
      assert AnswerStands(s.log, b, a);
    }
  }

  /** Only the writers and the log matter to the ledger. */
  lemma SameBooks(s: Node, s': Node, b: Ledger)
    requires Booked(s, b) && s'.log == s.log && s'.actor == s.actor && s'.commits == s.commits
    ensures Booked(s', b)
  {
    hide Wrote, Once;
    assert forall who :: WriterOf(s', who) == WriterOf(s, who);
  }

  lemma WroteStays(log: seq<Entry>, authors: seq<nat>, call: nat, e: Entry, more: Entry, other: nat)
    requires Wrote(log, authors, call, e)
    ensures Wrote(log + [more], authors + [other], call, e)
  {
    var i :| 0 <= i < |log| && authors[i] == call && log[i] == e;
    assert (authors + [other])[i] == call && (log + [more])[i] == e;
  }

  lemma LandingKeepsBooks(s: Node, b: Ledger, who: Who, h: Writer)
    requires Booked(s, b) && WriterOf(s, who) == Some(h) && h.Holding?
    ensures var e := Entry(h.next, h.record);
      Booked(WithWriter(s.(log := s.log + [e]), who, Some(Appended(h.record, h.next))),
             b.(authors := b.authors + [CallOf(b, who)]))
  {
    var call, e := b.calls[who], Entry(h.next, h.record);
    var s' := WithWriter(s.(log := s.log + [e]), who, Some(Appended(h.record, h.next)));
    var b' := b.(authors := b.authors + [call]);
    assert CallStands(s.log, b.authors, call, h);
    assert b'.authors[|s.log|] == call && s'.log[|s.log|] == e;
    assert Wrote(s'.log, b'.authors, call, e);
    assert Once(b'.authors);
    hide Wrote, Once;
    forall v | v in b'.calls ensures CallStands(s'.log, b'.authors, b'.calls[v], WriterOf(s', v).value) {
      if v != who {
        var w := WriterOf(s, v).value;
        assert CallStands(s.log, b.authors, b.calls[v], w);
        if w.Appended? {
          WroteStays(s.log, b.authors, b.calls[v], Entry(w.version, w.record), e, call);
        }
      }
    }
    forall a | a in b'.answered ensures AnswerStands(s'.log, b', a) {
      assert AnswerStands(s.log, b, a);
      WroteStays(s.log, b.authors, a.call, a.entry, e, call);
    }
    forall g | g in b'.gaveUp ensures GaveUpStands(s'.log, b', g) {
      assert GaveUpStands(s.log, b, g);
    }
  }

  lemma QuitKeepsBooks(s: Node, b: Ledger, who: Who, h: Writer)
    requires Booked(s, b) && WriterOf(s, who) == Some(h) && h.Holding? && h.begun + MAX_APPEND_RETRIES <= |s.log|
    ensures Booked(WithWriter(s, who, None),
                   b.(calls := b.calls - {who}, gaveUp := b.gaveUp + {GaveUp(CallOf(b, who), h.begun, |s.log|)}))
  {
    hide Wrote, Once;
    MoveKeepsBooks(s, b, who, None);
    assert CallStands(s.log, b.authors, b.calls[who], h);
  }

  lemma AnswerKeepsBooks(s: Node, b: Ledger, who: Who, w: Writer)
    requires Booked(s, b) && WriterOf(s, who) == Some(w) && w.Appended?
    ensures Booked(WithWriter(s, who, None),
                   b.(calls := b.calls - {who},
                      answered := b.answered + {Answered(CallOf(b, who), Entry(w.version, w.record))}))
  {
    hide Wrote, Once;
    MoveKeepsBooks(s, b, who, None);
    assert CallStands(s.log, b.authors, b.calls[who], w);
  }

  lemma AppendKeepsBooks(s: Node, b: Ledger, who: Who)
    requires Inv(s) && Booked(s, b)
    ensures Booked(DoAppend(s, who), NotedAppend(s, b, who))
  {
    hide Inv, Booked, GoodWriter;
    var w := WriterOf(s, who);
    if w.Some? && w.value.Holding? {
      var h := w.value;
      WriterIsGood(s, who);
      LostRace(s.log, h);
      if Above(s.log, h.next) {
        LandingKeepsBooks(s, b, who, h);
      } else if h.tries + 1 == MAX_APPEND_RETRIES {
        QuitKeepsBooks(s, b, who, h);
      } else {
        MoveKeepsBooks(s, b, who, Some(Reading(h.record, h.tries + 1, h.begun)));
      }
    }
  }

  lemma ReadKeepsBooks(s: Node, b: Ledger, who: Who)
    requires Booked(s, b)
    ensures Booked(DoRead(s, who), Kept(DoRead(s, who), b, who))
  {
    var w := WriterOf(s, who);
    StruckOff(s, b, who);
    hide Booked;
    if w.Some? && w.value.Reading? {
      match NextVersion(s.log)
      case Err(_) => MoveKeepsBooks(s, b, who, None);
      case Ok(next) =>
        MoveKeepsBooks(s, b, who, Some(Holding(w.value.record, w.value.tries, w.value.begun, |s.log|, next)));
    }
  }

  lemma StruckOff(s: Node, b: Ledger, who: Who)
    requires Booked(s, b)
    ensures Kept(s, b, who) == b
  {
    if WriterOf(s, who).None? {
      assert b.calls - {who} == b.calls;
    }
  }

  lemma RestartKeepsBooks(s: Node, b: Ledger)
    requires Booked(s, b)
    ensures Booked(Opened(s.log, s.acked), b.(calls := map[]))
  {
    hide Wrote, Once, Opened;
    OpenedHasNoCalls(s);
  }

  lemma OpenedHasNoCalls(s: Node)
    ensures var o := Opened(s.log, s.acked);
      o.log == s.log && forall who :: WriterOf(o, who).None?
  {}

  lemma StepKeepsBooks(s: Node, b: Ledger, step: Step)
    requires Inv(s) && Booked(s, b)
    ensures Booked(Do(s, step), Noted(s, b, step))
  {
    hide Inv, Booked, Merge, ApplyRecord, Opened, Kept;
    match step
    case Receive(request) =>
      if s.actor.None? && Admits(s.live, RecordOf(request)) {
        BeginKeepsBooks(s, b, TheActor, Reading(RecordOf(request), 0, |s.log|));
      }
    case BeginCommit(id, key, offset) =>
      if id !in s.commits {
        BeginKeepsBooks(s, b, TheCommit(id), Reading(CommitOf(key, offset), 0, |s.log|));
      }
    case ReadVersion(who) => ReadKeepsBooks(s, b, who);
    case TryAppend(who) => AppendKeepsBooks(s, b, who);
    case LogRefuses(who) =>
      StruckOff(s, b, who);
      if WriterOf(s, who).Some? && !WriterOf(s, who).value.Appended? {
        MoveKeepsBooks(s, b, who, None);
      }
    case ApplyRequest =>
      if s.actor.Some? && s.actor.value.Appended? {
        AnswerKeepsBooks(s, b, TheActor, s.actor.value);
        SameBooks(WithWriter(s, TheActor, None), Do(s, step), Noted(s, b, step));
      }
    case ApplyCommit(id) =>
      if id in s.commits && s.commits[id].Appended? {
        AnswerKeepsBooks(s, b, TheCommit(id), s.commits[id]);
        SameBooks(WithWriter(s, TheCommit(id), None), Do(s, step), Noted(s, b, step));
      }
    case Restart =>
      if !EndsOnTheBrink(s.log) {
        RestartKeepsBooks(s, b);
      }
  }

  lemma {:induction false} RunsKeepBooks(log: seq<Entry>, steps: seq<Step>)
    requires Increasing(log)
    ensures Booked(Run(Opened(log, {}), steps), LedgerAfter(log, steps))
    decreases |steps|
  {
    hide Inv, Do, Booked, Noted, Opened, Blank;
    if steps == [] {
      BlankIsBooked(log);
    } else {
      var front := steps[..|steps| - 1];
      RunsKeepBooks(log, front);
      RunsKeepInv(log, front);
      StepKeepsBooks(Run(Opened(log, {}), front), LedgerAfter(log, front), steps[|steps| - 1]);
    }
  }

  // ---------------------------------------------------------------------------
  // Over every run

  /** Every entry of the log, whoever wrote it, has a version of its own, and no call wrote two. */
  lemma {:induction false} VersionsAndAuthors(log: seq<Entry>, steps: seq<Step>)
    requires Increasing(log)
    ensures var s, b := Run(Opened(log, {}), steps), LedgerAfter(log, steps);
      Increasing(s.log) && |b.authors| == |s.log| && Once(b.authors)
  {
    hide Run, LedgerAfter, Opened;
    RunsKeepInv(log, steps);
    RunsKeepBooks(log, steps);
  }

  /**
   A call that answered Ok, the actor's or a commit's, stands in the log at exactly one place, and
   nothing else there is its doing.
   */
  lemma {:induction false} AnsweredStandsOnce(log: seq<Entry>, steps: seq<Step>, a: Answered) returns (at: nat)
    requires Increasing(log) && a in LedgerAfter(log, steps).answered
    ensures var s, b := Run(Opened(log, {}), steps), LedgerAfter(log, steps);
      && |b.authors| == |s.log| && at < |s.log| && s.log[at] == a.entry && multiset(s.log)[a.entry] == 1
      && forall i | 0 <= i < |s.log| :: b.authors[i] == a.call <==> i == at
  {
    hide Run, LedgerAfter, Opened;
    RunsKeepInv(log, steps);
    RunsKeepBooks(log, steps);
    var s, b := Run(Opened(log, {}), steps), LedgerAfter(log, steps);
    assert AnswerStands(s.log, b, a);
    var i :| 0 <= i < |s.log| && b.authors[i] == a.call && s.log[i] == a.entry;
    OnceInAnIncreasingLog(s.log, i);
    at := i;
  }

  /**
   A call that gave up put nothing in the log, and while it tried at least eight entries landed there
   that were other calls'.
   */
  lemma {:induction false} GivingUpSawEightOthers(log: seq<Entry>, steps: seq<Step>, g: GaveUp)
    requires Increasing(log) && g in LedgerAfter(log, steps).gaveUp
    ensures var s, b := Run(Opened(log, {}), steps), LedgerAfter(log, steps);
      && |b.authors| == |s.log| && g.call != NOBODY && g.call !in b.authors
      && g.begun + 8 <= g.ended <= |s.log|
      && forall i | g.begun <= i < g.ended :: b.authors[i] != g.call
  {
    hide Run, LedgerAfter, Opened;
    RunsKeepBooks(log, steps);
    assert GaveUpStands(Run(Opened(log, {}), steps).log, LedgerAfter(log, steps), g);
  }
}
