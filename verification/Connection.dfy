/**
 One connection as a step system: a reader that spawns a handler per request, handlers that finish
 in any order, and a writer that joins them in request order, with a semaphore and a bounded
 channel between them.
 */
module Connection {
  import opened Bytes

  datatype HandlerResponse = Reply(body: seq<byte>) | Silent | Close

  datatype Handler = Running | Done(response: HandlerResponse) | Panicked

  datatype ConnectionEnd =
    | TimedOut(waitingFor: string)
    | FrameTooLarge(declared: int)
    | NegativeFrameSize(declared: int)
    | Io
    | HandlerPanicked

  datatype Reader =
    | ReadingSize
    | ReadingBody(size: nat)
    | HoldingRequest(size: nat)
    | Sending
    | ReaderDone(verdict: Result<(), ConnectionEnd>)
    | ReaderAborted

  datatype WriterEnd = Drained | HandlerClosed

  datatype Writer =
    | Receiving
    | Joining(sequence: nat)
    | Writing(frame: seq<byte>, sent: nat)
    | WriterDone(outcome: Result<WriterEnd, ConnectionEnd>)

  datatype Limits = Limits(maxInFlight: nat, maxFrame: nat)

  /** `channel` holds sequence numbers; `answered` requests are settled; `wire` is what the peer sees. */
  datatype Conn = Conn(
    limits: Limits,
    reader: Reader,
    handlers: seq<Handler>,
    channel: seq<nat>,
    writer: Writer,
    answered: nat,
    wire: seq<byte>)

  datatype Step =
    | ReadSize(declared: i32)
    | ReadBody
    | ReadFails(verdict: Result<(), ConnectionEnd>)
    | Spawn
    | Send
    | Finish(sequence: nat, response: HandlerResponse)
    | Panic(sequence: nat)
    | Receive
    | Join
    | WriteSome(n: nat)
    | WriteFails(end: ConnectionEnd)
    | FlushFails
    | AbortReader

  function Cap(limits: Limits): (cap: nat)
    ensures cap >= 1 && cap >= limits.maxInFlight
  {
    if limits.maxInFlight == 0 then 1 else limits.maxInFlight
  }

  function RunningIn(handlers: seq<Handler>): nat {
    if handlers == [] then 0
    else RunningIn(handlers[..|handlers| - 1]) + (if handlers[|handlers| - 1].Running? then 1 else 0)
  }

  /** A frame is the body behind its four-byte length. */
  function FrameOf(body: seq<byte>): (frame: seq<byte>)
    requires |body| <= MAX_I32
    ensures |frame| == |body| + 4
  {
    PutI32(|body|) + body
  }

  // ---------------------------------------------------------------------------
  // Steps; one that is not enabled changes nothing

  function Do(s: Conn, step: Step): Conn {
    match step
    case ReadSize(declared) =>
      if !s.reader.ReadingSize? then s
      else if declared < 0 then s.(reader := ReaderDone(Err(NegativeFrameSize(declared))))
      else if declared > s.limits.maxFrame then s.(reader := ReaderDone(Err(FrameTooLarge(declared))))
      else s.(reader := ReadingBody(declared))
    case ReadBody => if s.reader.ReadingBody? then s.(reader := HoldingRequest(s.reader.size)) else s
    case ReadFails(verdict) =>
      if s.reader.ReadingSize? || (s.reader.ReadingBody? && verdict.Err?) then s.(reader := ReaderDone(verdict)) else s
    case Spawn =>
      if s.reader.HoldingRequest? && RunningIn(s.handlers) < Cap(s.limits)
      then s.(reader := Sending, handlers := s.handlers + [Running]) else s
    case Send => DoSend(s)
    case Finish(sequence, response) =>
      if sequence < |s.handlers| && s.handlers[sequence].Running?
      then s.(handlers := s.handlers[sequence := Done(response)]) else s
    case Panic(sequence) =>
      if sequence < |s.handlers| && s.handlers[sequence].Running?
      then s.(handlers := s.handlers[sequence := Panicked]) else s
    case Receive => DoReceive(s)
    case Join => DoJoin(s)
    case WriteSome(n) => DoWrite(s, n)
    case WriteFails(end) => if s.writer.Writing? then s.(writer := WriterDone(Err(end)), channel := []) else s
    case FlushFails => if Flushing(s) then s.(writer := WriterDone(Err(Io)), channel := []) else s
    case AbortReader =>
      if s.writer.WriterDone? && s.writer.outcome != Ok(Drained) && !s.reader.ReaderDone?
      then s.(reader := ReaderAborted) else s
  }

  /** The writer flushes before it closes on a handler's word, and once it has drained. */
  predicate Flushing(s: Conn) {
    || (s.writer.Joining? && s.writer.sequence < |s.handlers| && s.handlers[s.writer.sequence] == Done(Close))
    || (s.writer.Receiving? && s.channel == [] && s.reader.ReaderDone?)
  }

  /** The send waits for a slot, and fails once the writer is gone. */
  function DoSend(s: Conn): Conn {
    if !s.reader.Sending? then s
    else if s.writer.WriterDone? then s.(reader := ReaderDone(Ok(())))
    else if |s.channel| < Cap(s.limits) && s.handlers != []
    then s.(reader := ReadingSize, channel := s.channel + [|s.handlers| - 1])
    else s
  }

  /** The reader's end closes the channel, which is the writer's signal to finish. */
  function DoReceive(s: Conn): Conn {
    if !s.writer.Receiving? then s
    else if s.channel != [] then s.(writer := Joining(s.channel[0]), channel := s.channel[1..])
    else if s.reader.ReaderDone? then s.(writer := WriterDone(Ok(Drained)))
    else s
  }

  function DoJoin(s: Conn): Conn {
    if !s.writer.Joining? || s.writer.sequence >= |s.handlers| then s
    else match s.handlers[s.writer.sequence]
      case Running => s
      case Panicked => s.(writer := WriterDone(Err(HandlerPanicked)), channel := [])
      case Done(Silent) => s.(writer := Receiving, answered := s.answered + 1)
      case Done(Close) => s.(writer := WriterDone(Ok(HandlerClosed)), channel := [])
      case Done(Reply(body)) =>
        if |body| > MAX_I32 then s.(writer := WriterDone(Err(Io)), channel := [])
        else s.(writer := Writing(FrameOf(body), 0))
  }

  function DoWrite(s: Conn, n: nat): Conn {
    if !s.writer.Writing? || s.writer.sent + n > |s.writer.frame| then s
    else
      var sent := s.writer.sent + n;
      var wire := s.wire + s.writer.frame[s.writer.sent..sent];
      if sent < |s.writer.frame| then s.(writer := s.writer.(sent := sent), wire := wire)
      else s.(writer := Receiving, wire := wire, answered := s.answered + 1)
  }

  function Run(s: Conn, steps: seq<Step>): Conn {
    if steps == [] then s else Do(Run(s, steps[..|steps| - 1]), steps[|steps| - 1])
  }

  function Accepted(limits: Limits): Conn {
    Conn(limits, ReadingSize, [], [], Receiving, 0, [])
  }

  // ---------------------------------------------------------------------------
  // What the peer should see

  /** Whether a request is settled: replied to, or deliberately not. */
  predicate Settled(h: Handler) {
    h.Done? && (h.response.Silent? || (h.response.Reply? && |h.response.body| <= MAX_I32))
  }

  /** The replies in request order, Silent ones skipped. */
  function Transcript(handlers: seq<Handler>): seq<byte>
    requires forall h | h in handlers :: Settled(h)
  {
    if handlers == [] then []
    else
      var last := handlers[|handlers| - 1];
      assert Settled(last);
      Transcript(handlers[..|handlers| - 1]) + (if last.response.Reply? then FrameOf(last.response.body) else [])
  }

  // ---------------------------------------------------------------------------
  // What every step keeps

  ghost predicate AllSettled(s: Conn) {
    s.answered <= |s.handlers| && forall i | 0 <= i < s.answered :: Settled(s.handlers[i])
  }

  ghost predicate SettledSoFar(s: Conn)
    requires AllSettled(s)
  {
    forall h | h in s.handlers[..s.answered] :: Settled(h)
  }

  /** What stands on the wire past the settled replies. */
  ghost predicate WireIs(s: Conn)
    requires AllSettled(s)
  {
    match s.writer
    case Receiving => s.wire == Transcript(s.handlers[..s.answered])
    case Joining(n) => s.wire == Transcript(s.handlers[..s.answered]) && n == s.answered < |s.handlers|
    case Writing(frame, sent) =>
      && s.answered < |s.handlers| && Settled(s.handlers[s.answered]) && s.handlers[s.answered].response.Reply?
      && frame == FrameOf(s.handlers[s.answered].response.body)
      && sent < |frame|
      && s.wire == Transcript(s.handlers[..s.answered]) + frame[..sent]
    case WriterDone(Ok(Drained)) => s.wire == Transcript(s.handlers[..s.answered]) && s.answered == |s.handlers| && s.reader.ReaderDone?
    case WriterDone(Ok(HandlerClosed)) =>
      && s.wire == Transcript(s.handlers[..s.answered])
      && s.answered < |s.handlers| && s.handlers[s.answered] == Done(Close)
    case WriterDone(Err(_)) => s.wire == Transcript(s.handlers[..s.answered]) || BrokenOff(s)
  }

  /** A write that failed part of the way left part of one frame. */
  ghost predicate BrokenOff(s: Conn)
    requires AllSettled(s)
  {
    && s.answered < |s.handlers| && Settled(s.handlers[s.answered]) && s.handlers[s.answered].response.Reply?
    && var frame := FrameOf(s.handlers[s.answered].response.body);
       exists sent | 0 <= sent < |frame| :: s.wire == Transcript(s.handlers[..s.answered]) + frame[..sent]
  }

  function Busy(w: Writer): nat {
    if w.Joining? || w.Writing? then 1 else 0
  }

  /** Every sequence number is with the writer, in the channel, or in the reader's hand, in order. */
  ghost predicate Numbered(s: Conn) {
    && |s.channel| <= Cap(s.limits)
    && (s.writer.WriterDone? ==> s.channel == [])
    && (!s.writer.WriterDone? ==>
          var first := s.answered + Busy(s.writer);
          && first + |s.channel| + (if s.reader.Sending? then 1 else 0) == |s.handlers|
          && (forall i | 0 <= i < |s.channel| :: s.channel[i] == first + i)
          && !s.reader.ReaderAborted?)
  }

  ghost predicate Bounded(s: Conn) {
    && RunningIn(s.handlers) <= Cap(s.limits)
    && |s.handlers| - s.answered <=
         Cap(s.limits) + 1 + (if s.reader.Sending? || s.reader.ReaderDone? || s.reader.ReaderAborted? then 1 else 0)
    && (s.reader.ReadingBody? || s.reader.HoldingRequest? ==> s.reader.size <= s.limits.maxFrame)
  }

  ghost predicate Inv(s: Conn) {
    AllSettled(s) && SettledSoFar(s) && WireIs(s) && Numbered(s) && Bounded(s)
  }

  lemma {:induction false} RunningOfUpdate(handlers: seq<Handler>, i: nat, h: Handler)
    requires i < |handlers| && handlers[i].Running? && !h.Running?
    ensures RunningIn(handlers[i := h]) == RunningIn(handlers) - 1
  {
    var n := |handlers| - 1;
    if i < n {
      RunningOfUpdate(handlers[..n], i, h);
      assert handlers[i := h][..n] == handlers[..n][i := h];
    } else {
      assert handlers[i := h][..n] == handlers[..n];
    }
  }

  /** A handler that was still running is past everything settled, so its end disturbs nothing. */
  lemma HandlerEnds(s: Conn, i: nat, h: Handler)
    requires Inv(s) && i < |s.handlers| && s.handlers[i].Running? && !h.Running?
    ensures Inv(s.(handlers := s.handlers[i := h]))
  {
    RunningOfUpdate(s.handlers, i, h);
    assert i >= s.answered;
    assert s.handlers[i := h][..s.answered] == s.handlers[..s.answered];
  }

  lemma OneMoreSettled(handlers: seq<Handler>, n: nat)
    requires n < |handlers| && (forall h | h in handlers[..n] :: Settled(h)) && Settled(handlers[n])
    ensures forall h | h in handlers[..n + 1] :: Settled(h)
    ensures Transcript(handlers[..n + 1]) ==
      Transcript(handlers[..n]) + (if handlers[n].response.Reply? then FrameOf(handlers[n].response.body) else [])
  {
    assert handlers[..n + 1] == handlers[..n] + [handlers[n]];
    assert handlers[..n + 1][..n] == handlers[..n];
  }

  lemma SpawnKeepsInv(s: Conn)
    requires Inv(s)
    ensures Inv(Do(s, Spawn))
  {
    hide RunningIn, WireIs, SettledSoFar;
    if s.reader.HoldingRequest? && RunningIn(s.handlers) < Cap(s.limits) {
      SpawnKeepsTheWire(s);
      OneMoreRunning(s.handlers);
    }
  }

  lemma OneMoreRunning(handlers: seq<Handler>)
    ensures RunningIn(handlers + [Running]) == RunningIn(handlers) + 1
  {
    assert (handlers + [Running])[..|handlers|] == handlers;
  }

  /** A handler past those answered changes nothing on the wire. */
  lemma SpawnKeepsTheWire(s: Conn)
    requires AllSettled(s) && SettledSoFar(s) && WireIs(s) && s.reader.HoldingRequest?
    ensures var s' := s.(reader := Sending, handlers := s.handlers + [Running]);
      AllSettled(s') && SettledSoFar(s') && WireIs(s')
  {
    hide Transcript, FrameOf, Settled;
    assert (s.handlers + [Running])[..s.answered] == s.handlers[..s.answered];
  }

  lemma JoinKeepsInv(s: Conn)
    requires Inv(s)
    ensures Inv(DoJoin(s))
  {
    hide FrameOf, RunningIn, Transcript;
    if s.writer.Joining? {
      var n := s.answered;
      if Settled(s.handlers[n]) {
        OneMoreSettled(s.handlers, n);
        if s.handlers[n].response.Silent? {
          assert Transcript(s.handlers[..n]) + [] == Transcript(s.handlers[..n]);
        } else {
          var frame := FrameOf(s.handlers[n].response.body);
          assert s.wire + frame[..0] == s.wire;
        }
      }
    }
  }

  lemma WriteKeepsInv(s: Conn, n: nat)
    requires Inv(s)
    ensures Inv(DoWrite(s, n))
  {
    hide FrameOf, RunningIn, Transcript;
    if s.writer.Writing? && s.writer.sent + n <= |s.writer.frame| {
      var frame, sent := s.writer.frame, s.writer.sent;
      OneMoreSettled(s.handlers, s.answered);
      Pieces(Transcript(s.handlers[..s.answered]), frame, sent, sent + n);
    }
  }

  lemma Pieces(before: seq<byte>, frame: seq<byte>, i: nat, j: nat)
    requires i <= j <= |frame|
    ensures before + frame[..i] + frame[i..j] == before + frame[..j]
    ensures frame[..|frame|] == frame
  {}

  lemma WriteFailKeepsInv(s: Conn, end: ConnectionEnd)
    requires Inv(s)
    ensures Inv(Do(s, WriteFails(end)))
  {
    if s.writer.Writing? {
      assert BrokenOff(s.(writer := WriterDone(Err(end)), channel := []));
    }
  }

  lemma ReadKeepsInv(s: Conn, step: Step)
    requires Inv(s) && (step.ReadSize? || step.ReadBody? || step.ReadFails? || step.AbortReader?)
    ensures Inv(Do(s, step))
  {
    hide Transcript, RunningIn, FrameOf, Settled;
  }

  lemma FlushFailKeepsInv(s: Conn)
    requires Inv(s)
    ensures Inv(Do(s, FlushFails))
  {
    hide Transcript, RunningIn, BrokenOff;
  }

  lemma SendKeepsInv(s: Conn)
    requires Inv(s)
    ensures Inv(DoSend(s))
  {
    hide Transcript, RunningIn;
  }

  lemma ReceiveKeepsInv(s: Conn)
    requires Inv(s)
    ensures Inv(DoReceive(s))
  {
    hide Transcript, RunningIn;
  }

  lemma StepKeepsInv(s: Conn, step: Step)
    requires Inv(s)
    ensures Inv(Do(s, step))
  {
    hide Inv;
    match step
    case ReadSize(_) => ReadKeepsInv(s, step);
    case ReadBody => ReadKeepsInv(s, step);
    case ReadFails(_) => ReadKeepsInv(s, step);
    case AbortReader => ReadKeepsInv(s, step);
    case FlushFails => FlushFailKeepsInv(s);
    case Spawn => SpawnKeepsInv(s);
    case Send => SendKeepsInv(s);
    case Finish(i, response) =>
      if i < |s.handlers| && s.handlers[i].Running? {
        HandlerEnds(s, i, Done(response));
      }
    case Panic(i) =>
      if i < |s.handlers| && s.handlers[i].Running? {
        HandlerEnds(s, i, Panicked);
      }
    case Receive => ReceiveKeepsInv(s);
    case Join => JoinKeepsInv(s);
    case WriteSome(n) => WriteKeepsInv(s, n);
    case WriteFails(end) => WriteFailKeepsInv(s, end);
  }

  lemma {:induction false} RunsKeepInv(limits: Limits, steps: seq<Step>)
    ensures Inv(Run(Accepted(limits), steps))
    decreases |steps|
  {
    if steps != [] {
      RunsKeepInv(limits, steps[..|steps| - 1]);
      hide Inv, Do;
      StepKeepsInv(Run(Accepted(limits), steps[..|steps| - 1]), steps[|steps| - 1]);
    }
  }

  // ---------------------------------------------------------------------------
  // Over every interleaving

  /**
   The complete frames on the wire are the replies of requests 0 to k, in request order with
   Silent ones skipped; what follows them is at most a proper part of the next reply.
   */
  lemma {:induction false} RepliesInOrder(limits: Limits, steps: seq<Step>)
    ensures var s := Run(Accepted(limits), steps);
      && s.answered <= |s.handlers| && (forall h | h in s.handlers[..s.answered] :: Settled(h))
      && var complete := Transcript(s.handlers[..s.answered]);
         || s.wire == complete
         || (&& s.answered < |s.handlers| && Settled(s.handlers[s.answered]) && s.handlers[s.answered].response.Reply?
             && complete <= s.wire < complete + FrameOf(s.handlers[s.answered].response.body))
  {
    hide Run;
    RunsKeepInv(limits, steps);
    var s := Run(Accepted(limits), steps);
    if s.writer.Writing? {
      ProperPart(Transcript(s.handlers[..s.answered]), s.writer.frame, s.writer.sent);
    } else if s.writer.WriterDone? && s.writer.outcome.Err? && BrokenOff(s) {
      var frame := FrameOf(s.handlers[s.answered].response.body);
      var sent :| 0 <= sent < |frame| && s.wire == Transcript(s.handlers[..s.answered]) + frame[..sent];
      ProperPart(Transcript(s.handlers[..s.answered]), frame, sent);
    }
  }

  lemma ProperPart(before: seq<byte>, frame: seq<byte>, sent: nat)
    requires sent < |frame|
    ensures before <= before + frame[..sent] < before + frame
  {}

  /** Nothing settled lies at or past the first Close, and once it is joined the wire is final. */
  lemma {:induction false} NothingAfterClose(limits: Limits, steps: seq<Step>, k: nat)
    requires k < |Run(Accepted(limits), steps).handlers| && Run(Accepted(limits), steps).handlers[k] == Done(Close)
    ensures Run(Accepted(limits), steps).answered <= k
  {
    hide Run;
    RunsKeepInv(limits, steps);
  }

  lemma StepAfterTheEnd(s: Conn, step: Step)
    requires s.writer.WriterDone?
    ensures Do(s, step).writer == s.writer && Do(s, step).wire == s.wire && Do(s, step).answered == s.answered
  {}

  /** Once the writer has ended, nothing reaches the wire however long the rest goes on. */
  lemma {:induction false} TheEndIsFinal(s: Conn, steps: seq<Step>, more: seq<Step>)
    requires Run(s, steps).writer.WriterDone?
    ensures Run(s, steps + more).writer == Run(s, steps).writer && Run(s, steps + more).wire == Run(s, steps).wire
    decreases |more|
  {
    hide Do;
    if more == [] {
      assert steps + more == steps;
    } else {
      var front := more[..|more| - 1];
      assert (steps + more)[..|steps + more| - 1] == steps + front;
      TheEndIsFinal(s, steps, front);
      StepAfterTheEnd(Run(s, steps + front), more[|more| - 1]);
    }
  }

  predicate EndsWell(w: Writer) {
    w.WriterDone? && w.outcome.Ok?
  }

  /** A flush can fail exactly where the writer would otherwise end well, and ends it with an I/O error. */
  lemma FlushGuardsTheEnd(s: Conn)
    requires !s.writer.WriterDone?
    ensures Do(s, FlushFails) ==
      if EndsWell(Do(s, Join).writer) || EndsWell(Do(s, Receive).writer)
      then s.(writer := WriterDone(Err(Io)), channel := []) else s
  {}

  /** A writer that ends early takes a reader that is still at work down with it; one that drained need not. */
  lemma {:induction false} EarlyEndStopsTheReader(limits: Limits, steps: seq<Step>)
    ensures var s := Run(Accepted(limits), steps);
      && (s.reader.ReaderAborted? ==> s.writer.WriterDone? && !(s.writer.outcome.Ok? && s.writer.outcome.value.Drained?))
      && (s.writer.WriterDone? && !s.reader.ReaderDone? ==> Do(s, AbortReader) == s.(reader := ReaderAborted))
      && (!s.writer.WriterDone? ==> Do(s, AbortReader) == s)
  {
    hide Run;
    RunsKeepInv(limits, steps);
  }

  /** The reader hands out sequence numbers in order, and the writer gets the one it expects. */
  lemma {:induction false} SequencesArriveInOrder(limits: Limits, steps: seq<Step>)
    ensures var s := Run(Accepted(limits), steps);
      s.writer.Joining? ==> s.writer.sequence == s.answered
  {
    hide Run;
    RunsKeepInv(limits, steps);
  }

  /** At most the cap of handlers run, and at most two requests more are held unanswered. */
  lemma {:induction false} HeldIsBounded(limits: Limits, steps: seq<Step>)
    ensures var s := Run(Accepted(limits), steps);
      var cap := if limits.maxInFlight == 0 then 1 else limits.maxInFlight;
      && RunningIn(s.handlers) <= cap
      && |s.handlers| + (if s.reader.HoldingRequest? then 1 else 0) - s.answered <= cap + 2
  {
    hide Run;
    RunsKeepInv(limits, steps);
    LimitsStay(limits, steps);
  }

  lemma {:induction false} LimitsStay(limits: Limits, steps: seq<Step>)
    ensures Run(Accepted(limits), steps).limits == limits
    decreases |steps|
  {
    if steps != [] {
      LimitsStay(limits, steps[..|steps| - 1]);
    }
  }

  /** A connection that drains has settled every request it read, in full. */
  lemma {:induction false} DrainedIsComplete(limits: Limits, steps: seq<Step>)
    requires Run(Accepted(limits), steps).writer == WriterDone(Ok(Drained))
    ensures var s := Run(Accepted(limits), steps);
      && s.reader.ReaderDone?
      && (forall h | h in s.handlers :: Settled(h))
      && s.wire == Transcript(s.handlers)
  {
    hide Run;
    RunsKeepInv(limits, steps);
    var s := Run(Accepted(limits), steps);
    assert s.handlers[..s.answered] == s.handlers;
  }

  // ---------------------------------------------------------------------------
  // The writer's loop

  /**
   `write_in_order` over handlers joined one after another, with no write failing: every settled
   reply goes out, and the first one that is not settled ends the loop and says how.
   */
  method WriteInOrder(joined: seq<Handler>)
    returns (wire: seq<byte>, answered: nat, outcome: Result<WriterEnd, ConnectionEnd>)
    requires forall h | h in joined :: !h.Running?
    ensures answered <= |joined| && forall h | h in joined[..answered] :: Settled(h)
    ensures wire == Transcript(joined[..answered])
    ensures answered == |joined| <==> outcome == Ok(Drained)
    ensures answered < |joined| ==> !Settled(joined[answered])
    ensures outcome == Ok(HandlerClosed) <==> answered < |joined| && joined[answered] == Done(Close)
    ensures outcome == Err(HandlerPanicked) <==> answered < |joined| && joined[answered].Panicked?
  {
    wire, answered := [], 0;
    while answered < |joined|
      invariant answered <= |joined| && forall h | h in joined[..answered] :: Settled(h)
      invariant wire == Transcript(joined[..answered])
    {
      var task := joined[answered];
      if task.Panicked? {
        return wire, answered, Err(HandlerPanicked);
      }
      assert task in joined;
      if task.response.Close? {
        return wire, answered, Ok(HandlerClosed);
      }
      if task.response.Reply? {
        if |task.response.body| > MAX_I32 {
          return wire, answered, Err(Io);
        }
        OneMoreSettled(joined, answered);
        wire := wire + FrameOf(task.response.body);
      } else {
        OneMoreSettled(joined, answered);
        assert wire + [] == wire;
      }
      answered := answered + 1;
    }
    outcome := Ok(Drained);
  }

  // ---------------------------------------------------------------------------
  // The verdict when both tasks have finished

  /** `select!` took the reader's arm: its error first, then the writer's. */
  function ReaderFirst(read: Result<(), ConnectionEnd>, wrote: Result<WriterEnd, ConnectionEnd>): Result<(), ConnectionEnd> {
    if read.Err? then read else match wrote case Ok(_) => Ok(()) case Err(e) => Err(e)
  }

  /** `select!` took the writer's arm: a drained writer defers to the reader. */
  function WriterFirst(read: Result<(), ConnectionEnd>, wrote: Result<WriterEnd, ConnectionEnd>): Result<(), ConnectionEnd> {
    match wrote
    case Ok(Drained) => read
    case Ok(HandlerClosed) => Ok(())
    case Err(e) => Err(e)
  }

  /** The arm taken does not matter exactly when the writer drained, the reader ended cleanly, or both say the same. */
  lemma ArmsAgree(read: Result<(), ConnectionEnd>, wrote: Result<WriterEnd, ConnectionEnd>)
    ensures ReaderFirst(read, wrote) == WriterFirst(read, wrote)
       <==> wrote == Ok(Drained) || read.Ok? || (wrote.Err? && wrote.error == read.error)
  {
    assert read.Ok? ==> read.value == ();
  }
}
