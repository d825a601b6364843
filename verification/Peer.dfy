/**
 The other end of a connection: what a peer reads off the wire, four bytes of length and then that
 many of body, and what a connection it is left alone with sends it.
 */
module Peer {
  import opened Bytes
  import opened Connection

  // ---------------------------------------------------------------------------
  // Reading frames

  /** The bodies read whole, and the bytes of a frame that is not all there. */
  datatype Reading = Reading(bodies: seq<seq<byte>>, rest: seq<byte>)

  /** Four bytes, most significant first. */
  function LengthAt(wire: seq<byte>): nat
    requires |wire| >= 4
  {
    var a: int, b: int, c: int, d: int := wire[0], wire[1], wire[2], wire[3];
    0x100_0000 * a + 0x1_0000 * b + 0x100 * c + d
  }

  function Reads(wire: seq<byte>): (r: Reading)
    ensures |r.rest| < 4 || |r.rest| - 4 < LengthAt(r.rest)
    decreases |wire|
  {
    if |wire| < 4 || |wire| - 4 < LengthAt(wire) then Reading([], wire)
    else
      var n := LengthAt(wire);
      var later := Reads(wire[4 + n..]);
      Reading([wire[4..4 + n]] + later.bodies, later.rest)
  }

  /** The bodies of the replies among these, in order. */
  function Bodies(handlers: seq<Handler>): seq<seq<byte>> {
    if handlers == [] then []
    else
      var h := handlers[0];
      (if h.Done? && h.response.Reply? then [h.response.body] else []) + Bodies(handlers[1..])
  }

  lemma {:induction false} LengthOfFour(s: seq<byte>)
    requires |s| == 4
    ensures ReadBe(s) == LengthAt(s)
  {
    var three, two, one := s[..3], s[..2], s[..1];
    assert three[..2] == two && two[..1] == one && one[..0] == [];
    assert ReadBe(one) == s[0];
    assert ReadBe(two) == 0x100 * ReadBe(one) + s[1];
    assert ReadBe(three) == 0x100 * ReadBe(two) + s[2];
  }

  /** A frame begins with its body's length as the peer will read it. */
  lemma FrameBegins(body: seq<byte>)
    requires |body| <= MAX_I32
    ensures var frame := FrameOf(body);
      |frame| == |body| + 4 && LengthAt(frame) == |body| && frame[4..] == body
  {
    Widths();
    var length := PutI32(|body|);
    ReadPutBe(|body|, 4);
    hide PutI32, ReadBe;
    assert GetI32(length) == |body|;
    LengthOfFour(length);
    var frame := FrameOf(body);
    assert frame[..4] == length && forall k | 0 <= k < 4 :: frame[k] == length[k];
  }

  /** A frame at the front of the wire is read as its body. */
  lemma ReadsAFrame(body: seq<byte>, more: seq<byte>)
    requires |body| <= MAX_I32
    ensures Reads(FrameOf(body) + more) == Reading([body] + Reads(more).bodies, Reads(more).rest)
  {
    FrameBegins(body);
    hide FrameOf;
    var frame := FrameOf(body);
    var wire := frame + more;
    assert forall k | 0 <= k < 4 :: wire[k] == frame[k];
    assert wire[4..4 + |body|] == frame[4..] && wire[4 + |body|..] == more;
  }

  /** Part of a frame is read as nothing yet. */
  lemma ReadsNothingYet(body: seq<byte>, sent: nat)
    requires |body| <= MAX_I32 && sent < |FrameOf(body)|
    ensures Reads(FrameOf(body)[..sent]) == Reading([], FrameOf(body)[..sent])
  {
    FrameBegins(body);
    hide FrameOf;
    var frame := FrameOf(body);
    if sent >= 4 {
      assert forall k | 0 <= k < 4 :: frame[..sent][k] == frame[k];
    }
  }

  /** The replies from the front, as the wire carries them. */
  function Frames(handlers: seq<Handler>): seq<byte>
    requires forall h | h in handlers :: Settled(h)
  {
    if handlers == [] then []
    else
      assert Settled(handlers[0]);
      (if handlers[0].response.Reply? then FrameOf(handlers[0].response.body) else []) + Frames(handlers[1..])
  }

  lemma {:induction false} FramesAppend(handlers: seq<Handler>, h: Handler)
    requires (forall h | h in handlers :: Settled(h)) && Settled(h)
    ensures Frames(handlers + [h]) == Frames(handlers) + if h.response.Reply? then FrameOf(h.response.body) else []
    decreases |handlers|
  {
    hide FrameOf;
    var all, last := handlers + [h], if h.response.Reply? then FrameOf(h.response.body) else [];
    if handlers == [] {
      assert all == [h] && all[1..] == [];
    } else {
      assert all[0] == handlers[0] && all[1..] == handlers[1..] + [h];
      FramesAppend(handlers[1..], h);
      assert Settled(handlers[0]);
      var first := if handlers[0].response.Reply? then FrameOf(handlers[0].response.body) else [];
      assert Frames(all) == first + Frames(all[1..]) && Frames(handlers) == first + Frames(handlers[1..]);
      hide Frames;
      Joins(first, Frames(handlers[1..]), last);
    }
  }

  lemma {:induction false} TranscriptIsFrames(handlers: seq<Handler>)
    requires forall h | h in handlers :: Settled(h)
    ensures Transcript(handlers) == Frames(handlers)
    decreases |handlers|
  {
    hide FrameOf, Settled, Frames;
    if handlers != [] {
      var n := |handlers| - 1;
      TranscriptIsFrames(handlers[..n]);
      FramesAppend(handlers[..n], handlers[n]);
      assert handlers == handlers[..n] + [handlers[n]];
    } else {
      NoFrames();
    }
  }

  lemma NoFrames()
    ensures Frames([]) == [] && Bodies([]) == []
  {}

  /** Whatever follows them, the replies are read back one by one. */
  lemma {:induction false} ReadsTheFrames(handlers: seq<Handler>, more: seq<byte>)
    requires forall h | h in handlers :: Settled(h)
    ensures Reads(Frames(handlers) + more) == Reading(Bodies(handlers) + Reads(more).bodies, Reads(more).rest)
    decreases |handlers|
  {
    hide FrameOf, Reads, Frames, Bodies;
    if handlers == [] {
      NoFrames();
      assert [] + more == more;
    } else {
      var h, rest := handlers[0], handlers[1..];
      assert Settled(h);
      ReadsTheFrames(rest, more);
      FramesUnfold(handlers, more);
      if h.response.Reply? {
        ReadsAFrame(h.response.body, Frames(rest) + more);
        assert [h.response.body] + (Bodies(rest) + Reads(more).bodies) == [h.response.body] + Bodies(rest) + Reads(more).bodies;
      }
    }
  }

  lemma FramesUnfold(handlers: seq<Handler>, more: seq<byte>)
    requires handlers != [] && forall h | h in handlers :: Settled(h)
    ensures Settled(handlers[0])
    ensures handlers[0].response.Reply? ==>
      && Frames(handlers) + more == FrameOf(handlers[0].response.body) + (Frames(handlers[1..]) + more)
      && Bodies(handlers) == [handlers[0].response.body] + Bodies(handlers[1..])
    ensures !handlers[0].response.Reply? ==>
      Frames(handlers) + more == Frames(handlers[1..]) + more && Bodies(handlers) == Bodies(handlers[1..])
  {
    hide FrameOf;
    assert Settled(handlers[0]);
    var frame := if handlers[0].response.Reply? then FrameOf(handlers[0].response.body) else [];
    assert Frames(handlers) == frame + Frames(handlers[1..]);
    hide Frames;
    Joins(frame, Frames(handlers[1..]), more);
  }

  lemma Joins(a: seq<byte>, b: seq<byte>, c: seq<byte>)
    ensures (a + b) + c == a + (b + c) && [] + b == b
  {}

  /** The transcript of any replies is read back as exactly those replies. */
  lemma PeerReadsTheReplies(handlers: seq<Handler>)
    requires forall h | h in handlers :: Settled(h)
    ensures Reads(Transcript(handlers)) == Reading(Bodies(handlers), [])
  {
    hide Frames, Transcript;
    TranscriptIsFrames(handlers);
    ReadsTheFrames(handlers, []);
    assert Frames(handlers) + [] == Frames(handlers);
  }

  /**
   In every interleaving the peer reads the replies of the requests settled so far, in request order,
   and at most an incomplete frame after them, the beginning of the next reply.
   */
  lemma {:induction false} PeerReadsInOrder(limits: Limits, steps: seq<Step>)
    ensures var s := Run(Accepted(limits), steps);
      && s.answered <= |s.handlers|
      && Reads(s.wire).bodies == Bodies(s.handlers[..s.answered])
      && (Reads(s.wire).rest != [] ==> s.answered < |s.handlers| && s.handlers[s.answered].Done? && s.handlers[s.answered].response.Reply?)
  {
    RepliesInOrder(limits, steps);
    hide Run, Reads, Transcript, FrameOf, Bodies;
    var s := Run(Accepted(limits), steps);
    var done := s.handlers[..s.answered];
    TranscriptIsFrames(done);
    var part := s.wire[|Transcript(done)|..];
    assert s.wire == Transcript(done) + part;
    ReadsTheFrames(done, part);
    NothingIsNothing();
    if part != [] {
      var frame := FrameOf(s.handlers[s.answered].response.body);
      assert (Transcript(done) + frame)[|Transcript(done)|..] == frame;
      assert part == frame[..|part|];
      ReadsNothingYet(s.handlers[s.answered].response.body, |part|);
    }
    assert Bodies(done) + [] == Bodies(done);
  }

  lemma NothingIsNothing()
    ensures Reads([]) == Reading([], [])
  {}

  // ---------------------------------------------------------------------------
  // A connection left alone

  /** Nothing is under way: everything read has been answered. */
  predicate Quiet(s: Conn) {
    && s.reader.ReadingSize? && s.writer.Receiving? && s.channel == []
    && s.answered == |s.handlers| && RunningIn(s.handlers) == 0
  }

  /** One request read, and its handler spawned and put in the writer's queue. */
  function TakenUp(s: Conn, size: i32): Conn {
    Do(Do(Do(Do(s, ReadSize(size)), ReadBody), Spawn), Send)
  }

  /** The handler done and its answer joined. */
  function Joined(s: Conn, size: i32, response: HandlerResponse): Conn {
    Do(Do(Do(TakenUp(s, size), Finish(|s.handlers|, response)), Receive), Join)
  }

  lemma RequestIsTakenUp(s: Conn, size: i32)
    requires Quiet(s) && 0 <= size <= s.limits.maxFrame
    ensures TakenUp(s, size) == s.(handlers := s.handlers + [Running], channel := [|s.handlers|])
  {
    hide RunningIn;
    var held := Do(Do(s, ReadSize(size)), ReadBody);
    assert held == s.(reader := HoldingRequest(size));
    var spawned := Do(held, Spawn);
    assert spawned == s.(reader := Sending, handlers := s.handlers + [Running]);
  }

  /** What the writer does with each answer: a reply is begun, silence is passed over, a Close ends it. */
  lemma AnswerIsJoined(s: Conn, size: i32, response: HandlerResponse)
    requires Quiet(s) && 0 <= size <= s.limits.maxFrame && (response.Reply? ==> |response.body| <= MAX_I32)
    ensures var after := s.(handlers := s.handlers + [Done(response)]);
      Joined(s, size, response) == match response
        case Reply(body) => after.(writer := Writing(FrameOf(body), 0))
        case Silent => after.(answered := s.answered + 1)
        case Close => after.(writer := WriterDone(Ok(HandlerClosed)))
  {
    hide FrameOf, RunningIn;
    RequestIsTakenUp(s, size);
    var n := |s.handlers|;
    var finished := Do(TakenUp(s, size), Finish(n, response));
    assert finished.handlers == s.handlers + [Done(response)];
    assert finished == s.(handlers := s.handlers + [Done(response)], channel := [n]);
    var received := Do(finished, Receive);
    assert received == s.(handlers := s.handlers + [Done(response)], writer := Joining(n));
  }

  /** A handler that panicked, or a reply too long to frame, ends the writer with its own error and nothing sent. */
  lemma BadAnswerEndsTheWriter(s: Conn, size: i32, body: seq<byte>)
    requires Quiet(s) && 0 <= size <= s.limits.maxFrame && |body| > MAX_I32
    ensures var panicked := Do(Do(Do(TakenUp(s, size), Panic(|s.handlers|)), Receive), Join);
      panicked == s.(handlers := s.handlers + [Panicked], writer := WriterDone(Err(HandlerPanicked)))
    ensures Joined(s, size, Reply(body))
      == s.(handlers := s.handlers + [Done(Reply(body))], writer := WriterDone(Err(Io)))
  {
    hide RunningIn;
    RequestIsTakenUp(s, size);
    var n := |s.handlers|;
    var taken := TakenUp(s, size);
    assert Do(taken, Panic(n)) == s.(handlers := s.handlers + [Panicked], channel := [n]);
    assert Do(Do(taken, Panic(n)), Receive) == s.(handlers := s.handlers + [Panicked], writer := Joining(n));
    assert Do(taken, Finish(n, Reply(body))) == s.(handlers := s.handlers + [Done(Reply(body))], channel := [n]);
    assert Do(Do(taken, Finish(n, Reply(body))), Receive)
        == s.(handlers := s.handlers + [Done(Reply(body))], writer := Joining(n));
  }

  /** One request from end to end; a settled answer leaves the connection as quiet as it was. */
  function Exchange(s: Conn, size: i32, response: HandlerResponse): Conn {
    var joined := Joined(s, size, response);
    if response.Reply? then Do(joined, WriteSome(|response.body| + 4)) else joined
  }

  lemma ExchangeSettles(s: Conn, size: i32, response: HandlerResponse)
    requires Quiet(s) && 0 <= size <= s.limits.maxFrame && Settled(Done(response))
    ensures var s' := Exchange(s, size, response);
      && Quiet(s') && s'.limits == s.limits && s'.handlers == s.handlers + [Done(response)]
      && s'.wire == s.wire + if response.Reply? then FrameOf(response.body) else []
  {
    hide RunningIn;
    AnswerIsJoined(s, size, response);
    NobodyRuns(s.handlers, Done(response));
    hide Joined;
    if response.Reply? {
      var frame := FrameOf(response.body);
      assert frame[0..|frame|] == frame;
    }
  }

  lemma NobodyRuns(handlers: seq<Handler>, h: Handler)
    requires RunningIn(handlers) == 0 && !h.Running?
    ensures RunningIn(handlers + [h]) == 0
  {
    assert (handlers + [h])[..|handlers|] == handlers;
  }

  /** One exchange after another. */
  function Session(s: Conn, size: i32, responses: seq<HandlerResponse>): Conn {
    if responses == [] then s
    else Exchange(Session(s, size, responses[..|responses| - 1]), size, responses[|responses| - 1])
  }

  function Handled(responses: seq<HandlerResponse>): (handlers: seq<Handler>)
    ensures |handlers| == |responses| && forall i | 0 <= i < |handlers| :: handlers[i] == Done(responses[i])
  {
    seq(|responses|, i requires 0 <= i < |responses| => Done(responses[i]))
  }

  lemma {:induction false} SessionIsQuiet(limits: Limits, size: i32, responses: seq<HandlerResponse>)
    requires 0 <= size <= limits.maxFrame && forall h | h in Handled(responses) :: Settled(h)
    ensures var s := Session(Accepted(limits), size, responses);
      Quiet(s) && s.limits == limits && s.handlers == Handled(responses) && s.wire == Transcript(Handled(responses))
    decreases |responses|
  {
    hide Exchange, Settled, FrameOf;
    if responses != [] {
      var n := |responses| - 1;
      var front := responses[..n];
      assert Handled(responses)[n] == Done(responses[n]) && Handled(responses)[..n] == Handled(front);
      SessionIsQuiet(limits, size, front);
      ExchangeSettles(Session(Accepted(limits), size, front), size, responses[n]);
      assert Handled(responses) == Handled(front) + [Done(responses[n])];
    } else {
      assert Handled(responses) == [];
    }
  }

  /**
   Whatever its handlers answer, a connection can serve them all: the peer reads exactly their replies
   with nothing left over, and once it hangs up the writer drains.
   */
  lemma {:induction false} EverythingCanBeServed(limits: Limits, size: i32, responses: seq<HandlerResponse>)
    requires 0 <= size <= limits.maxFrame && forall h | h in Handled(responses) :: Settled(h)
    ensures var s := Session(Accepted(limits), size, responses);
      && Reads(s.wire) == Reading(Bodies(Handled(responses)), [])
      && Do(Do(s, ReadFails(Ok(()))), Receive) == s.(reader := ReaderDone(Ok(())), writer := WriterDone(Ok(Drained)))
  {
    hide Reads, Bodies;
    SessionIsQuiet(limits, size, responses);
    PeerReadsTheReplies(Handled(responses));
  }
}
