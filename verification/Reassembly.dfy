/** What a connection delivers for a stream of octets: the specification of both read loops. */
module Reassembly {
  import opened Bytes
  import opened Frames
  import opened Generator
  import opened Sequences

  datatype Event = OnData(data: bytes) | SendPong | CloseConnection

  /** The effect of one complete frame on the merge buffer, and the calls it makes (CWSServer.cpp:45-112). */
  function Deliver(f: Frame, merged: bytes): (r: (bytes, seq<Event>)) {
    if f.opcode == CONTINUE_FRAME then
      (merged + f.body, if f.fin then [OnData(merged + f.body)] else [])
    else if f.opcode == TEXT_FRAME || f.opcode == BIN_FRAME then
      if f.fin then (merged, [OnData(f.body)]) else (f.body, [])
    else if f.opcode == CLOSE_FRAME then (merged, [CloseConnection])
    else if f.opcode == PING_FRAME then (merged, [SendPong])
    else (merged, [])
  }

  lemma DeliverBound(f: Frame, merged: bytes)
    ensures |Deliver(f, merged).0| <= |merged| + |f.body|
  {
  }

  datatype Outcome = Outcome(events: seq<Event>, pending: bytes, merged: bytes, failed: bool)

  /** `events` first, then everything in `r`. */
  function After(events: seq<Event>, r: Outcome): Outcome {
    r.(events := events + r.events)
  }

  lemma AfterAfter(a: seq<Event>, b: seq<Event>, r: Outcome)
    ensures After(a, After(b, r)) == After(a + b, r)
    ensures After([], r) == r
  {
    assert a + (b + r.events) == (a + b) + r.events;
    assert [] + r.events == r.events;
  }

  /** Frame after frame off the front of `s`, until what is left is undecided or malformed. */
  function Drain(s: bytes, merged: bytes): (r: Outcome)
    decreases |s|
  {
    match ParseFrame(s)
    case NeedMore => Outcome([], s, merged, false)
    case Malformed => Outcome([], s, merged, true)
    case Whole(f, n) =>
      WholeFitsExactly(s);
      var (merged', events) := Deliver(f, merged);
      After(events, Drain(s[n..], merged'))
  }

  /** What a further read of `t` adds to an outcome. */
  function Continue(r: Outcome, t: bytes): Outcome {
    if r.failed then r else After(r.events, Feed(r.pending, r.merged, t))
  }

  /** One read of `data` on a connection with `pending` octets of an unfinished frame. */
  function Feed(pending: bytes, merged: bytes, data: bytes): Outcome {
    Drain(pending + data, merged)
  }

  /** A malformed frame ends in one call to close the connection. */
  function Closing(r: Outcome): seq<Event> {
    if r.failed then [CloseConnection] else []
  }

  /** The read ends with the connection closed: at a malformed frame, or at a close frame anywhere in it. */
  predicate Closes(r: Outcome) {
    r.failed || CloseConnection in r.events
  }

  /** A sequence of reads. All of a read is processed, but closing the connection stops reading. */
  function FeedAll(pending: bytes, merged: bytes, chunks: seq<bytes>): (r: Outcome)
    decreases |chunks|
  {
    if chunks == [] then Outcome([], pending, merged, false)
    else
      var first := Feed(pending, merged, chunks[0]);
      if Closes(first) then first
      else After(first.events, FeedAll(first.pending, first.merged, chunks[1..]))
  }

  /** What is left over is a strict prefix of one frame. */
  lemma {:induction false} LeftoverIsUndecided(s: bytes, merged: bytes)
    ensures |Drain(s, merged).pending| <= |s|
    ensures var r := Drain(s, merged);
            if r.failed then ParseFrame(r.pending).Malformed? else ParseFrame(r.pending).NeedMore?
    decreases |s|
  {
    if ParseFrame(s).Whole? {
      WholeFitsExactly(s);
      var f := ParseFrame(s).frame;
      LeftoverIsUndecided(s[ParseFrame(s).size..], Deliver(f, merged).0);
    }
  }

  lemma DrainEnds(s: bytes, merged: bytes)
    requires !ParseFrame(s).Whole?
    ensures Drain(s, merged) == Outcome([], s, merged, ParseFrame(s).Malformed?)
  {
  }

  lemma FeedNothing(pending: bytes, merged: bytes, events: seq<Event>)
    requires ParseFrame(pending).NeedMore?
    ensures After(events, Feed(pending, merged, [])) == Outcome(events, pending, merged, false)
  {
    assert pending + [] == pending && events + [] == events;
  }

  lemma DrainStep(s: bytes, merged: bytes, f: Frame, n: nat)
    requires ParseFrame(s) == Whole(f, n)
    ensures 0 < n <= |s|
    ensures Drain(s, merged) == After(Deliver(f, merged).1, Drain(s[n..], Deliver(f, merged).0))
  {
    WholeFitsExactly(s);
  }

  lemma ContinueAfter(events: seq<Event>, r: Outcome, t: bytes)
    requires !r.failed
    ensures Continue(After(events, r), t) == After(events, Continue(r, t))
  {
    AfterAfter(events, r.events, Feed(r.pending, r.merged, t));
  }

  /** Draining `s + t` is draining `s` and continuing with `t`. */
  lemma {:induction false} DrainAppend(s: bytes, t: bytes, merged: bytes)
    requires !Drain(s, merged).failed
    ensures Drain(s + t, merged) == Continue(Drain(s, merged), t)
    decreases |s|
  {
    hide ParseFrame, Drain, Deliver;
    var p := ParseFrame(s);
    if p.Whole? {
      DrainStep(s, merged, p.frame, p.size);
      VerdictIsStable(s, t);
      DrainStep(s + t, merged, p.frame, p.size);
      assert (s + t)[p.size..] == s[p.size..] + t;
      var (merged', events) := Deliver(p.frame, merged);
      DrainAppend(s[p.size..], t, merged');
      ContinueAfter(events, Drain(s[p.size..], merged'), t);
    } else {
      DrainEnds(s, merged);
      AfterAfter([], [], Drain(s + t, merged));
    }
  }

  function Extended(r: Outcome, t: bytes): Outcome {
    r.(pending := r.pending + t)
  }

  /** A malformed frame is found whether or not more octets follow. */
  lemma {:induction false} FailureIsStable(s: bytes, t: bytes, merged: bytes)
    requires Drain(s, merged).failed
    ensures Drain(s + t, merged) == Extended(Drain(s, merged), t)
    decreases |s|
  {
    hide ParseFrame, Drain, Deliver;
    var p := ParseFrame(s);
    if p.Whole? {
      VerdictIsStable(s, t);
      DrainStep(s, merged, p.frame, p.size);
      DrainStep(s + t, merged, p.frame, p.size);
      assert (s + t)[p.size..] == s[p.size..] + t;
      FailureIsStable(s[p.size..], t, Deliver(p.frame, merged).0);
    } else {
      DrainEnds(s, merged);
      VerdictIsStable(s, t);
      DrainEnds(s + t, merged);
    }
  }

  /** Chunk independence: reading `a` and then `b` has the outcome of reading `a + b` at once. */
  lemma ChunkIndependence(pending: bytes, merged: bytes, a: bytes, b: bytes)
    requires !Feed(pending, merged, a + b).failed
    ensures !Feed(pending, merged, a).failed
    ensures Continue(Feed(pending, merged, a), b) == Feed(pending, merged, a + b)
  {
    assert pending + a + b == pending + (a + b);
    if Drain(pending + a, merged).failed {
      FailureIsStable(pending + a, b, merged);
    } else {
      DrainAppend(pending + a, b, merged);
    }
  }

  /**
   * Hence for any number of reads, however the stream was cut: the calls are those of the whole stream in one read, up
   * to and including the read with the first close frame, and without a close frame everything is the same.
   */
  lemma {:induction false} CutsDoNotMatter(pending: bytes, merged: bytes, chunks: seq<bytes>)
    requires ParseFrame(pending).NeedMore? && !Feed(pending, merged, Concat(chunks)).failed
    ensures var r, whole := FeedAll(pending, merged, chunks), Feed(pending, merged, Concat(chunks));
            && !r.failed && r.events <= whole.events
            && (CloseConnection in whole.events ==> CloseConnection in r.events)
            && (CloseConnection !in whole.events ==> r == whole)
    decreases |chunks|
  {
    hide Drain, ParseFrame;
    if chunks == [] {
      FeedNothing(pending, merged, []);
      AfterAfter([], [], Feed(pending, merged, []));
    } else {
      ChunkIndependence(pending, merged, chunks[0], Concat(chunks[1..]));
      LeftoverIsUndecided(pending + chunks[0], merged);
      var first := Feed(pending, merged, chunks[0]);
      if CloseConnection !in first.events {
        CutsDoNotMatter(first.pending, first.merged, chunks[1..]);
      }
    }
  }

  /** Nothing is called behind a close frame. */
  predicate CloseIsLast(events: seq<Event>) {
    forall i :: 0 <= i < |events| - 1 ==> events[i] != CloseConnection
  }

  /** Every way to cut the stream into reads has the calls of the whole stream in one read. */
  ghost predicate CutsAgree(pending: bytes, merged: bytes, data: bytes) {
    forall chunks: seq<bytes> :: Concat(chunks) == data && (forall c :: c in chunks ==> c != []) ==>
      FeedAll(pending, merged, chunks).events == Feed(pending, merged, data).events
  }

  lemma DeliversOne(f: Frame, merged: bytes)
    ensures |Deliver(f, merged).1| <= 1
  {
  }

  /** Behind the frame that makes call `i` the stream can be cut. */
  lemma {:induction false} CutBehindCall(s: bytes, merged: bytes, i: nat) returns (n: nat)
    requires i < |Drain(s, merged).events|
    ensures 0 < n <= |s| && ParseFrame(s[..n]).Whole?
    ensures Drain(s[..n], merged).events == Drain(s, merged).events[..i + 1] && !Drain(s[..n], merged).failed
    decreases |s|
  {
    if !ParseFrame(s).Whole? { DrainEnds(s, merged); }
    var p := ParseFrame(s);
    var d := Deliver(p.frame, merged);
    DrainStep(s, merged, p.frame, p.size);
    DeliversOne(p.frame, merged);
    var more := Drain(s[p.size..], d.0);
    if i < |d.1| {
      n := p.size;
      FrameDecides(s, n);
      DrainStep(s[..n], merged, p.frame, n);
      NothingIsUndecided();
      assert s[..n][n..] == [];
      DrainEnds([], d.0);
      assert d.1 + [] == d.1 && (d.1 + more.events)[..i + 1] == d.1;
    } else {
      var n' := CutBehindCall(s[p.size..], d.0, i - |d.1|);
      n := p.size + n';
      FrameDecides(s, n);
      DrainStep(s[..n], merged, p.frame, p.size);
      assert s[..n][p.size..] == s[p.size..][..n'];
      assert d.1 + more.events[..i - |d.1| + 1] == (d.1 + more.events)[..i + 1];
    }
  }

  /** A cut right behind a close frame that something follows keeps that from being read. */
  lemma CloseCuts(pending: bytes, merged: bytes, data: bytes, i: nat)
    requires ParseFrame(pending).NeedMore? && i + 1 < |Feed(pending, merged, data).events|
    requires Feed(pending, merged, data).events[i] == CloseConnection
    ensures !CutsAgree(pending, merged, data)
  {
    hide Drain, ParseFrame;
    var s, events := pending + data, Feed(pending, merged, data).events;
    var n := CutBehindCall(s, merged, i);
    assert s[..|s|] == s;
    if n <= |pending| {
      assert s[..n] == pending[..n];
      UndecidedPrefix(pending, n);
    }
    var m := n - |pending|;
    var a, b := data[..m], data[m..];
    assert pending + a == s[..n] && a + b == data;
    var first := Feed(pending, merged, a);
    assert first.events[i] == CloseConnection;
    TwoPieces(a, b);
    assert FeedAll(pending, merged, [a, b]) == first;
  }

  lemma TwoPieces(a: bytes, b: bytes)
    ensures Concat([a, b]) == a + b
  {
    assert [a, b] == [a] + [b];
    ConcatJoin([a], [b]);
    ConcatOne(a);
    ConcatOne(b);
  }

  /** Cuts do not matter for the calls of a stream if and only if no call follows its first close frame. */
  lemma CutsAgreeIff(pending: bytes, merged: bytes, data: bytes)
    requires ParseFrame(pending).NeedMore? && !Feed(pending, merged, data).failed
    ensures CutsAgree(pending, merged, data) <==> CloseIsLast(Feed(pending, merged, data).events)
  {
    hide Drain, ParseFrame, Feed;
    var events := Feed(pending, merged, data).events;
    if CloseIsLast(events) {
      forall chunks: seq<bytes> | Concat(chunks) == data && forall c :: c in chunks ==> c != []
        ensures FeedAll(pending, merged, chunks).events == events
      {
        CutsDoNotMatter(pending, merged, chunks);
        WholePrefix(FeedAll(pending, merged, chunks).events, events);
      }
    } else {
      var i :| 0 <= i < |events| - 1 && events[i] == CloseConnection;
      CloseCuts(pending, merged, data, i);
    }
  }

  lemma WholePrefix(r: seq<Event>, events: seq<Event>)
    requires r <= events && CloseIsLast(events) && (CloseConnection in events ==> CloseConnection in r)
    requires CloseConnection !in events ==> r == events
    ensures r == events
  {
    if CloseConnection in events {
      var j :| 0 <= j < |r| && r[j] == CloseConnection;
      assert events[j] == CloseConnection;
    }
  }

  /** A text, a close frame, and another text: in one read both texts are delivered, in two reads only the first. */
  lemma ReadsStopAtClose()
    ensures var a, c, b := [129, 1, 65], [136, 0], [129, 1, 66];
            && Feed([], [], a + (c + b)).events == [OnData([65]), CloseConnection, OnData([66])]
            && FeedAll([], [], [a + c, b]).events == [OnData([65]), CloseConnection]
  {
    hide Drain, ParseFrame;
    var a: bytes, c: bytes, b: bytes := [129, 1, 65], [136, 0], [129, 1, 66];
    TextThenClose(b);
    TextThenClose([]);
    OneOctetText(66, []);
    NothingIsUndecided();
    DrainEnds([], []);
    assert b + [] == b && c + [] == c && [] + (a + (c + b)) == a + (c + b) && [] + (a + c) == a + c;
  }

  lemma TextThenClose(rest: bytes)
    ensures Drain([129, 1, 65] + ([136, 0] + rest), []).events == [OnData([65]), CloseConnection] + Drain(rest, []).events
  {
    hide Drain, ParseFrame;
    OneOctetText(65, [136, 0] + rest);
    EmptyClose(rest);
    var more := Drain(rest, []).events;
    assert [OnData([65])] + ([CloseConnection] + more) == [OnData([65]), CloseConnection] + more;
  }

  lemma OneOctetText(x: byte, rest: bytes)
    ensures Drain([129, 1, x] + rest, []) == After([OnData([x])], Drain(rest, []))
  {
    var s: bytes := [129, 1, x] + rest;
    assert s[2..3] == [x] && s[3..] == rest && Length7(1) == 1;
    assert ParseFrame(s) == Whole(Frame(true, 1, [x]), 3);
    DrainStep(s, [], Frame(true, 1, [x]), 3);
  }

  lemma EmptyClose(rest: bytes)
    ensures Drain([136, 0] + rest, []) == After([CloseConnection], Drain(rest, []))
  {
    var s: bytes := [136, 0] + rest;
    assert s[..2] == [136, 0] && s[2..] == rest;
    assert ParseFrame(s) == Whole(Frame(true, 8, [136, 0]), 2);
    DrainStep(s, [], Frame(true, 8, [136, 0]), 2);
  }

  /**
   * What a frame of each opcode does, from its octets on the wire: 0 goes on with a message, 1 and 2 begin one, 8 closes
   * the connection, 9 is answered by a pong, and the others are passed over.
   */
  lemma EveryOpcode(op: nat, fin: bool, p: bytes, rest: bytes, merged: bytes)
    requires op < 16 && 0 < |p| <= 125
    ensures var r := Drain([if fin then 128 + op else op, |p|] + p + rest, merged);
            && (op == 0 ==> r == After(if fin then [OnData(merged + p)] else [], Drain(rest, merged + p)))
            && (op == 1 || op == 2 ==> r == if fin then After([OnData(p)], Drain(rest, merged)) else After([], Drain(rest, p)))
            && (op == 8 ==> r == After([CloseConnection], Drain(rest, merged)))
            && (op == 9 ==> r == After([SendPong], Drain(rest, merged)))
            && (3 <= op <= 7 || 10 <= op ==> r == After([], Drain(rest, merged)))
  {
    hide Drain;
    var s: bytes := [if fin then 128 + op else op, |p|] + p + rest;
    assert s[2..2 + |p|] == p && s[2 + |p|..] == rest;
    assert ParseFrame(s) == Whole(Frame(fin, op, p), 2 + |p|);
    DrainStep(s, merged, Frame(fin, op, p), 2 + |p|);
  }

  // ----- messages -----

  datatype Message = Message(opcode: byte, payload: bytes)

  /** A non-empty text or binary message. */
  predicate Sendable(m: Message) {
    (m.opcode == TEXT_FRAME || m.opcode == BIN_FRAME) && m.payload != []
  }

  function Wire(msgs: seq<Message>): (r: bytes) {
    if msgs == [] then [] else MessageBytes(msgs[0].payload, msgs[0].opcode) + Wire(msgs[1..])
  }

  function Deliveries(msgs: seq<Message>): (r: seq<Event>)
    ensures |r| == |msgs| && forall i :: 0 <= i < |msgs| ==> r[i] == OnData(msgs[i].payload)
  {
    seq(|msgs|, i requires 0 <= i < |msgs| => OnData(msgs[i].payload))
  }

  lemma DrainFrame(p: bytes, op: byte, fin: bool, rest: bytes, merged: bytes)
    requires 0 < |p| <= DATA_FRAME_MAX_LEN && op < 16
    ensures var d := Deliver(Frame(fin, op, p), merged);
            Drain(EncodeFrame(p, op, fin, false) + rest, merged) == After(d.1, Drain(rest, d.0))
  {
    var e := EncodeFrame(p, op, fin, false);
    FrameRoundTrip(p, op, fin, false, rest);
    DrainStep(e + rest, merged, Frame(fin, op, p), |e|);
    assert (e + rest)[|e|..] == rest;
  }

  lemma {:induction false} DrainContinuation(p: bytes, rest: bytes, merged: bytes)
    requires p != []
    ensures Drain(ContinuationBytes(p) + rest, merged) == After([OnData(merged + p)], Drain(rest, merged + p))
    decreases |p|
  {
    if |p| <= DATA_FRAME_MAX_LEN {
      DrainFrame(p, CONTINUE_FRAME, true, rest, merged);
    } else {
      var head, tail := p[..DATA_FRAME_MAX_LEN], p[DATA_FRAME_MAX_LEN..];
      calc {
        Drain(ContinuationBytes(p) + rest, merged);
        { FirstFragment(p, CONTINUE_FRAME, rest, merged); }
        Drain(ContinuationBytes(tail) + rest, merged + head);
        { DrainContinuation(tail, rest, merged + head); }
        After([OnData(merged + head + tail)], Drain(rest, merged + head + tail));
        { assert merged + head + tail == merged + p; }
        After([OnData(merged + p)], Drain(rest, merged + p));
      }
    }
  }

  /** A first or middle fragment makes no call and leaves its octets in the merge buffer. */
  lemma FirstFragment(p: bytes, op: byte, rest: bytes, merged: bytes)
    requires |p| > DATA_FRAME_MAX_LEN && op <= BIN_FRAME
    ensures var head, tail := p[..DATA_FRAME_MAX_LEN], p[DATA_FRAME_MAX_LEN..];
            Drain((EncodeFrame(head, op, false, false) + ContinuationBytes(tail)) + rest, merged) ==
            Drain(ContinuationBytes(tail) + rest, if op == CONTINUE_FRAME then merged + head else head)
  {
    var head, tail := p[..DATA_FRAME_MAX_LEN], p[DATA_FRAME_MAX_LEN..];
    var e, more := EncodeFrame(head, op, false, false), ContinuationBytes(tail) + rest;
    assert (e + ContinuationBytes(tail)) + rest == e + more;
    DrainFrame(head, op, false, more, merged);
    AfterAfter([], [], Drain(more, if op == CONTINUE_FRAME then merged + head else head));
  }

  /** What the merge buffer holds after a message: a fragmented one stays there. */
  function MergedAfter(m: Message, merged: bytes): (r: bytes) {
    if |m.payload| <= DATA_FRAME_MAX_LEN then merged else m.payload
  }

  /** One message, in however many fragments, is one `onData` call with exactly its octets. */
  lemma DrainMessage(m: Message, rest: bytes, merged: bytes)
    requires Sendable(m)
    ensures Drain(MessageBytes(m.payload, m.opcode) + rest, merged) ==
            After([OnData(m.payload)], Drain(rest, MergedAfter(m, merged)))
  {
    var p := m.payload;
    if |p| <= DATA_FRAME_MAX_LEN {
      DrainFrame(p, m.opcode, true, rest, merged);
    } else {
      var head, tail := p[..DATA_FRAME_MAX_LEN], p[DATA_FRAME_MAX_LEN..];
      FirstFragment(p, m.opcode, rest, merged);
      DrainContinuation(tail, rest, head);
      assert head + tail == p;
    }
  }

  lemma {:induction false} DrainWire(msgs: seq<Message>, merged: bytes)
    requires forall m :: m in msgs ==> Sendable(m)
    ensures var r := Drain(Wire(msgs), merged);
            r.events == Deliveries(msgs) && r.pending == [] && !r.failed
    decreases |msgs|
  {
    hide Drain, ParseFrame, MessageBytes, MergedAfter;
    if msgs == [] {
      NothingIsUndecided();
      DrainEnds([], merged);
    } else {
      DrainMessage(msgs[0], Wire(msgs[1..]), merged);
      DrainWire(msgs[1..], MergedAfter(msgs[0], merged));
      assert Deliveries(msgs) == [OnData(msgs[0].payload)] + Deliveries(msgs[1..]);
    }
  }

  /**
   * End-to-end round trip: send any non-empty text and binary messages, cut the octets anywhere, and feed the pieces
   * one read at a time: `onData` is called once per message, in order, with identical octets, and nothing is left.
   */
  lemma EndToEnd(msgs: seq<Message>, chunks: seq<bytes>, merged: bytes)
    requires forall m :: m in msgs ==> Sendable(m)
    requires Concat(chunks) == Wire(msgs)
    ensures var r := FeedAll([], merged, chunks);
            r.events == Deliveries(msgs) && r.pending == [] && !r.failed
  {
    hide Drain, ParseFrame, Wire;
    DrainWire(msgs, merged);
    NothingIsUndecided();
    assert [] + Concat(chunks) == Wire(msgs);
    CutsDoNotMatter([], merged, chunks);
  }
}
