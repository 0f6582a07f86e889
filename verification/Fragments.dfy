/**
 * Messages as any peer may send them (RFC 6455 sections 5.3 to 5.5): cut into fragments anywhere, every frame masked
 * with a key of its own or not at all, and control frames between the fragments. A close frame comes behind the last
 * message, since it closes the connection.
 */
module Fragments {
  import opened Bytes
  import opened Frames
  import opened Generator
  import opened Reassembly
  import opened Sequences

  datatype WireFrame = WireFrame(fin: bool, opcode: byte, key: MaskKey, payload: bytes)

  /** A frame with a payload that the length field can hold. */
  predicate Sound(f: WireFrame) {
    f.opcode < 16 && 0 < |f.payload| < 0x1_0000_0000
  }

  function Octets(f: WireFrame): (r: bytes) {
    EncodeWith(f.payload, f.opcode, f.fin, f.key)
  }

  function Stream(fs: seq<WireFrame>): (r: bytes) {
    if fs == [] then [] else Octets(fs[0]) + Stream(fs[1..])
  }

  predicate IsControl(f: WireFrame) {
    Sound(f) && f.opcode >= CLOSE_FRAME
  }

  /** A control frame behind which the connection stays open. */
  predicate StaysOpen(f: WireFrame) {
    IsControl(f) && f.opcode != CLOSE_FRAME
  }

  /** The calls that control frames make. */
  function Replies(controls: seq<WireFrame>): (r: seq<Event>) {
    if controls == [] then [] else Reply(controls[0].opcode) + Replies(controls[1..])
  }

  function Reply(opcode: byte): seq<Event> {
    if opcode == CLOSE_FRAME then [CloseConnection] else if opcode == PING_FRAME then [SendPong] else []
  }

  /** One fragment, and the control frames sent before it. */
  datatype Piece = Piece(controls: seq<WireFrame>, key: MaskKey, payload: bytes)

  predicate SoundPiece(p: Piece) {
    0 < |p.payload| < 0x1_0000_0000 && forall f :: f in p.controls ==> StaysOpen(f)
  }

  /** The frames of a message whose first fragment has the given opcode; FIN is on the last one only. */
  function FramesFrom(opcode: byte, pieces: seq<Piece>): (r: seq<WireFrame>) {
    if pieces == [] then []
    else
      pieces[0].controls + [WireFrame(|pieces| == 1, opcode, pieces[0].key, pieces[0].payload)]
      + FramesFrom(CONTINUE_FRAME, pieces[1..])
  }

  function Joined(pieces: seq<Piece>): bytes {
    if pieces == [] then [] else pieces[0].payload + Joined(pieces[1..])
  }

  function Signals(pieces: seq<Piece>): seq<WireFrame> {
    if pieces == [] then [] else pieces[0].controls + Signals(pieces[1..])
  }

  datatype Fragmented = Fragmented(opcode: byte, pieces: seq<Piece>)

  predicate SoundMessage(m: Fragmented) {
    (m.opcode == TEXT_FRAME || m.opcode == BIN_FRAME) && m.pieces != [] && forall p :: p in m.pieces ==> SoundPiece(p)
  }

  function FramesOfAll(msgs: seq<Fragmented>): (r: seq<WireFrame>) {
    if msgs == [] then [] else FramesFrom(msgs[0].opcode, msgs[0].pieces) + FramesOfAll(msgs[1..])
  }

  /** All calls, in order: what the control frames of a message ask for, and then the message. */
  function Trace(msgs: seq<Fragmented>): seq<Event> {
    if msgs == [] then []
    else Replies(Signals(msgs[0].pieces)) + [OnData(Joined(msgs[0].pieces))] + Trace(msgs[1..])
  }

  /** The calls of `onData` among the events. */
  function DataCalls(events: seq<Event>): seq<Event> {
    if events == [] then [] else (if events[0].OnData? then [events[0]] else []) + DataCalls(events[1..])
  }

  function Calls(msgs: seq<Fragmented>): (r: seq<Event>)
    ensures |r| == |msgs| && forall i :: 0 <= i < |msgs| ==> r[i] == OnData(Joined(msgs[i].pieces))
  {
    seq(|msgs|, i requires 0 <= i < |msgs| => OnData(Joined(msgs[i].pieces)))
  }

  lemma {:induction false} DataCallsJoin(a: seq<Event>, b: seq<Event>)
    ensures DataCalls(a + b) == DataCalls(a) + DataCalls(b)
  {
    if a == [] {
      assert a + b == b;
    } else {
      assert (a + b)[1..] == a[1..] + b;
      DataCallsJoin(a[1..], b);
      Associate(if a[0].OnData? then [a[0]] else [], DataCalls(a[1..]), DataCalls(b));
    }
  }

  lemma {:induction false} StreamJoin(a: seq<WireFrame>, b: seq<WireFrame>)
    ensures Stream(a + b) == Stream(a) + Stream(b)
  {
    hide Octets;
    if a == [] {
      assert a + b == b && [] + Stream(b) == Stream(b);
    } else {
      assert (a + b)[1..] == a[1..] + b;
      StreamJoin(a[1..], b);
      Associate(Octets(a[0]), Stream(a[1..]), Stream(b));
    }
  }

  lemma StreamFirst(f: WireFrame, fs: seq<WireFrame>, rest: bytes)
    ensures Stream([f] + fs) + rest == Octets(f) + (Stream(fs) + rest)
  {
    assert ([f] + fs)[1..] == fs;
    Associate(Octets(f), Stream(fs), rest);
  }

  lemma StreamSplit(a: seq<WireFrame>, b: seq<WireFrame>, rest: bytes)
    ensures Stream(a + b) + rest == Stream(a) + (Stream(b) + rest)
  {
    StreamJoin(a, b);
    Associate(Stream(a), Stream(b), rest);
  }

  /** `r` makes the given calls, and then goes on as `next` does. */
  ghost predicate Yields(r: Outcome, made: seq<Event>, next: Outcome) {
    r == After(made, next)
  }

  lemma YieldsThen(r: Outcome, made: seq<Event>, s: Outcome, more: seq<Event>, t: Outcome)
    requires Yields(r, made, s) && Yields(s, more, t)
    ensures Yields(r, made + more, t)
  {
    AfterAfter(made, more, t);
  }

  /** One whole frame does to the merge buffer what the switch does, and its calls are made. */
  lemma FrameDrains(f: WireFrame, rest: bytes, merged: bytes)
    requires Sound(f)
    ensures var d := Deliver(Frame(f.fin, f.opcode, f.payload), merged);
            Yields(Drain(Octets(f) + rest, merged), d.1, Drain(rest, d.0))
  {
    hide EncodeWith, Deliver, Drain;
    var e, frame := Octets(f), Frame(f.fin, f.opcode, f.payload);
    KeyedRoundTrip(f.payload, f.opcode, f.fin, f.key, rest);
    DrainStep(e + rest, merged, frame, |e|);
    assert (e + rest)[|e|..] == rest;
  }

  lemma ControlFrame(f: Frame, merged: bytes)
    requires f.opcode >= CLOSE_FRAME
    ensures Deliver(f, merged) == (merged, Reply(f.opcode))
  {
  }

  lemma {:induction false} ControlsDrain(controls: seq<WireFrame>, rest: bytes, merged: bytes)
    requires forall f :: f in controls ==> IsControl(f)
    ensures Yields(Drain(Stream(controls) + rest, merged), Replies(controls), Drain(rest, merged))
  {
    hide Drain, Octets, Deliver;
    if controls == [] {
      assert Stream(controls) + rest == rest;
      AfterAfter([], [], Drain(rest, merged));
    } else {
      var f, more := controls[0], Stream(controls[1..]) + rest;
      assert IsControl(f);
      assert [f] + controls[1..] == controls;
      StreamFirst(f, controls[1..], rest);
      FrameDrains(f, more, merged);
      ControlFrame(Frame(f.fin, f.opcode, f.payload), merged);
      hide Stream, Reply, IsControl, Yields;
      ControlsDrain(controls[1..], rest, merged);
      YieldsThen(Drain(Octets(f) + more, merged), Reply(f.opcode), Drain(more, merged), Replies(controls[1..]), Drain(rest, merged));
    }
  }

  /** The merge buffer behind a data frame, and the call it makes if it is the last one. */
  lemma DataFrame(fin: bool, opcode: byte, payload: bytes, merged: bytes)
    requires opcode <= BIN_FRAME
    ensures var d, base := Deliver(Frame(fin, opcode, payload), merged), if opcode == CONTINUE_FRAME then merged else [];
            && d.0 == (if fin && opcode != CONTINUE_FRAME then merged else base + payload)
            && d.1 == if fin then [OnData(base + payload)] else []
  {
    assert [] + payload == payload;
  }

  /** The control frames before a fragment and the fragment itself. */
  lemma FirstPiece(opcode: byte, pieces: seq<Piece>, rest: bytes, merged: bytes) returns (next: bytes)
    requires opcode <= BIN_FRAME && pieces != [] && SoundPiece(pieces[0])
    ensures var p, base, fin := pieces[0], if opcode == CONTINUE_FRAME then merged else [], |pieces| == 1;
            && next == (if fin && opcode != CONTINUE_FRAME then merged else base + p.payload)
            && Yields(Drain(Stream(FramesFrom(opcode, pieces)) + rest, merged),
                      Replies(p.controls) + if fin then [OnData(base + p.payload)] else [],
                      Drain(Stream(FramesFrom(CONTINUE_FRAME, pieces[1..])) + rest, next))
  {
    hide Drain, Octets, Deliver, Stream, Yields, Replies;
    var p, base := pieces[0], if opcode == CONTINUE_FRAME then merged else [];
    var f := WireFrame(|pieces| == 1, opcode, p.key, p.payload);
    var tail := FramesFrom(CONTINUE_FRAME, pieces[1..]);
    var more := Stream(tail) + rest;
    PieceStream(p, f, tail, rest);
    ControlsDrain(p.controls, Octets(f) + more, merged);
    FrameDrains(f, more, merged);
    DataFrame(f.fin, opcode, p.payload, merged);
    next := Deliver(Frame(f.fin, opcode, p.payload), merged).0;
    var first := if f.fin then [OnData(base + p.payload)] else [];
    YieldsThen(Drain(Stream(FramesFrom(opcode, pieces)) + rest, merged), Replies(p.controls),
               Drain(Octets(f) + more, merged), first, Drain(more, next));
  }

  lemma {:induction false} RepliesJoin(a: seq<WireFrame>, b: seq<WireFrame>)
    ensures Replies(a + b) == Replies(a) + Replies(b)
  {
    hide Reply;
    if a == [] {
      assert a + b == b && [] + Replies(b) == Replies(b);
    } else {
      assert (a + b)[1..] == a[1..] + b;
      RepliesJoin(a[1..], b);
      Associate(Reply(a[0].opcode), Replies(a[1..]), Replies(b));
    }
  }

  /** The calls of the first fragment and those of the others are those of the message. */
  lemma PieceCalls(pieces: seq<Piece>, call: seq<Event>)
    requires pieces != []
    ensures (Replies(pieces[0].controls) + []) + (Replies(Signals(pieces[1..])) + call) == Replies(Signals(pieces)) + call
    ensures |pieces| == 1 ==> Replies(pieces[0].controls) + call == Replies(Signals(pieces)) + call
  {
    hide Replies;
    RepliesJoin(pieces[0].controls, Signals(pieces[1..]));
    assert Replies(pieces[0].controls) + [] == Replies(pieces[0].controls);
    Associate(Replies(pieces[0].controls), Replies(Signals(pieces[1..])), call);
    if |pieces| == 1 {
      assert pieces[0].controls + [] == pieces[0].controls;
    }
  }

  /** The fragments from one on: their payloads are joined to what the merge buffer holds, and delivered once. */
  lemma {:induction false} PiecesDrain(opcode: byte, pieces: seq<Piece>, rest: bytes, merged: bytes) returns (merged': bytes)
    requires opcode <= BIN_FRAME && pieces != [] && forall p :: p in pieces ==> SoundPiece(p)
    ensures var base := if opcode == CONTINUE_FRAME then merged else [];
            Yields(Drain(Stream(FramesFrom(opcode, pieces)) + rest, merged),
                   Replies(Signals(pieces)) + [OnData(base + Joined(pieces))], Drain(rest, merged'))
    decreases |pieces|
  {
    hide Drain, Stream, Yields, FramesFrom, SoundPiece, Replies, Signals;
    var base := if opcode == CONTINUE_FRAME then merged else [];
    var next := FirstPiece(opcode, pieces, rest, merged);
    var call := [OnData(base + Joined(pieces))];
    PieceCalls(pieces, call);
    if |pieces| == 1 {
      LastPiece(pieces, rest);
      merged' := next;
    } else {
      merged' := PiecesDrain(CONTINUE_FRAME, pieces[1..], rest, next);
      Associate(base, pieces[0].payload, Joined(pieces[1..]));
      YieldsThen(Drain(Stream(FramesFrom(opcode, pieces)) + rest, merged), Replies(pieces[0].controls) + [],
                 Drain(Stream(FramesFrom(CONTINUE_FRAME, pieces[1..])) + rest, next), Replies(Signals(pieces[1..])) + call,
                 Drain(rest, merged'));
    }
  }

  lemma LastPiece(pieces: seq<Piece>, rest: bytes)
    requires |pieces| == 1
    ensures Stream(FramesFrom(CONTINUE_FRAME, pieces[1..])) + rest == rest && Joined(pieces) == pieces[0].payload
  {
    assert pieces[0].payload + [] == pieces[0].payload && [] + rest == rest;
  }

  lemma PieceStream(p: Piece, f: WireFrame, tail: seq<WireFrame>, rest: bytes)
    ensures Stream(p.controls + [f] + tail) + rest == Stream(p.controls) + (Octets(f) + (Stream(tail) + rest))
  {
    hide Stream, Octets;
    assert p.controls + [f] + tail == p.controls + ([f] + tail);
    StreamSplit(p.controls, [f] + tail, rest);
    StreamFirst(f, tail, rest);
  }

  lemma {:induction false} MessagesDrain(msgs: seq<Fragmented>, rest: bytes, merged: bytes) returns (merged': bytes)
    requires forall m :: m in msgs ==> SoundMessage(m)
    ensures Yields(Drain(Stream(FramesOfAll(msgs)) + rest, merged), Trace(msgs), Drain(rest, merged'))
  {
    hide Drain, FramesFrom, Joined, Replies, Signals;
    if msgs == [] {
      merged' := merged;
      assert Stream(FramesOfAll(msgs)) + rest == rest;
      AfterAfter([], [], Drain(rest, merged));
    } else {
      hide Stream, Yields;
      var m := msgs[0];
      assert SoundMessage(m);
      var front, back := FramesFrom(m.opcode, m.pieces), FramesOfAll(msgs[1..]);
      StreamSplit(front, back, rest);
      var more := Stream(back) + rest;
      var next := PiecesDrain(m.opcode, m.pieces, more, merged);
      merged' := MessagesDrain(msgs[1..], rest, next);
      assert [] + Joined(m.pieces) == Joined(m.pieces);
      YieldsThen(Drain(Stream(front) + more, merged), Replies(Signals(m.pieces)) + [OnData(Joined(m.pieces))],
                 Drain(more, next), Trace(msgs[1..]), Drain(rest, merged'));
    }
  }

  lemma {:induction false} RepliesOnly(controls: seq<WireFrame>)
    ensures forall e :: e in Replies(controls) ==> !e.OnData?
    ensures (forall f :: f in controls ==> f.opcode != CLOSE_FRAME) <==> CloseConnection !in Replies(controls)
  {
    if controls != [] {
      RepliesOnly(controls[1..]);
      assert forall f :: f in controls <==> f == controls[0] || f in controls[1..];
      assert forall e :: e in Replies(controls) <==> e in Reply(controls[0].opcode) || e in Replies(controls[1..]);
    }
  }

  lemma {:induction false} SignalsOf(pieces: seq<Piece>)
    requires forall p :: p in pieces ==> SoundPiece(p)
    ensures forall f :: f in Signals(pieces) ==> StaysOpen(f)
  {
    if pieces != [] {
      assert SoundPiece(pieces[0]);
      SignalsOf(pieces[1..]);
    }
    hide StaysOpen;
  }

  lemma {:induction false} NoData(events: seq<Event>)
    requires forall e :: e in events ==> !e.OnData?
    ensures DataCalls(events) == []
  {
    if events != [] {
      NoData(events[1..]);
    }
  }

  lemma FirstCall(msgs: seq<Fragmented>)
    requires msgs != []
    ensures Calls(msgs) == [OnData(Joined(msgs[0].pieces))] + Calls(msgs[1..])
  {
  }

  /** Among these calls those of `onData` are the messages, and none closes the connection. */
  lemma {:induction false} TraceCalls(msgs: seq<Fragmented>)
    requires forall m :: m in msgs ==> SoundMessage(m)
    ensures DataCalls(Trace(msgs)) == Calls(msgs) && CloseConnection !in Trace(msgs)
  {
    hide Joined, Replies, Signals, DataCalls;
    if msgs == [] {
      NoData([]);
    } else {
      var m := msgs[0];
      assert SoundMessage(m);
      var replies, call := Replies(Signals(m.pieces)), [OnData(Joined(m.pieces))];
      SignalsOf(m.pieces);
      RepliesOnly(Signals(m.pieces));
      NoData(replies);
      OneCall(Joined(m.pieces));
      DataCallsJoin(replies + call, Trace(msgs[1..]));
      DataCallsJoin(replies, call);
      TraceCalls(msgs[1..]);
      FirstCall(msgs);
      assert [] + call == call;
    }
    hide SoundMessage, StaysOpen;
  }

  lemma OneCall(data: bytes)
    ensures DataCalls([OnData(data)]) == [OnData(data)]
  {
    assert [OnData(data)][1..] == [];
  }

  /** Calls up to and including the close are all the calls of the messages, and some of those behind. */
  lemma UpToClose(r: seq<Event>, trace: seq<Event>, replies: seq<Event>)
    requires r <= trace + replies && CloseConnection !in trace && (forall e :: e in replies ==> !e.OnData?)
    requires (CloseConnection in trace + replies ==> CloseConnection in r)
    requires (CloseConnection !in trace + replies ==> r == trace + replies)
    ensures trace <= r && DataCalls(r) == DataCalls(trace)
  {
    hide DataCalls;
    var all := trace + replies;
    if CloseConnection in all {
      var j :| 0 <= j < |r| && r[j] == CloseConnection;
      assert all[j] == CloseConnection;
      assert j < |trace| ==> trace[j] == CloseConnection;
    }
    var k := |r| - |trace|;
    assert r == trace + replies[..k];
    DataCallsJoin(trace, replies[..k]);
    NoData(replies[..k]);
    assert DataCalls(trace) + [] == DataCalls(trace);
  }

  /**
   * Whoever sends the messages, however they are fragmented and masked, whatever control frames come between the
   * fragments and behind the last message, and wherever the octets are cut: one call of `onData` per message, in
   * order, with the message's octets. All calls are made in the order of the frames, up to and including the read in
   * which the connection is closed, and without a close frame nothing is left over.
   */
  lemma AnyFragmentation(msgs: seq<Fragmented>, controls: seq<WireFrame>, chunks: seq<bytes>, merged: bytes)
    requires (forall m :: m in msgs ==> SoundMessage(m)) && (forall f :: f in controls ==> IsControl(f))
    requires Concat(chunks) == Stream(FramesOfAll(msgs)) + Stream(controls)
    ensures var r := FeedAll([], merged, chunks);
            && !r.failed && DataCalls(r.events) == Calls(msgs)
            && Trace(msgs) <= r.events <= Trace(msgs) + Replies(controls)
            && (CloseConnection in r.events <==> exists f :: f in controls && f.opcode == CLOSE_FRAME)
            && ((forall f :: f in controls ==> f.opcode != CLOSE_FRAME) ==>
                  r.events == Trace(msgs) + Replies(controls) && r.pending == [])
  {
    hide Drain, DataCalls, Stream, Calls, FramesOfAll, Trace, Replies, ParseFrame, IsControl, SoundMessage;
    MessagesAndControls(msgs, controls, merged);
    NothingIsUndecided();
    assert [] + Concat(chunks) == Concat(chunks);
    CutsDoNotMatter([], merged, chunks);
    TraceCalls(msgs);
    RepliesOnly(controls);
    var r := FeedAll([], merged, chunks);
    UpToClose(r.events, Trace(msgs), Replies(controls));
  }

  /** The whole stream in one read. */
  lemma MessagesAndControls(msgs: seq<Fragmented>, controls: seq<WireFrame>, merged: bytes)
    requires (forall m :: m in msgs ==> SoundMessage(m)) && (forall f :: f in controls ==> IsControl(f))
    ensures var r := Drain(Stream(FramesOfAll(msgs)) + Stream(controls), merged);
            r.events == Trace(msgs) + Replies(controls) && r.pending == [] && !r.failed
  {
    hide Drain, Stream, FramesOfAll, Trace, Replies, ParseFrame;
    var tail := Stream(controls);
    var merged' := MessagesDrain(msgs, tail, merged);
    ControlsDrain(controls, [], merged');
    assert tail + [] == tail;
    NothingIsUndecided();
    DrainEnds([], merged');
    assert Replies(controls) + [] == Replies(controls);
  }
}
