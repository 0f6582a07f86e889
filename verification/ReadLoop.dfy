/** The read loops of src/ws/CWSServer.cpp and src/ws/CWSClient.cpp over one connection. */
module ReadLoops {
  import opened Bytes
  import opened MembufModule
  import opened Frames
  import opened Handles
  import opened Reassembly
  import opened ReadTurns
  import opened Fragments
  import opened Generator
  import opened Room
  import opened Sequences

  /** One peer: its handle, and the calls made on its behalf. */
  class Connection {
    const hd: Handle
    var events: seq<Event>

    ghost predicate Valid()
      reads this, hd, hd.protoBuf, hd.mergeBuf, hd.protoBuf.data
    {
      hd.Valid()
    }

    ghost function Merged(): bytes
      requires hd.mergeBuf.Valid()
      reads hd.mergeBuf, hd.mergeBuf.data
    {
      hd.mergeBuf.Contents()
    }

    /** Everything the methods below may write. */
    ghost function Parts(): set<object>
      reads hd.protoBuf, hd.mergeBuf
    {
      {this, hd, hd.protoBuf, hd.mergeBuf, hd.protoBuf.data, hd.mergeBuf.data}
    }

    constructor ()
      ensures Valid() && hd.Pending() == [] && Merged() == [] && events == []
      ensures fresh(Parts())
    {
      hd := new Handle();
      events := [];
    }

    /** The `switch` on the frame type (CWSServer.cpp:45-112, CWSClient.cpp:65-132). */
    method Dispatch(ghost f: Frame)
      requires Valid() && hd.parseState == PARSE_COMPLETE
      requires f == Frame(hd.isEof, hd.opcode, hd.protoBuf.Contents()) && f.opcode < 16
      requires hd.mergeBuf.size + hd.protoBuf.size <= MAX_SIZE
      modifies this`events, hd.mergeBuf, hd.mergeBuf.data
      ensures Valid() && (hd.mergeBuf.data == old(hd.mergeBuf.data) || fresh(hd.mergeBuf.data))
      ensures Merged() == Deliver(f, old(Merged())).0
      ensures events == old(events) + Deliver(f, old(Merged())).1
    {
      var body := hd.protoBuf.data[..hd.protoBuf.size];
      if hd.opcode == CONTINUE_FRAME {
        hd.mergeBuf.Append(body);
        if hd.isEof {
          events := events + [OnData(hd.mergeBuf.data[..hd.mergeBuf.size])];
        }
      } else if hd.opcode == TEXT_FRAME || hd.opcode == BIN_FRAME {
        if hd.isEof {
          events := events + [OnData(body)];
        } else {
          hd.mergeBuf.Clear(0);
          hd.mergeBuf.Append(body);
        }
      } else if hd.opcode == CLOSE_FRAME {
        events := events + [CloseConnection];
      } else if hd.opcode == PING_FRAME {
        events := events + [SendPong];
      }
    }

    /** Room for what is buffered, what is new, and what may be merged: 2^31 octets. */
    ghost predicate Fits(data: bytes)
      requires hd.protoBuf.Valid() && hd.mergeBuf.Valid()
      reads hd, hd.protoBuf, hd.mergeBuf, hd.protoBuf.data
    {
      hd.mergeBuf.size + |hd.Pending()| + |data| <= MAX_SIZE
    }

    /** The loop as it stands with `rest` of the read left. */
    ghost function Now(rest: bytes): (l: Loop)
      requires Valid()
      reads this, hd, hd.protoBuf, hd.mergeBuf, hd.protoBuf.data, hd.mergeBuf.data
      ensures Proper(l)
    {
      NothingPending();
      Loop(hd.Pending(), Merged(), events, rest)
    }

    /** One turn of either loop: parse, then act on a complete frame or close the connection on a malformed one. */
    method Turn(data: bytes)
      requires Valid() && data != [] && Fits(data)
      modifies Parts()
      ensures Valid() && fresh(Parts() - old(Parts())) && hd.readCount <= |data|
      ensures Now(data[hd.readCount..]) == OneTurn(old(Now(data))) && Fits(data[hd.readCount..])
      ensures hd.parseState == PARSE_INCOMPLETE ==> hd.readCount == |data|
      ensures hd.parseState == PARSE_COMPLETE <==> hd.Pending() == []
    {
      hide ParseFrame, Deliver;
      ghost var s, merged := hd.Pending() + data, Merged();
      NothingPending();
      TurnFits(hd.Pending(), merged, data);
      hd.TryParse(data);
      if hd.parseState == PARSE_COMPLETE {
        WholeFitsExactly(s);
        Dispatch(ParseFrame(s).frame);
      } else if hd.parseState == PARSE_FAILED {
        FailureStays(hd.Pending(), []);
        events := events + [CloseConnection];
      } else {
        assert events + [] == events;
      }
    }

    /** `on_read_websocket` of the server: leaves the loop as soon as a frame is incomplete. */
    method OnReadServer(data: bytes)
      requires Valid() && data != [] && Fits(data) && Settles(hd.Pending(), Merged(), data)
      modifies Parts()
      ensures Valid() && fresh(Parts() - old(Parts()))
      ensures exists k: nat :: Turns(old(Now(data)), k) == Now([])
      ensures hd.parseState == PARSE_COMPLETE <==> hd.Pending() == []
      ensures var r := Feed(old(hd.Pending()), old(Merged()), data);
              && hd.Pending() == r.pending && Merged() == r.merged && events == old(events) + (r.events + Closing(r))
              && (hd.parseState == PARSE_FAILED <==> r.failed)
    {
      hide Feed, Turns, OneTurn, Proper, ParseFrame, Closing, Settles;
      ghost var start, k := Now(data), 0;
      TurnsNone(start);
      var haveRead := 0;
      assert data[0..] == data;
      while true
        invariant Valid() && fresh(Parts() - old(Parts())) && haveRead < |data| && Fits(data[haveRead..])
        invariant Turns(start, k) == Now(data[haveRead..]) && Settles(hd.Pending(), Merged(), data[haveRead..])
        decreases |data| - haveRead
      {
        SettlesOn(Now(data[haveRead..]));
        TurnsNext(start, k);
        Turn(data[haveRead..]);
        k := k + 1;
        assert data[haveRead..][hd.readCount..] == data[haveRead + hd.readCount..];
        if hd.parseState == PARSE_INCOMPLETE {
          break;
        }
        haveRead := haveRead + hd.readCount;
        if !(haveRead < |data|) {
          break;
        }
      }
      TurnsOutcome(start, k);
      OutcomeFails(start.pending, start.merged, data);
      NothingPending();
    }

    /** `on_read_websocket` of the client: goes on until the count says that everything was read. */
    method OnReadClient(data: bytes)
      requires Valid() && data != [] && Fits(data) && Settles(hd.Pending(), Merged(), data)
      modifies Parts()
      ensures Valid() && fresh(Parts() - old(Parts()))
      ensures exists k: nat :: Turns(old(Now(data)), k) == Now([])
      ensures hd.parseState == PARSE_COMPLETE <==> hd.Pending() == []
      ensures var r := Feed(old(hd.Pending()), old(Merged()), data);
              && hd.Pending() == r.pending && Merged() == r.merged && events == old(events) + (r.events + Closing(r))
              && (hd.parseState == PARSE_FAILED <==> r.failed)
    {
      hide Feed, Turns, OneTurn, Proper, ParseFrame, Closing, Settles;
      ghost var start, k := Now(data), 0;
      TurnsNone(start);
      var haveRead := 0;
      assert data[0..] == data;
      while true
        invariant Valid() && fresh(Parts() - old(Parts())) && haveRead < |data| && Fits(data[haveRead..])
        invariant Turns(start, k) == Now(data[haveRead..]) && Settles(hd.Pending(), Merged(), data[haveRead..])
        decreases |data| - haveRead
      {
        SettlesOn(Now(data[haveRead..]));
        TurnsNext(start, k);
        Turn(data[haveRead..]);
        k := k + 1;
        assert data[haveRead..][hd.readCount..] == data[haveRead + hd.readCount..];
        haveRead := haveRead + hd.readCount;
        if !(haveRead < |data|) {
          break;
        }
      }
      TurnsOutcome(start, k);
      OutcomeFails(start.pending, start.merged, data);
      NothingPending();
    }

    /** `tw_close_client` has been called: `uv_close` stops reading. */
    predicate Closed()
      reads this
    {
      CloseConnection in events
    }

    /** A run of reads on one connection, each handed to the read loop of its end point until the connection is closed. */
    method Receive(chunks: seq<bytes>, server: bool)
      requires Valid() && !Closed() && (hd.parseState == PARSE_COMPLETE || hd.parseState == PARSE_INCOMPLETE)
      requires FitsAll(hd.Pending(), Merged(), chunks) && SettlesAll(hd.Pending(), Merged(), chunks)
      modifies Parts()
      ensures Valid() && fresh(Parts() - old(Parts()))
      ensures var r := FeedAll(old(hd.Pending()), old(Merged()), chunks);
              && hd.Pending() == r.pending && Merged() == r.merged && events == old(events) + (r.events + Closing(r))
      decreases |chunks|
    {
      hide Feed, ParseFrame, Settles;
      if chunks == [] {
        assert events + ([] + []) == events;
        return;
      }
      ghost var first := Feed(hd.Pending(), Merged(), chunks[0]);
      if server {
        OnReadServer(chunks[0]);
      } else {
        OnReadClient(chunks[0]);
      }
      if Closed() {
        return;
      }
      ghost var more := FeedAll(first.pending, first.merged, chunks[1..]);
      SameClosing(first.events, more);
      Regroup(old(events), first.events, more.events, Closing(more));
      assert first.events + Closing(first) == first.events;
      Receive(chunks[1..], server);
    }
  }

  /** Every read settles, up to the one that closes the connection. */
  ghost predicate SettlesAll(pending: bytes, merged: bytes, chunks: seq<bytes>)
    decreases |chunks|
  {
    chunks == [] ||
    (Settles(pending, merged, chunks[0]) &&
     var first := Feed(pending, merged, chunks[0]);
     (Closes(first) || SettlesAll(first.pending, first.merged, chunks[1..])))
  }

  lemma {:induction false} UnfailedSettles(pending: bytes, merged: bytes, chunks: seq<bytes>)
    requires !FeedAll(pending, merged, chunks).failed
    ensures SettlesAll(pending, merged, chunks)
    decreases |chunks|
  {
    if chunks != [] {
      var first := Feed(pending, merged, chunks[0]);
      if !Closes(first) {
        UnfailedSettles(first.pending, first.merged, chunks[1..]);
      }
    }
  }

  /**
   * End to end in the running code: a fresh connection hands over exactly the messages sent, in order. The stream may
   * be as long as it likes if the longest message, a frame and the longest read fit into a buffer together.
   */
  method ReceiveMessages(msgs: seq<Message>, chunks: seq<bytes>, server: bool) returns (calls: seq<Event>)
    requires (forall m :: m in msgs ==> Sendable(m)) && (forall c :: c in chunks ==> c != [])
    requires Concat(chunks) == Wire(msgs)
    requires |Wire(msgs)| <= MAX_SIZE || LongestPayload(msgs) + FRAME_MAX + LongestRead(chunks) <= MAX_SIZE
    ensures calls == Deliveries(msgs)
  {
    hide FeedAll, FitsAll, Wire, Deliveries;
    EndToEnd(msgs, chunks, []);
    MessagesFit(msgs, chunks);
    UnfailedSettles([], [], chunks);
    var conn := new Connection();
    conn.Receive(chunks, server);
    calls := conn.events;
    assert [] + (Deliveries(msgs) + []) == Deliveries(msgs);
  }

  /** The same for messages fragmented and masked in any way, with control frames in between and behind. */
  method ReceiveFragmented(msgs: seq<Fragmented>, controls: seq<WireFrame>, chunks: seq<bytes>, server: bool)
    returns (calls: seq<Event>)
    requires (forall m :: m in msgs ==> SoundMessage(m)) && (forall f :: f in controls ==> IsControl(f))
    requires Concat(chunks) == Stream(FramesOfAll(msgs)) + Stream(controls)
    requires |Concat(chunks)| <= MAX_SIZE && forall c :: c in chunks ==> c != []
    ensures DataCalls(calls) == Calls(msgs) && Trace(msgs) <= calls <= Trace(msgs) + Replies(controls)
    ensures CloseConnection in calls <==> exists f :: f in controls && f.opcode == CLOSE_FRAME
    ensures CloseConnection !in calls ==> calls == Trace(msgs) + Replies(controls)
  {
    hide FeedAll, FitsAll, Stream, Calls, DataCalls, Trace, Replies, FramesOfAll, SoundMessage, IsControl;
    AnyFragmentation(msgs, controls, chunks, []);
    UnfailedSettles([], [], chunks);
    ShortStreamFits([], [], chunks);
    var conn := new Connection();
    conn.Receive(chunks, server);
    calls := conn.events;
    ghost var r := FeedAll([], [], chunks);
    assert [] + (r.events + []) == r.events;
  }

  /** All messages, one after the other, into one buffer. */
  method SendMessages(msgs: seq<Message>) returns (buf: Membuf)
    requires |Wire(msgs)| <= MAX_SIZE
    ensures buf.Valid() && fresh(buf) && fresh(buf.data) && buf.Contents() == Wire(msgs)
  {
    buf := new Membuf(128);
    var i := 0;
    while i < |msgs|
      invariant i <= |msgs| && buf.Valid() && fresh(buf) && fresh(buf.data)
      invariant buf.Contents() + Wire(msgs[i..]) == Wire(msgs)
    {
      var m := msgs[i];
      assert msgs[i..][0] == m && msgs[i..][1..] == msgs[i + 1..];
      Associate(buf.Contents(), MessageBytes(m.payload, m.opcode), Wire(msgs[i + 1..]));
      hide Wire, MessageBytes;
      GenerateMessage(buf, m.payload, m.opcode);
      i := i + 1;
    }
  }

  /** Octets cut into reads of the given lengths; what is left over is one more read. */
  method CutInto(data: bytes, lengths: seq<nat>) returns (chunks: seq<bytes>)
    requires forall n :: n in lengths ==> n > 0
    ensures Concat(chunks) == data && forall c :: c in chunks ==> c != []
  {
    chunks := [];
    var rest, i := data, 0;
    while rest != []
      invariant i <= |lengths| && Concat(chunks) + rest == data && forall c :: c in chunks ==> c != []
      decreases |rest|
    {
      var n := if i < |lengths| && lengths[i] < |rest| then lengths[i] else |rest|;
      assert i < |lengths| ==> lengths[i] in lengths;
      ConcatJoin(chunks, [rest[..n]]);
      ConcatOne(rest[..n]);
      Associate(Concat(chunks), rest[..n], rest[n..]);
      assert rest[..n] + rest[n..] == rest;
      chunks := chunks + [rest[..n]];
      rest := rest[n..];
      if i < |lengths| { i := i + 1; }
    }
  }

  /** Generator, wire and read loop together: the calls are the messages, wherever the octets were cut. */
  method Transfer(msgs: seq<Message>, lengths: seq<nat>, server: bool) returns (calls: seq<Event>)
    requires (forall m :: m in msgs ==> Sendable(m)) && (forall n :: n in lengths ==> n > 0)
    requires |Wire(msgs)| <= MAX_SIZE
    ensures calls == Deliveries(msgs)
  {
    var buf := SendMessages(msgs);
    var chunks := CutInto(buf.data[..buf.size], lengths);
    calls := ReceiveMessages(msgs, chunks, server);
  }
}
