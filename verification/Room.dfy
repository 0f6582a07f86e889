/** When the buffers of a connection stay within 2^31 octets: conditions on what is sent and on the sizes of the reads. */
module Room {
  import opened Bytes
  import opened MembufModule
  import opened Frames
  import opened Generator
  import opened Handles
  import opened Reassembly
  import opened Sequences

  /** Every read, up to the one that closes the connection, is non-empty and leaves the buffers within 2^31 octets. */
  ghost predicate FitsAll(pending: bytes, merged: bytes, chunks: seq<bytes>)
    decreases |chunks|
  {
    chunks == [] ||
    (chunks[0] != [] && |merged| + |pending| + |chunks[0]| <= MAX_SIZE &&
     var first := Feed(pending, merged, chunks[0]);
     (Closes(first) || FitsAll(first.pending, first.merged, chunks[1..])))
  }

  lemma {:induction false} DrainShrinks(s: bytes, merged: bytes)
    ensures var r := Drain(s, merged); |r.pending| + |r.merged| <= |s| + |merged|
    decreases |s|
  {
    hide Deliver;
    if ParseFrame(s).Whole? {
      var p := ParseFrame(s);
      WholeFitsExactly(s);
      DrainStep(s, merged, p.frame, p.size);
      DeliverBound(p.frame, merged);
      DrainShrinks(s[p.size..], Deliver(p.frame, merged).0);
    } else {
      DrainEnds(s, merged);
    }
  }

  /** Short streams fit: whatever the octets are and however they are cut, 2^31 of them in all are not too many. */
  lemma {:induction false} ShortStreamFits(pending: bytes, merged: bytes, chunks: seq<bytes>)
    requires (forall c :: c in chunks ==> c != []) && |merged| + |pending| + |Concat(chunks)| <= MAX_SIZE
    ensures FitsAll(pending, merged, chunks)
    decreases |chunks|
  {
    if chunks != [] {
      hide Drain;
      assert chunks[0] in chunks && forall c :: c in chunks[1..] ==> c in chunks;
      var first := Feed(pending, merged, chunks[0]);
      DrainShrinks(pending + chunks[0], merged);
      ShortStreamFits(first.pending, first.merged, chunks[1..]);
    }
  }

  /** The longest frame that the generator writes for a fragment. */
  const FRAME_MAX: nat := DATA_FRAME_MAX_LEN + 14

  /** No frame of `s` is longer than the generator's, and the merge buffer never holds more than `most` octets. */
  ghost predicate Bounded(s: bytes, merged: bytes, most: nat)
    decreases |s|
  {
    |merged| <= most &&
    match ParseFrame(s)
    case Whole(f, n) => WholeFitsExactly(s); n <= FRAME_MAX && Bounded(s[n..], Deliver(f, merged).0, most)
    case _ => true
  }

  ghost predicate Clean(r: Outcome) {
    r.pending == [] && !r.failed
  }

  lemma BoundedStep(s: bytes, merged: bytes, most: nat, f: Frame, n: nat)
    requires ParseFrame(s) == Whole(f, n)
    ensures 0 < n <= |s|
    ensures Bounded(s, merged, most) <==> |merged| <= most && n <= FRAME_MAX && Bounded(s[n..], Deliver(f, merged).0, most)
  {
    WholeFitsExactly(s);
  }

  lemma {:induction false} BoundedPrefix(s: bytes, t: bytes, merged: bytes, most: nat)
    requires Bounded(s + t, merged, most) && Clean(Drain(s + t, merged)) && ParseFrame([]).NeedMore?
    ensures var r := Drain(s, merged);
            && Bounded(r.pending + t, r.merged, most) && Clean(Drain(r.pending + t, r.merged))
            && |r.pending| <= FRAME_MAX && |r.merged| <= most && !r.failed
    decreases |s|
  {
    hide Deliver, Drain, Bounded, ParseFrame;
    var p := ParseFrame(s);
    if p.Whole? {
      VerdictIsStable(s, t);
      BoundedStep(s + t, merged, most, p.frame, p.size);
      DrainStep(s + t, merged, p.frame, p.size);
      DrainStep(s, merged, p.frame, p.size);
      assert (s + t)[p.size..] == s[p.size..] + t;
      BoundedPrefix(s[p.size..], t, Deliver(p.frame, merged).0, most);
    } else {
      UndecidedFits(s, t, merged, most);
    }
  }

  lemma UndecidedFits(s: bytes, t: bytes, merged: bytes, most: nat)
    requires !ParseFrame(s).Whole? && Bounded(s + t, merged, most) && Clean(Drain(s + t, merged))
    ensures |s| <= FRAME_MAX && |merged| <= most && Drain(s, merged) == Outcome([], s, merged, false)
  {
    hide Deliver;
    DrainEnds(s, merged);
    if ParseFrame(s).Malformed? { VerdictIsStable(s, t); }
    if ParseFrame(s + t).Whole? {
      var p := ParseFrame(s + t);
      BoundedStep(s + t, merged, most, p.frame, p.size);
      assert (s + t)[..|s|] == s;
      FrameEndsPastPending(s + t, |s|);
    } else {
      DrainEnds(s + t, merged);
    }
  }

  lemma {:induction false} BoundedFits(pending: bytes, merged: bytes, chunks: seq<bytes>, most: nat, read: nat)
    requires Bounded(pending + Concat(chunks), merged, most) && Clean(Feed(pending, merged, Concat(chunks)))
    requires |pending| <= FRAME_MAX && (forall c :: c in chunks ==> 0 < |c| <= read) && most + FRAME_MAX + read <= MAX_SIZE
    ensures FitsAll(pending, merged, chunks)
    decreases |chunks|
  {
    if chunks != [] {
      assert |merged| <= most;
      hide Drain, ParseFrame, Bounded;
      NothingIsUndecided();
      var more := Concat(chunks[1..]);
      assert pending + (chunks[0] + more) == (pending + chunks[0]) + more;
      BoundedPrefix(pending + chunks[0], more, merged, most);
      var first := Feed(pending, merged, chunks[0]);
      BoundedFits(first.pending, first.merged, chunks[1..], most, read);
    }
  }

  lemma FrameBounded(p: bytes, op: byte, fin: bool, rest: bytes, merged: bytes, most: nat)
    requires 0 < |p| <= DATA_FRAME_MAX_LEN && op < 16 && |merged| <= most
    requires Bounded(rest, Deliver(Frame(fin, op, p), merged).0, most)
    ensures Bounded(EncodeFrame(p, op, fin, false) + rest, merged, most)
  {
    hide Bounded, Deliver, ParseFrame, EncodeWith;
    var e := EncodeFrame(p, op, fin, false);
    FrameRoundTrip(p, op, fin, false, rest);
    BoundedStep(e + rest, merged, most, Frame(fin, op, p), |e|);
    assert (e + rest)[|e|..] == rest;
  }

  lemma {:induction false} ContinuationBounded(p: bytes, rest: bytes, merged: bytes, most: nat)
    requires p != [] && |merged + p| <= most && Bounded(rest, merged + p, most)
    ensures Bounded(ContinuationBytes(p) + rest, merged, most)
    decreases |p|
  {
    hide EncodeFrame, Bounded;
    if |p| <= DATA_FRAME_MAX_LEN {
      FrameBounded(p, CONTINUE_FRAME, true, rest, merged, most);
    } else {
      var head, tail := p[..DATA_FRAME_MAX_LEN], p[DATA_FRAME_MAX_LEN..];
      assert (merged + head) + tail == merged + p;
      ContinuationBounded(tail, rest, merged + head, most);
      FrameBounded(head, CONTINUE_FRAME, false, ContinuationBytes(tail) + rest, merged, most);
      Associate(EncodeFrame(head, CONTINUE_FRAME, false, false), ContinuationBytes(tail), rest);
    }
  }

  lemma MessageBounded(m: Message, rest: bytes, merged: bytes, most: nat)
    requires Sendable(m) && |m.payload| <= most && |merged| <= most && Bounded(rest, MergedAfter(m, merged), most)
    ensures Bounded(MessageBytes(m.payload, m.opcode) + rest, merged, most)
  {
    hide EncodeFrame, Bounded;
    var p := m.payload;
    if |p| <= DATA_FRAME_MAX_LEN {
      FrameBounded(p, m.opcode, true, rest, merged, most);
    } else {
      var head, tail := p[..DATA_FRAME_MAX_LEN], p[DATA_FRAME_MAX_LEN..];
      assert head + tail == p;
      ContinuationBounded(tail, rest, head, most);
      FrameBounded(head, m.opcode, false, ContinuationBytes(tail) + rest, merged, most);
      Associate(EncodeFrame(head, m.opcode, false, false), ContinuationBytes(tail), rest);
    }
  }

  lemma {:induction false} WireBounded(msgs: seq<Message>, merged: bytes, most: nat)
    requires (forall m :: m in msgs ==> Sendable(m) && |m.payload| <= most) && |merged| <= most
    ensures Bounded(Wire(msgs), merged, most)
    decreases |msgs|
  {
    if msgs == [] {
      NothingIsUndecided();
    } else {
      hide Bounded;
      WireBounded(msgs[1..], MergedAfter(msgs[0], merged), most);
      MessageBounded(msgs[0], Wire(msgs[1..]), merged, most);
    }
  }

  function LongestPayload(msgs: seq<Message>): (n: nat)
    ensures forall m :: m in msgs ==> |m.payload| <= n
  {
    if msgs == [] then 0 else Max(|msgs[0].payload|, LongestPayload(msgs[1..]))
  }

  function LongestRead(chunks: seq<bytes>): (n: nat)
    ensures forall c :: c in chunks ==> |c| <= n
  {
    if chunks == [] then 0 else Max(|chunks[0]|, LongestRead(chunks[1..]))
  }

  /** Long streams fit too, for ever, when the longest message, one frame and the longest read do so together. */
  lemma MessagesFit(msgs: seq<Message>, chunks: seq<bytes>)
    requires (forall m :: m in msgs ==> Sendable(m)) && (forall c :: c in chunks ==> c != [])
    requires Concat(chunks) == Wire(msgs)
    requires |Wire(msgs)| <= MAX_SIZE || LongestPayload(msgs) + FRAME_MAX + LongestRead(chunks) <= MAX_SIZE
    ensures FitsAll([], [], chunks)
  {
    if |Wire(msgs)| <= MAX_SIZE {
      ShortStreamFits([], [], chunks);
    } else {
      hide Bounded, Drain, Wire;
      WireBounded(msgs, [], LongestPayload(msgs));
      DrainWire(msgs, []);
      assert [] + Wire(msgs) == Wire(msgs);
      BoundedFits([], [], chunks, LongestPayload(msgs), LongestRead(chunks));
    }
  }
}
