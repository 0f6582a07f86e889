/** The frame generator of src/ws/wsutil.cpp, and the octets of a whole message. */
module Generator {
  import opened Bytes
  import opened MembufModule
  import opened Frames
  import opened Sequences

  /** The frames after the first one of a message with `p` still to send. */
  function ContinuationBytes(p: bytes): (r: bytes) {
    if |p| <= DATA_FRAME_MAX_LEN then EncodeFrame(p, CONTINUE_FRAME, true, false)
    else EncodeFrame(p[..DATA_FRAME_MAX_LEN], CONTINUE_FRAME, false, false) + ContinuationBytes(p[DATA_FRAME_MAX_LEN..])
  }

  /** One message on the wire (RFC 6455 section 5.4); an empty message is not sent at all. */
  function MessageBytes(p: bytes, op: byte): (r: bytes) {
    if p == [] then []
    else if |p| <= DATA_FRAME_MAX_LEN then EncodeFrame(p, op, true, false)
    else EncodeFrame(p[..DATA_FRAME_MAX_LEN], op, false, false) + ContinuationBytes(p[DATA_FRAME_MAX_LEN..])
  }

  /** The whole frames at the front of `s`, in order. */
  function FramesOf(s: bytes): (r: seq<Frame>)
    decreases |s|
  {
    var p := ParseFrame(s);
    if p.Whole? && 0 < p.size <= |s| then [p.frame] + FramesOf(s[p.size..]) else []
  }

  /** `fs` are the continuation frames of `n` octets: FIN on the last only, none empty, none too long. */
  ghost predicate Continues(fs: seq<Frame>, n: nat) {
    && |fs| == (n + DATA_FRAME_MAX_LEN - 1) / DATA_FRAME_MAX_LEN
    && (forall i :: 0 <= i < |fs| ==> fs[i].opcode == CONTINUE_FRAME && fs[i].fin == (i == |fs| - 1))
    && (forall i :: 0 <= i < |fs| ==> 0 < |fs[i].body| <= DATA_FRAME_MAX_LEN)
  }

  lemma ContinuesInFront(f: Frame, fs: seq<Frame>, n: nat)
    requires n > DATA_FRAME_MAX_LEN && Continues(fs, n - DATA_FRAME_MAX_LEN)
    requires f.opcode == CONTINUE_FRAME && !f.fin && |f.body| == DATA_FRAME_MAX_LEN
    ensures Continues([f] + fs, n)
  {
    OneMore(n);
  }

  lemma {:induction false} ContinuationFrames(p: bytes)
    requires p != []
    ensures Continues(FramesOf(ContinuationBytes(p)), |p|)
    decreases |p|
  {
    hide FramesOf, EncodeFrame;
    if |p| <= DATA_FRAME_MAX_LEN {
      OneFrame(p, CONTINUE_FRAME, true, []);
    } else {
      var front, rest := p[..DATA_FRAME_MAX_LEN], p[DATA_FRAME_MAX_LEN..];
      OneFrame(front, CONTINUE_FRAME, false, ContinuationBytes(rest));
      ContinuationFrames(rest);
      ContinuesInFront(Frame(false, CONTINUE_FRAME, front), FramesOf(ContinuationBytes(rest)), |p|);
    }
  }

  lemma OneMore(n: nat)
    requires n > DATA_FRAME_MAX_LEN
    ensures (n + DATA_FRAME_MAX_LEN - 1) / DATA_FRAME_MAX_LEN == 1 + (n - DATA_FRAME_MAX_LEN + DATA_FRAME_MAX_LEN - 1) / DATA_FRAME_MAX_LEN
  {
  }

  lemma NothingIsUndecided()
    ensures ParseFrame([]).NeedMore?
  {
  }

  lemma OneFrame(p: bytes, op: byte, fin: bool, rest: bytes)
    requires 0 < |p| < 0x1_0000_0000 && op < 16
    ensures FramesOf(EncodeFrame(p, op, fin, false) + rest) == [Frame(fin, op, p)] + FramesOf(rest)
    ensures rest == [] ==> EncodeFrame(p, op, fin, false) + rest == EncodeFrame(p, op, fin, false) && FramesOf(rest) == []
  {
    hide ParseFrame, EncodeFrame;
    var e := EncodeFrame(p, op, fin, false);
    FrameRoundTrip(p, op, fin, false, rest);
    assert ParseFrame(e + rest).size == |e|;
    WholeFitsExactly(e + rest);
    assert (e + rest)[|e|..] == rest;
    if rest == [] {
      assert e + rest == e;
      NothingIsUndecided();
    }
  }

  /**
   * A message of n octets is ceil(n / 65520) frames: the first carries the opcode, the others are continuations,
   * only the last has FIN, and none is long enough for the 64-bit length form.
   */
  lemma FragmentLayout(p: bytes, op: byte)
    requires p != [] && 0 < op < 16
    ensures var fs := FramesOf(MessageBytes(p, op));
            && |fs| == (|p| + 65519) / 65520
            && (forall i :: 0 <= i < |fs| ==> fs[i].opcode == (if i == 0 then op else 0))
            && (forall i :: 0 <= i < |fs| ==> fs[i].fin == (i == |fs| - 1))
            && (forall i :: 0 <= i < |fs| ==> 0 < |fs[i].body| <= 65520)
  {
    if |p| <= DATA_FRAME_MAX_LEN {
      OneFrame(p, op, true, []);
    } else {
      OneFrame(p[..DATA_FRAME_MAX_LEN], op, false, ContinuationBytes(p[DATA_FRAME_MAX_LEN..]));
      ContinuationFrames(p[DATA_FRAME_MAX_LEN..]);
    }
  }

  /** The header array up to the extended length, lines 285 to 335. */
  method FillHeader(header: array<byte>, n: nat, op: byte, fin: bool, masked: bool) returns (size: nat)
    requires n < 0x1_0000_0000 && header.Length == 14
    modifies header
    ensures size == 2 + |ExtendedLength(n)| && size <= 10
    ensures header[..size] == HeaderFront(n, op, fin, masked)
  {
    hide LengthField;
    header[0] := (if fin then 128 else 0) + op % 16;
    header[1] := if masked then 128 else 0;
    if n <= 125 {
      header[1] := header[1] + n;
      size := 2;
    } else if n <= 65535 {
      header[1] := header[1] + 126;
      WriteLength(header, 2, n, 2);
      size := 4;
    } else {
      header[1] := header[1] + 127;
      header[2], header[3], header[4], header[5] := 0, 0, 0, 0;
      WriteLength(header, 6, n, 4);
      size := 10;
      assert header[2..10] == [0, 0, 0, 0] + header[6..10];
    }
    assert header[..size] == [header[0], header[1]] + header[2..size];
  }

  /** The whole header, lines 284 to 346. */
  method BuildHeader(n: nat, op: byte, fin: bool, masked: bool) returns (h: bytes)
    requires n < 0x1_0000_0000
    ensures h == Header(n, op, fin, GeneratorKey(masked))
  {
    hide HeaderFront, ExtendedLength;
    var header := new byte[14](_ => 0);
    var size := FillHeader(header, n, op, fin, masked);
    if masked {
      ghost var front := header[..size];
      header[size], header[size + 1], header[size + 2], header[size + 3] :=
        GENERATOR_MASK[0], GENERATOR_MASK[1], GENERATOR_MASK[2], GENERATOR_MASK[3];
      assert header[..size] == front;
      assert header[size..size + 4] == GENERATOR_MASK;
      assert header[..size + 4] == front + header[size..size + 4];
      size := size + 4;
    }
    h := header[..size];
  }

  /** `write_two_byte_length` and `write_four_byte_length` */
  method WriteLength(a: array<byte>, at: nat, n: nat, k: nat)
    requires at + k <= a.Length
    modifies a
    ensures a[at..at + k] == LengthField(n, k)
    ensures forall i :: 0 <= i < a.Length && !(at <= i < at + k) ==> a[i] == old(a[i])
  {
    var field := LengthField(n, k);
    forall i | 0 <= i < k { a[at + i] := field[i]; }
  }

  /** Header, payload, and masking of the payload where it now lies in the buffer. */
  method AppendFrame(buf: Membuf, header: bytes, payload: bytes, masked: bool)
    requires buf.Valid() && buf.size + |header| + |payload| <= MAX_SIZE
    modifies buf, buf.data
    ensures buf.Valid() && (buf.data == old(buf.data) || fresh(buf.data))
    ensures buf.Contents() ==
            old(buf.Contents()) + (header + (if masked then Masked(payload, GENERATOR_MASK) else payload))
  {
    hide Masked;
    ghost var before := buf.Contents();
    buf.Append(header);
    buf.Append(payload);
    Associate(before, header, payload);
    if masked {
      MaskTail(buf, before + header, payload);
      Associate(before, header, Masked(payload, GENERATOR_MASK));
    }
  }

  method MaskTail(buf: Membuf, ghost front: bytes, payload: bytes)
    requires buf.Valid() && buf.Contents() == front + payload
    modifies buf.data
    ensures buf.Contents() == front + Masked(payload, GENERATOR_MASK)
  {
    SplitAt(front, payload);
    buf.MaskFrom(buf.size - |payload|, GENERATOR_MASK);
  }

  lemma SplitAt(a: bytes, b: bytes)
    ensures (a + b)[..|a|] == a && (a + b)[|a|..] == b
  {
  }

  /** `generate_websocket_frame_without_fragment` */
  method GenerateFrame(buf: Membuf, payload: bytes, op: byte, fin: bool, masked: bool)
    requires buf.Valid() && buf.size + |EncodeFrame(payload, op, fin, masked)| <= MAX_SIZE
    modifies buf, buf.data
    ensures buf.Valid() && (buf.data == old(buf.data) || fresh(buf.data))
    ensures buf.Contents() == old(buf.Contents()) + EncodeFrame(payload, op, fin, masked)
  {
    if |payload| >= 0x1_0000_0000 {
      return;
    }
    hide Header, Masked;
    var header := BuildHeader(|payload|, op, fin, masked);
    AppendFrame(buf, header, payload, masked);
  }

  /** The choice of opcode and FIN for one fragment, lines 421 to 431. */
  method GenerateFragment(buf: Membuf, piece: bytes, op: byte, counter: nat, fragments: nat)
    requires buf.Valid() && counter < fragments
    requires buf.size + |FragmentFrame(piece, op, counter, fragments)| <= MAX_SIZE
    modifies buf, buf.data
    ensures buf.Valid() && (buf.data == old(buf.data) || fresh(buf.data))
    ensures buf.Contents() == old(buf.Contents()) + FragmentFrame(piece, op, counter, fragments)
  {
    hide EncodeFrame;
    if fragments == 1 {
      GenerateFrame(buf, piece, op, true, false);
    } else if counter == 0 {
      GenerateFrame(buf, piece, op, false, false);
    } else if counter == fragments - 1 {
      GenerateFrame(buf, piece, CONTINUE_FRAME, true, false);
    } else {
      GenerateFrame(buf, piece, CONTINUE_FRAME, false, false);
    }
  }

  /** Fragment `counter` of a message: the opcode is the first one's, FIN the last one's. */
  function FragmentFrame(piece: bytes, op: byte, counter: nat, fragments: nat): (r: bytes)
    requires counter < fragments
  {
    EncodeFrame(piece, if counter == 0 then op else CONTINUE_FRAME, counter == fragments - 1, false)
  }

  /** Frames needed for `n` octets. */
  function FragmentCount(n: nat): nat {
    n / DATA_FRAME_MAX_LEN + (if n % DATA_FRAME_MAX_LEN == 0 then 0 else 1)
  }

  /** What is still to be appended once the first `wrapped` octets are. */
  function RestOfMessage(p: bytes, op: byte, wrapped: nat): (r: bytes)
    requires wrapped <= |p|
  {
    if wrapped == 0 then MessageBytes(p, op)
    else if wrapped == |p| then []
    else ContinuationBytes(p[wrapped..])
  }

  /** The payload octets of fragment `counter`. */
  function FragmentLength(n: nat, wrapped: nat): (num: nat)
    requires wrapped <= n
  {
    if n - wrapped > DATA_FRAME_MAX_LEN then DATA_FRAME_MAX_LEN else n - wrapped
  }

  lemma FragmentNumbers(n: nat, counter: nat)
    requires counter * DATA_FRAME_MAX_LEN < n
    ensures var wrapped := counter * DATA_FRAME_MAX_LEN;
            var num := FragmentLength(n, wrapped);
            counter < FragmentCount(n) && (wrapped + num < n <==> counter + 1 < FragmentCount(n))
  {
  }

  lemma FragmentStep(p: bytes, op: byte, counter: nat)
    requires counter * DATA_FRAME_MAX_LEN < |p|
    ensures counter < FragmentCount(|p|)
    ensures var wrapped := counter * DATA_FRAME_MAX_LEN;
            var num := FragmentLength(|p|, wrapped);
            RestOfMessage(p, op, wrapped) ==
            FragmentFrame(p[wrapped..wrapped + num], op, counter, FragmentCount(|p|)) + RestOfMessage(p, op, wrapped + num)
  {
    hide EncodeFrame, FragmentCount;
    var wrapped := counter * DATA_FRAME_MAX_LEN;
    var num := FragmentLength(|p|, wrapped);
    FragmentNumbers(|p|, counter);
    assert p[wrapped..][..num] == p[wrapped..wrapped + num] && p[wrapped..][num..] == p[wrapped + num..];
    assert p[0..] == p && p[wrapped..][..|p| - wrapped] == p[wrapped..];
    var frame := FragmentFrame(p[wrapped..wrapped + num], op, counter, FragmentCount(|p|));
    assert frame + [] == frame;
  }

  /** One turn of the loop, lines 420 to 433: `all` is what the buffer is going to hold at the end. */
  method NextFragment(buf: Membuf, payload: bytes, op: byte, wrapped: nat, counter: nat, ghost all: bytes)
    returns (num: nat)
    requires buf.Valid() && wrapped < |payload| && wrapped == counter * DATA_FRAME_MAX_LEN
    requires |all| <= MAX_SIZE && all == buf.Contents() + RestOfMessage(payload, op, wrapped)
    modifies buf, buf.data
    ensures buf.Valid() && (buf.data == old(buf.data) || fresh(buf.data))
    ensures num == FragmentLength(|payload|, wrapped)
    ensures buf.Contents() + RestOfMessage(payload, op, wrapped + num) == all
  {
    hide FragmentFrame, RestOfMessage, FragmentCount;
    num := if |payload| - wrapped > DATA_FRAME_MAX_LEN then DATA_FRAME_MAX_LEN else |payload| - wrapped;
    FragmentStep(payload, op, counter);
    var piece := payload[wrapped..wrapped + num];
    Associate(buf.Contents(), FragmentFrame(piece, op, counter, FragmentCount(|payload|)),
              RestOfMessage(payload, op, wrapped + num));
    GenerateFragment(buf, piece, op, counter, FragmentCount(|payload|));
  }

  /** `generate_websocket_frame`: the fragmenting loop. */
  method GenerateMessage(buf: Membuf, payload: bytes, op: byte)
    requires buf.Valid() && buf.size + |MessageBytes(payload, op)| <= MAX_SIZE
    modifies buf, buf.data
    ensures buf.Valid() && (buf.data == old(buf.data) || fresh(buf.data))
    ensures buf.Contents() == old(buf.Contents()) + MessageBytes(payload, op)
  {
    if |payload| == 0 {
      return;
    }
    hide MessageBytes, ContinuationBytes;
    var wrapped, counter := 0, 0;
    ghost var all := buf.Contents() + MessageBytes(payload, op);
    while wrapped < |payload| && counter < FragmentCount(|payload|)
      invariant buf.Valid() && (buf.data == old(buf.data) || fresh(buf.data))
      invariant wrapped <= |payload| && (wrapped < |payload| ==> wrapped == counter * DATA_FRAME_MAX_LEN)
      invariant |all| <= MAX_SIZE && buf.Contents() + RestOfMessage(payload, op, wrapped) == all
    {
      var num := NextFragment(buf, payload, op, wrapped, counter, all);
      wrapped := wrapped + num;
      counter := counter + 1;
    }
  }
}
