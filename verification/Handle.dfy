/** The per-connection parser state and the incremental parser of src/ws/wsutil.cpp. */
module Handles {
  import opened Bytes
  import opened MembufModule
  import opened Frames
  import opened Sequences

  datatype ParseState = PARSE_COMPLETE | PARSE_FAILED | PARSE_INCOMPLETE

  function Max(a: nat, b: nat): nat { if a < b then b else a }

  /**
   * Where a parse stands: `s` is what the buffer held at the start (`p0` octets) followed by `data`; the buffer
   * has been extended by the first `dataRead` octets of `data`, and `bufRead` octets of it have been consumed.
   */
  ghost predicate Cursor(contents: bytes, s: bytes, p0: nat, data: bytes, bufRead: nat, dataRead: nat) {
    && p0 <= |s| && s[p0..] == data
    && dataRead <= |data| && contents == s[..p0 + dataRead]
    && bufRead <= p0 + dataRead && (dataRead > 0 ==> bufRead == p0 + dataRead)
  }

  /** New octets join those of the buffer, and what is still to be read of these. */
  lemma NextPiece(s: bytes, p0: nat, bufRead: nat, dataRead: nat, m: nat)
    requires bufRead <= p0 + dataRead && p0 + dataRead + m <= |s|
    ensures var c, piece := p0 + dataRead, s[p0..][dataRead..dataRead + m];
            s[..c] + piece == s[..c + m] && s[..c][bufRead..] + piece == s[bufRead..c + m]
  {
    var c := p0 + dataRead;
    PieceOfBack(s, p0, dataRead, dataRead + m);
    PiecesMeet(s, 0, c, c + m);
    PieceOfFront(s, c, bufRead, c);
    PiecesMeet(s, bufRead, c, c + m);
  }

  /** A frame without payload is decided by its second octet, so nothing past the first can have been pending. */
  lemma ShortFramePending(s: bytes, p0: nat)
    requires 2 <= |s| && p0 <= |s| && Length7(s[1]) == 0 && !ParseFrame(s[..p0]).Whole?
    ensures p0 < 2
  {
  }

  /** What a new read can turn a pending string into, and that it takes at least one octet and at most all. */
  lemma PendingVerdicts(s: bytes, p0: nat)
    requires p0 < |s| && !ParseFrame(s[..p0]).Whole?
    ensures ParseFrame(s).Whole? ==> p0 < ParseFrame(s).size <= |s|
    ensures ParseFrame(s).Malformed? ==> |s| >= 6 && ParseFrame(s[..Max(6, p0)]).Malformed?
  {
    assert s[..p0] + s[p0..] == s;
    if ParseFrame(s[..p0]).Malformed? {
      VerdictIsStable(s[..p0], s[p0..]);
    } else if ParseFrame(s).Whole? {
      FrameEndsPastPending(s, p0);
    } else if ParseFrame(s).Malformed? {
      assert s[..Max(6, p0)][2..6] == s[2..6];
    }
  }

  class Handle {
    const protoBuf: Membuf
    const mergeBuf: Membuf
    var isEof: bool
    var opcode: byte
    var hasMask: bool
    var payloadLen: byte
    var mask: bytes
    var realPayloadLen: nat
    var readCount: nat
    var parseState: ParseState

    ghost predicate BuffersValid()
      reads this, protoBuf, mergeBuf
    {
      protoBuf.Valid() && mergeBuf.Valid() && protoBuf != mergeBuf && protoBuf.data != mergeBuf.data && |mask| == 4
    }

    /** Between calls an incomplete buffer is a strict prefix of one frame. */
    ghost predicate Valid()
      reads this, protoBuf, mergeBuf, protoBuf.data
    {
      && BuffersValid()
      && (parseState.PARSE_INCOMPLETE? ==> ParseFrame(protoBuf.Contents()).NeedMore?)
      && (parseState.PARSE_FAILED? ==> ParseFrame(protoBuf.Contents()).Malformed?)
    }

    /** The octets of the frame under way; after a complete frame the buffer is cleared on the next call. */
    ghost function Pending(): bytes
      requires protoBuf.Valid()
      reads this, protoBuf, protoBuf.data
    {
      if parseState.PARSE_COMPLETE? then [] else protoBuf.Contents()
    }

    /** As `on_read` creates it: state complete, two buffers of 128 octets. */
    constructor ()
      ensures Valid() && Pending() == [] && mergeBuf.Contents() == []
      ensures fresh(protoBuf) && fresh(mergeBuf) && fresh(protoBuf.data) && fresh(mergeBuf.data)
      ensures protoBuf.data.Length == mergeBuf.data.Length == 128 && parseState == PARSE_COMPLETE
      ensures !isEof && !hasMask && opcode == 0 && payloadLen == 0 && mask == [0, 0, 0, 0]
      ensures realPayloadLen == 0 && readCount == 0
    {
      protoBuf := new Membuf(128);
      mergeBuf := new Membuf(128);
      isEof, opcode, hasMask, payloadLen, mask := false, 0, false, 0, [0, 0, 0, 0];
      realPayloadLen, readCount, parseState := 0, 0, PARSE_COMPLETE;
    }

    /** `read_char_from_buf_or_data`: the next `n` octets, from the buffer first, copying new ones into it. */
    method ReadChar(data: bytes, bufRead: nat, dataRead: nat, n: nat, ghost s: bytes, ghost p0: nat)
      returns (ok: bool, out: bytes, bufRead': nat, dataRead': nat)
      requires BuffersValid() && |s| <= MAX_SIZE && readCount == dataRead
      requires Cursor(protoBuf.Contents(), s, p0, data, bufRead, dataRead)
      modifies this`readCount, protoBuf, protoBuf.data
      ensures BuffersValid() && (protoBuf.data == old(protoBuf.data) || fresh(protoBuf.data))
      ensures Cursor(protoBuf.Contents(), s, p0, data, bufRead', dataRead') && readCount == dataRead'
      ensures ok <==> bufRead + n <= |s|
      ensures ok ==> bufRead' == bufRead + n && out == s[bufRead..bufRead + n]
      ensures !ok ==> protoBuf.Contents() == s && dataRead' == |data|
    {
      hide Max;
      var contents := protoBuf.Contents();
      if bufRead + n <= |contents| {
        PieceOfFront(s, p0 + dataRead, bufRead, bufRead + n);
        return true, contents[bufRead..bufRead + n], bufRead + n, dataRead;
      }
      var available := |contents| - bufRead;
      var head := contents[bufRead..];
      bufRead' := bufRead + available;
      var m := n - available;
      ok := dataRead + m <= |data|;
      if !ok { m := |data| - dataRead; }
      var piece := data[dataRead..dataRead + m];
      NextPiece(s, p0, bufRead, dataRead, m);
      protoBuf.Append(piece);
      out := head + piece;
      dataRead' := dataRead + m;
      bufRead' := bufRead' + m;
      readCount := readCount + m;
    }

    /** The extended payload length, lines 195 to 250: 0, 2 or 8 octets after the first two. */
    method ReadLength(data: bytes, bufRead: nat, dataRead: nat, ghost s: bytes, ghost p0: nat)
      returns (state: ParseState, bufRead': nat, dataRead': nat)
      requires BuffersValid() && |s| <= MAX_SIZE && readCount == dataRead
      requires Cursor(protoBuf.Contents(), s, p0, data, bufRead, dataRead)
      requires bufRead == 2 && payloadLen == Length7(s[1])
      modifies this`readCount, this`realPayloadLen, protoBuf, protoBuf.data
      ensures BuffersValid() && (protoBuf.data == old(protoBuf.data) || fresh(protoBuf.data))
      ensures Cursor(protoBuf.Contents(), s, p0, data, bufRead', dataRead') && readCount == dataRead'
      ensures state.PARSE_FAILED? <==> BadExtension(s)
      ensures state.PARSE_FAILED? ==> bufRead' == 6
      ensures state.PARSE_COMPLETE? <==> !BadExtension(s) && 2 + ExtensionSize(payloadLen) <= |s|
      ensures state.PARSE_COMPLETE? ==>
                bufRead' == 2 + ExtensionSize(payloadLen) && realPayloadLen == PayloadLength(s)
      ensures state.PARSE_INCOMPLETE? ==> protoBuf.Contents() == s && dataRead' == |data|
    {
      hide BigEndian;
      bufRead', dataRead' := bufRead, dataRead;
      var ok, ext;
      if payloadLen < 126 {
        realPayloadLen := payloadLen;
      } else if payloadLen == 126 {
        ok, ext, bufRead', dataRead' := ReadChar(data, bufRead', dataRead', 2, s, p0);
        if !ok {
          return PARSE_INCOMPLETE, bufRead', dataRead';
        }
        realPayloadLen := BigEndian(ext);
      } else {
        ok, ext, bufRead', dataRead' := ReadChar(data, bufRead', dataRead', 4, s, p0);
        if !ok {
          return PARSE_INCOMPLETE, bufRead', dataRead';
        }
        if ext != [0, 0, 0, 0] {
          return PARSE_FAILED, bufRead', dataRead';
        }
        ok, ext, bufRead', dataRead' := ReadChar(data, bufRead', dataRead', 4, s, p0);
        if !ok {
          return PARSE_INCOMPLETE, bufRead', dataRead';
        }
        realPayloadLen := BigEndian(ext);
      }
      state := PARSE_COMPLETE;
    }

    /** Unmasking in place and dropping the header, lines 255 to 261. */
    method FinishFrame(headerLen: nat, ghost s: bytes)
      requires BuffersValid() && ParseFrame(s).Whole? && Length7(s[1]) != 0
      requires headerLen == HeaderSize(s[1]) && hasMask == HasMask(s[1])
      requires hasMask ==> mask == s[headerLen - 4..headerLen]
      requires protoBuf.Contents() == s[..ParseFrame(s).size]
      modifies protoBuf, protoBuf.data
      ensures BuffersValid() && protoBuf.data == old(protoBuf.data)
      ensures protoBuf.Contents() == ParseFrame(s).frame.body
    {
      hide ParseFrame, Masked;
      BodyOf(s);
      ghost var whole := protoBuf.Contents();
      assert whole[headerLen..] == s[headerLen..ParseFrame(s).size];
      if hasMask {
        protoBuf.MaskFrom(headerLen, mask);
      }
      protoBuf.Remove(0, headerLen);
    }

    /** The body in terms of the frame's octets. */
    lemma BodyOf(s: bytes)
      requires ParseFrame(s).Whole? && Length7(s[1]) != 0
      ensures var h, size := HeaderSize(s[1]), ParseFrame(s).size;
              && h <= size <= |s|
              && ParseFrame(s).frame.body == if HasMask(s[1]) then Masked(s[h..size], s[h - 4..h]) else s[h..size]
    {
    }

    /** Mask key and payload, lines 201 to 262. */
    method ReadBody(data: bytes, bufRead: nat, dataRead: nat, ghost s: bytes, ghost p0: nat) returns (ok: bool)
      requires BuffersValid() && |s| <= MAX_SIZE && readCount == dataRead
      requires Cursor(protoBuf.Contents(), s, p0, data, bufRead, dataRead)
      requires |s| >= 2 && Length7(s[1]) != 0 && !BadExtension(s) && bufRead == 2 + ExtensionSize(Length7(s[1]))
      requires hasMask == HasMask(s[1]) && bufRead <= |s| && realPayloadLen == PayloadLength(s)
      requires ParseFrame(s[..p0]).NeedMore?
      modifies this`readCount, this`mask, protoBuf, protoBuf.data
      ensures BuffersValid() && (protoBuf.data == old(protoBuf.data) || fresh(protoBuf.data))
      ensures ok <==> ParseFrame(s).Whole?
      ensures ok ==> protoBuf.Contents() == ParseFrame(s).frame.body && readCount == ParseFrame(s).size - p0
      ensures !ok ==> protoBuf.Contents() == s && readCount == |data|
    {
      hide Max;
      var bufRead', dataRead', key := bufRead, dataRead, [];
      if hasMask {
        ok, key, bufRead', dataRead' := ReadChar(data, bufRead', dataRead', 4, s, p0);
        if !ok {
          return;
        }
        mask := key;
      }
      var headerLen := bufRead';
      ok, key, bufRead', dataRead' := ReadChar(data, bufRead', dataRead', realPayloadLen, s, p0);
      if !ok {
        return;
      }
      assert ParseFrame(s).Whole? && ParseFrame(s).size == bufRead';
      FrameEndsPastPending(s, p0);
      FinishFrame(headerLen, s);
    }

    /** Lines 195 to 262, for a frame that announces a payload. */
    method ParseWithPayload(data: bytes, bufRead: nat, dataRead: nat, ghost s: bytes, ghost p0: nat)
      requires BuffersValid() && |s| <= MAX_SIZE && readCount == dataRead
      requires Cursor(protoBuf.Contents(), s, p0, data, bufRead, dataRead)
      requires bufRead == 2 && payloadLen == Length7(s[1]) != 0 && hasMask == HasMask(s[1])
      requires !ParseFrame(s[..p0]).Whole?
      modifies this`readCount, this`realPayloadLen, this`mask, this`parseState, protoBuf, protoBuf.data
      ensures BuffersValid() && (protoBuf.data == old(protoBuf.data) || fresh(protoBuf.data))
      ensures match ParseFrame(s) {
                case NeedMore =>
                  parseState == PARSE_INCOMPLETE && protoBuf.Contents() == s && readCount == |data|
                case Malformed =>
                  parseState == PARSE_FAILED && protoBuf.Contents() == s[..Max(6, p0)] && readCount == Max(6, p0) - p0
                case Whole(frame, n) =>
                  parseState == PARSE_COMPLETE && protoBuf.Contents() == frame.body && readCount == n - p0
              }
    {
      if ParseFrame(s[..p0]).Malformed? {
        VerdictIsStable(s[..p0], s[p0..]);
        assert s[..p0] + s[p0..] == s;
      }
      var state, bufRead', dataRead' := ReadLength(data, bufRead, dataRead, s, p0);
      if state == PARSE_COMPLETE {
        var ok := ReadBody(data, bufRead', dataRead', s, p0);
        state := if ok then PARSE_COMPLETE else PARSE_INCOMPLETE;
      }
      parseState := state;
    }

    /** The two octets every frame starts with, lines 181 to 193. */
    method ReadFirstTwo(data: bytes, ghost s: bytes, ghost p0: nat) returns (ok: bool, bufRead: nat, dataRead: nat)
      requires BuffersValid() && |s| <= MAX_SIZE && data != [] && readCount == 0
      requires Cursor(protoBuf.Contents(), s, p0, data, 0, 0)
      modifies this`readCount, this`isEof, this`opcode, this`hasMask, this`payloadLen, protoBuf, protoBuf.data
      ensures BuffersValid() && (protoBuf.data == old(protoBuf.data) || fresh(protoBuf.data))
      ensures Cursor(protoBuf.Contents(), s, p0, data, bufRead, dataRead) && readCount == dataRead
      ensures ok <==> |s| >= 2
      ensures ok ==> bufRead == 2 && isEof == Fin(s[0]) && opcode == Opcode(s[0])
      ensures ok ==> hasMask == HasMask(s[1]) && payloadLen == Length7(s[1])
      ensures !ok ==> protoBuf.Contents() == s && dataRead == |data|
    {
      var octet;
      ok, octet, bufRead, dataRead := ReadChar(data, 0, 0, 1, s, p0);
      assert octet[0] == s[0];
      isEof, opcode := Fin(octet[0]), Opcode(octet[0]);
      ok, octet, bufRead, dataRead := ReadChar(data, bufRead, dataRead, 1, s, p0);
      if ok {
        assert octet[0] == s[1];
        hasMask, payloadLen := HasMask(octet[0]), Length7(octet[0]);
      }
    }

    /** Lines 181 to 262: the parse proper, from the first header octet. */
    method ParseFromHeader(data: bytes, ghost s: bytes, ghost p0: nat)
      requires BuffersValid() && |s| <= MAX_SIZE && data != [] && readCount == 0 && parseState == PARSE_INCOMPLETE
      requires p0 == protoBuf.size && s == protoBuf.Contents() + data && !ParseFrame(s[..p0]).Whole?
      modifies this, protoBuf, protoBuf.data
      ensures BuffersValid() && (protoBuf.data == old(protoBuf.data) || fresh(protoBuf.data))
      ensures match ParseFrame(s) {
                case NeedMore =>
                  parseState == PARSE_INCOMPLETE && protoBuf.Contents() == s && readCount == |data|
                case Malformed =>
                  parseState == PARSE_FAILED && protoBuf.Contents() == s[..Max(6, p0)] && readCount == Max(6, p0) - p0
                case Whole(frame, n) =>
                  parseState == PARSE_COMPLETE && isEof == frame.fin && opcode == frame.opcode &&
                  protoBuf.Contents() == frame.body && readCount == n - p0
              }
    {
      assert Cursor(protoBuf.Contents(), s, p0, data, 0, 0);
      var ok, bufRead, dataRead := ReadFirstTwo(data, s, p0);
      if !ok {
        return;
      }
      if payloadLen == 0 {
        ShortFramePending(s, p0);
        realPayloadLen := 0;
        parseState := PARSE_COMPLETE;
        return;
      }
      ParseWithPayload(data, bufRead, dataRead, s, p0);
    }

    /**
     * `try_parse_protocol`. Whatever was pending plus the new octets is parsed from the start of its frame.
     * Octets past the frame are left in `data`: `readCount` says how many were taken.
     */
    method TryParse(data: bytes)
      requires Valid() && |Pending()| + |data| <= MAX_SIZE
      modifies this, protoBuf, protoBuf.data
      ensures Valid() && (protoBuf.data == old(protoBuf.data) || fresh(protoBuf.data))
      ensures readCount <= |data|
      ensures data == [] ==> readCount == 0 && parseState == old(parseState) && Pending() == old(Pending())
      ensures data != [] ==>
                var p0 := |old(Pending())|;
                match ParseFrame(old(Pending()) + data) {
                  case NeedMore =>
                    && parseState == PARSE_INCOMPLETE
                    && protoBuf.Contents() == old(Pending()) + data && readCount == |data|
                  case Malformed =>
                    && parseState == PARSE_FAILED
                    && protoBuf.Contents() == (old(Pending()) + data)[..Max(6, p0)] && readCount == Max(6, p0) - p0
                  case Whole(frame, n) =>
                    && parseState == PARSE_COMPLETE && isEof == frame.fin && opcode == frame.opcode
                    && protoBuf.Contents() == frame.body && readCount == n - p0 && 0 < readCount
                }
    {
      readCount := 0;
      if |data| == 0 {
        return;
      }
      if parseState == PARSE_COMPLETE {
        protoBuf.Clear(0);
        mask := [0, 0, 0, 0];
      }
      parseState := PARSE_INCOMPLETE;
      ghost var p0 := protoBuf.size;
      ghost var s := protoBuf.Contents() + data;
      assert s[..p0] == old(Pending());
      ParseFromHeader(data, s, p0);
      PendingVerdicts(s, p0);
    }
  }
}
