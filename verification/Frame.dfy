/** The frame layout of RFC 6455 section 5.2, as src/ws/wsutil.cpp writes and reads it. */
module Frames {
  import opened Bytes

  const CONTINUE_FRAME: byte := 0
  const TEXT_FRAME: byte := 1
  const BIN_FRAME: byte := 2
  const CLOSE_FRAME: byte := 8
  const PING_FRAME: byte := 9

  /** The longest payload `generate_websocket_frame` puts into one fragment. */
  const DATA_FRAME_MAX_LEN: nat := 65520

  const GENERATOR_MASK: bytes := [0x1a, 0x2b, 0x3c, 0x4d]

  /** `body` is what the protocol buffer holds once the frame is complete. */
  datatype Frame = Frame(fin: bool, opcode: byte, body: bytes)

  datatype Parse = NeedMore | Malformed | Whole(frame: Frame, size: nat)

  // ----- reading -----

  function Fin(b: byte): bool { b / 128 == 1 }
  function Opcode(b: byte): byte { b % 16 }
  function HasMask(b: byte): bool { b / 128 == 1 }
  function Length7(b: byte): byte { b % 128 }

  /** Octets of the extended payload length. */
  function ExtensionSize(len7: byte): nat {
    if len7 == 126 then 2 else if len7 == 127 then 8 else 0
  }

  function HeaderSize(second: byte): (n: nat)
    ensures 2 <= n <= 14
  {
    2 + ExtensionSize(Length7(second)) + (if HasMask(second) then 4 else 0)
  }

  /** The upper half of a 64-bit length must be zero. */
  predicate BadExtension(s: bytes)
  {
    |s| >= 6 && Length7(s[1]) == 127 && s[2..6] != [0, 0, 0, 0]
  }

  function PayloadLength(s: bytes): (n: nat)
    requires |s| >= 2 && |s| >= 2 + ExtensionSize(Length7(s[1]))
  {
    var len7 := Length7(s[1]);
    if len7 == 126 then BigEndian(s[2..4])
    else if len7 == 127 then BigEndian(s[6..10])
    else len7
  }

  /**
   * The frame at the front of `s`. A frame whose 7-bit length is zero ends after two octets, mask flag or not,
   * and its header stays in the buffer.
   */
  function ParseFrame(s: bytes): Parse {
    if |s| < 2 then NeedMore
    else if Length7(s[1]) == 0 then Whole(Frame(Fin(s[0]), Opcode(s[0]), s[..2]), 2)
    else if BadExtension(s) then Malformed
    else
      var h := HeaderSize(s[1]);
      if |s| < h || |s| < h + PayloadLength(s) then NeedMore
      else
        var payload := s[h..h + PayloadLength(s)];
        var body := if HasMask(s[1]) then Masked(payload, s[h - 4..h]) else payload;
        Whole(Frame(Fin(s[0]), Opcode(s[0]), body), h + PayloadLength(s))
  }

  lemma SlicesAgree(s: bytes, t: bytes, lo: nat, hi: nat)
    requires lo <= hi <= |s|
    ensures (s + t)[lo..hi] == s[lo..hi]
  {
  }

  /** What the first octets say about the length is the same whatever follows them. */
  lemma LengthInFront(s: bytes, t: bytes)
    requires |s| >= 2 && |s| >= 2 + ExtensionSize(Length7(s[1]))
    ensures PayloadLength(s + t) == PayloadLength(s) && BadExtension(s + t) == BadExtension(s)
  {
    if Length7(s[1]) == 126 {
      SlicesAgree(s, t, 2, 4);
    } else if Length7(s[1]) == 127 {
      SlicesAgree(s, t, 2, 6);
      SlicesAgree(s, t, 6, 10);
    }
    hide BigEndian;
  }

  lemma BadInFront(s: bytes, t: bytes)
    requires BadExtension(s)
    ensures BadExtension(s + t)
  {
    SlicesAgree(s, t, 2, 6);
  }

  /** More octets never change a verdict that has been reached. */
  lemma VerdictIsStable(s: bytes, t: bytes)
    requires !ParseFrame(s).NeedMore?
    ensures ParseFrame(s + t) == ParseFrame(s)
  {
    SlicesAgree(s, t, 0, 2);
    if Length7(s[1]) != 0 {
      if BadExtension(s) {
        BadInFront(s, t);
      } else {
        LengthInFront(s, t);
        var h := HeaderSize(s[1]);
        SlicesAgree(s, t, h, h + PayloadLength(s));
        if HasMask(s[1]) { SlicesAgree(s, t, h - 4, h); }
      }
    }
  }

  /** A malformed frame is never got past: with its six octets pending, a further parse fails again. */
  lemma FailureStays(pending: bytes, data: bytes)
    requires ParseFrame(pending).Malformed?
    ensures |pending| >= 6 && ParseFrame(pending + data).Malformed?
  {
    VerdictIsStable(pending, data);
  }

  /** Hence every prefix of an undecided string is undecided. */
  lemma UndecidedPrefix(s: bytes, n: nat)
    requires n <= |s| && ParseFrame(s).NeedMore?
    ensures ParseFrame(s[..n]).NeedMore?
  {
    assert s[..n] + s[n..] == s;
    if !ParseFrame(s[..n]).NeedMore? {
      VerdictIsStable(s[..n], s[n..]);
    }
  }

  /** A frame is a minimal decided string: no octet past it is ever part of the verdict. */
  lemma WholeFitsExactly(s: bytes)
    requires ParseFrame(s).Whole?
    ensures 2 <= ParseFrame(s).size <= |s| && |ParseFrame(s).frame.body| <= ParseFrame(s).size
    ensures ParseFrame(s).frame.opcode < 16
    ensures forall n :: 0 <= n < ParseFrame(s).size ==> ParseFrame(s[..n]).NeedMore?
  {
    forall n | 0 <= n < ParseFrame(s).size
      ensures ParseFrame(s[..n]).NeedMore?
    {
      assert s[..n] + s[n..] == s;
      if !ParseFrame(s[..n]).NeedMore? {
        VerdictIsStable(s[..n], s[n..]);
      }
    }
  }

  lemma FrameDecides(s: bytes, n: nat)
    requires ParseFrame(s).Whole? && ParseFrame(s).size <= n <= |s|
    ensures ParseFrame(s[..n]) == ParseFrame(s)
  {
    assert s[..n] + s[n..] == s;
    EnoughOctets(s[..n], s[n..]);
    VerdictIsStable(s[..n], s[n..]);
  }

  lemma EnoughOctets(s: bytes, t: bytes)
    requires ParseFrame(s + t).Whole? && ParseFrame(s + t).size <= |s|
    ensures !ParseFrame(s).NeedMore?
  {
    SlicesAgree(s, t, 0, 2);
    if Length7(s[1]) != 0 {
      LengthInFront(s, t);
    }
  }

  /** A complete parse always needs at least one octet more than what was pending. */
  lemma FrameEndsPastPending(s: bytes, p0: nat)
    requires p0 <= |s| && ParseFrame(s[..p0]).NeedMore? && ParseFrame(s).Whole?
    ensures p0 < ParseFrame(s).size
  {
    if ParseFrame(s).size <= p0 {
      FrameDecides(s, p0);
    }
  }

  /** The fields of the first two octets are their bits, reserved ones or not (wsutil.cpp:184-192). */
  lemma FieldsAreBits(x: bv8)
    ensures (Fin(x as int) <==> x >> 7 == 1) && (HasMask(x as int) <==> x >> 7 == 1)
    ensures Opcode(x as int) == (x & 0xf) as int && Length7(x as int) == (x & 0x7f) as int
  {
    TopBit(x);
    LowHalf(x);
    LowSeven(x);
  }

  lemma TopBit(x: bv8)
    ensures x as int / 128 == 1 <==> x >> 7 == 1
  {
  }

  lemma LowHalf(x: bv8)
    ensures x as int % 16 == (x & 0xf) as int
  {
  }

  lemma LowSeven(x: bv8)
    ensures x as int % 128 == (x & 0x7f) as int
  {
  }

  // ----- writing -----

  /** The length octets after the second header octet; RFC 6455 section 5.2 asks for the shortest form. */
  function ExtendedLength(n: nat): (r: bytes) {
    if n <= 125 then [] else if n <= 65535 then LengthField(n, 2) else [0, 0, 0, 0] + LengthField(n, 4)
  }

  function SecondOctet(n: nat, masked: bool): (b: byte) {
    (if masked then 128 else 0) + (if n <= 125 then n else if n <= 65535 then 126 else 127)
  }

  /** Flags, opcode and length: all of a header but the mask key. */
  function HeaderFront(n: nat, op: byte, fin: bool, masked: bool): (r: bytes)
    ensures |r| >= 2
  {
    [(if fin then 128 else 0) + op % 16, SecondOctet(n, masked)] + ExtendedLength(n)
  }

  /** A mask key has four octets; no octets at all stand for a frame that is not masked. */
  type MaskKey = key: bytes | key == [] || |key| == 4 witness []

  function Header(n: nat, op: byte, fin: bool, key: MaskKey): (r: bytes)
    ensures |r| >= 2
  {
    HeaderFront(n, op, fin, key != []) + key
  }

  /** A frame as any peer may send it, with the shortest length form and any mask key; up to 2^32 - 1 octets. */
  function EncodeWith(payload: bytes, op: byte, fin: bool, key: MaskKey): (r: bytes)
    ensures |r| <= 14 + |payload|
  {
    if |payload| >= 0x1_0000_0000 then []
    else Header(|payload|, op, fin, key) + (if key == [] then payload else Masked(payload, key))
  }

  function GeneratorKey(masked: bool): (key: MaskKey)
    ensures masked <==> |key| == 4
  {
    if masked then GENERATOR_MASK else []
  }

  /** `generate_websocket_frame_without_fragment`: nothing at all beyond 2^32 - 1 octets. */
  function EncodeFrame(payload: bytes, op: byte, fin: bool, masked: bool): (r: bytes)
    ensures |r| <= 14 + |payload|
  {
    EncodeWith(payload, op, fin, GeneratorKey(masked))
  }

  lemma ShortFront(n: nat, op: byte, fin: bool, masked: bool)
    requires 0 < n <= 125
    ensures var h := HeaderFront(n, op, fin, masked);
            |h| == 2 && Length7(h[1]) == n && !BadExtension(h) && PayloadLength(h) == n
  {
  }

  lemma MiddleFront(n: nat, op: byte, fin: bool, masked: bool)
    requires 125 < n <= 65535
    ensures var h := HeaderFront(n, op, fin, masked);
            |h| == 4 && Length7(h[1]) == 126 && !BadExtension(h) && PayloadLength(h) == n
  {
    var front, field := [(if fin then 128 else 0) + op % 16, SecondOctet(n, masked)], LengthField(n, 2);
    FieldSizes();
    LengthFieldRoundTrip(n, 2);
    assert (front + field)[2..4] == field;
  }

  lemma LongFront(n: nat, op: byte, fin: bool, masked: bool)
    requires 65535 < n < 0x1_0000_0000
    ensures var h := HeaderFront(n, op, fin, masked);
            |h| == 10 && Length7(h[1]) == 127 && !BadExtension(h) && PayloadLength(h) == n
  {
    var front, field := [(if fin then 128 else 0) + op % 16, SecondOctet(n, masked)], LengthField(n, 4);
    FieldSizes();
    LengthFieldRoundTrip(n, 4);
    LongSlices(front, [0, 0, 0, 0], field);
  }

  lemma LongSlices(front: bytes, zeros: bytes, field: bytes)
    requires |front| == 2 && |zeros| == 4 && |field| == 4
    ensures (front + (zeros + field))[2..6] == zeros && (front + (zeros + field))[6..10] == field
  {
  }

  lemma HeaderFields(n: nat, op: byte, fin: bool, key: MaskKey)
    requires 0 < n < 0x1_0000_0000
    ensures var h := Header(n, op, fin, key);
            && Fin(h[0]) == fin && Opcode(h[0]) == op % 16 && HasMask(h[1]) == (key != [])
            && |h| == HeaderSize(h[1]) && Length7(h[1]) != 0 && !BadExtension(h) && PayloadLength(h) == n
            && (key != [] ==> h[|h| - 4..] == key)
  {
    var front, masked := HeaderFront(n, op, fin, key != []), key != [];
    if n <= 125 {
      ShortFront(n, op, fin, masked);
    } else if n <= 65535 {
      MiddleFront(n, op, fin, masked);
    } else {
      LongFront(n, op, fin, masked);
    }
    LengthInFront(front, key);
  }

  /** A header followed by exactly the announced octets is one whole frame. */
  lemma HeaderThenBody(h: bytes, body: bytes)
    requires |h| >= 2 && |h| == HeaderSize(h[1]) && Length7(h[1]) != 0 && !BadExtension(h)
    requires PayloadLength(h) == |body|
    ensures ParseFrame(h + body) ==
            Whole(Frame(Fin(h[0]), Opcode(h[0]), if HasMask(h[1]) then Masked(body, h[|h| - 4..]) else body), |h + body|)
  {
    var e := h + body;
    LengthInFront(h, body);
    assert e[|h|..|h| + |body|] == body;
    if HasMask(h[1]) {
      SlicesAgree(h, body, |h| - 4, |h|);
    }
  }

  /**
   * Single-frame codec: whatever follows, parsing recovers FIN, opcode and payload and stops at the end of the
   * frame, in all three length forms, masked with any key or not at all.
   */
  lemma KeyedRoundTrip(payload: bytes, op: byte, fin: bool, key: MaskKey, rest: bytes)
    requires 0 < |payload| < 0x1_0000_0000
    ensures var e := EncodeWith(payload, op, fin, key);
            ParseFrame(e + rest) == Whole(Frame(fin, op % 16, payload), |e|)
  {
    HeaderFields(|payload|, op, fin, key);
    HeaderThenBody(Header(|payload|, op, fin, key), if key == [] then payload else Masked(payload, key));
    if key != [] { MaskIsInvolution(payload, key); }
    VerdictIsStable(EncodeWith(payload, op, fin, key), rest);
  }

  /** The generator writes nothing exactly for payloads of 2^32 octets and more. */
  lemma NothingIff(payload: bytes, op: byte, fin: bool, masked: bool)
    ensures EncodeFrame(payload, op, fin, masked) == [] <==> |payload| >= 0x1_0000_0000
  {
  }

  /** In particular for what the generator writes. */
  lemma FrameRoundTrip(payload: bytes, op: byte, fin: bool, masked: bool, rest: bytes)
    requires 0 < |payload| < 0x1_0000_0000
    ensures var e := EncodeFrame(payload, op, fin, masked);
            ParseFrame(e + rest) == Whole(Frame(fin, op % 16, payload), |e|)
  {
    KeyedRoundTrip(payload, op, fin, GeneratorKey(masked), rest);
  }

  /** What a masked frame leaves as its body: octet `i` on the wire, `^` the key octet `i % 4` (RFC 6455 section 5.3). */
  lemma BodyIsUnmasked(s: bytes, i: nat, x: bv8, y: bv8)
    requires ParseFrame(s).Whole? && Length7(s[1]) != 0 && HasMask(s[1]) && i < |ParseFrame(s).frame.body|
    requires x as int == s[HeaderSize(s[1]) + i] && y as int == s[HeaderSize(s[1]) - 4 + i % 4]
    ensures ParseFrame(s).frame.body[i] == (x ^ y) as int
  {
    hide BigEndian, Xor;
    XorIsCaret(x, y);
  }

  lemma HelloUnmasked()
    ensures Masked([0x7f, 0x9f, 0x4d, 0x51, 0x58], [0x37, 0xfa, 0x21, 0x3d]) == [0x48, 0x65, 0x6c, 0x6c, 0x6f]
  {
    hide Xor;
    XorIsCaret(0x7f, 0x37);
    XorIsCaret(0x9f, 0xfa);
    XorIsCaret(0x4d, 0x21);
    XorIsCaret(0x51, 0x3d);
    XorIsCaret(0x58, 0x37);
  }

  /** The example of a masked text in RFC 6455 section 5.7: "Hello". */
  lemma MaskedHello()
    ensures ParseFrame([0x81, 0x85, 0x37, 0xfa, 0x21, 0x3d, 0x7f, 0x9f, 0x4d, 0x51, 0x58]) ==
            Whole(Frame(true, 1, [0x48, 0x65, 0x6c, 0x6c, 0x6f]), 11)
  {
    hide Masked, ParseFrame;
    var h: bytes, body: bytes := [0x81, 0x85, 0x37, 0xfa, 0x21, 0x3d], [0x7f, 0x9f, 0x4d, 0x51, 0x58];
    assert h[|h| - 4..] == [0x37, 0xfa, 0x21, 0x3d];
    HelloUnmasked();
    HeaderThenBody(h, body);
    assert h + body == [0x81, 0x85, 0x37, 0xfa, 0x21, 0x3d, 0x7f, 0x9f, 0x4d, 0x51, 0x58];
  }

  lemma StandardFields()
    ensures LengthField(256, 2) == [1, 0] && LengthField(65536, 4) == [0, 1, 0, 0]
  {
    assert LengthField(1, 1) == LengthField(0, 0) + [1] && LengthField(0, 0) == [];
    assert LengthField(256, 2) == LengthField(1, 1) + [0];
    assert LengthField(1, 2) == LengthField(0, 1) + [1] && LengthField(0, 1) == [0];
    assert LengthField(256, 3) == LengthField(1, 2) + [0];
    assert LengthField(65536, 4) == LengthField(256, 3) + [0];
  }

  /** The other headers there, for a fragmented "Hello", 256 octets and 64 KiB; and what the generator writes for "a". */
  lemma StandardHeaders()
    ensures Header(3, 1, false, []) == [0x01, 0x03] && Header(2, 0, true, []) == [0x80, 0x02]
    ensures Header(256, 2, true, []) == [0x82, 0x7e, 0x01, 0x00]
    ensures Header(65536, 2, true, []) == [0x82, 0x7f, 0, 0, 0, 0, 0, 1, 0, 0]
    ensures Header(1, 1, true, GeneratorKey(true)) == [0x81, 0x81, 0x1a, 0x2b, 0x3c, 0x4d]
  {
    hide LengthField;
    StandardFields();
  }
}
