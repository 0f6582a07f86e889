/** IPv6 addresses as text (deps/libuv/src/inet.c): `inet_ntop6` and `inet_pton6`. A C string is its characters before the NUL. */
module Inet6 {
  import opened Bytes
  import opened Inet4
  import opened Sequences

  type word = x: int | 0 <= x < 0x1_0000

  function Octets2(w: word): (r: bytes)
    ensures |r| == 2
  {
    [w / 256, w % 256]
  }

  function Flat(words: seq<word>): (r: bytes)
    ensures |r| == 2 * |words|
  {
    if words == [] then [] else Flat(words[..|words| - 1]) + Octets2(words[|words| - 1])
  }

  // ----- the run that :: stands for -----

  predicate ZeroRun(words: seq<word>, base: nat, len: nat) {
    base + len <= |words| && forall i :: base <= i < base + len ==> words[i] == 0
  }

  /** The first of the longest runs of at least two zero words, as RFC 5952, section 4.2, has it; negative for none. */
  ghost predicate IsBest(words: seq<word>, base: int, len: nat) {
    if base < 0 then forall b: nat, l: nat :: ZeroRun(words, b, l) ==> l < 2
    else
      && len >= 2 && ZeroRun(words, base, len)
      && forall b: nat, l: nat :: ZeroRun(words, b, l) ==> l < len || (l == len && base <= b)
  }

  /** `best` is the first of the longest among the runs that end by `i`. */
  ghost predicate BestUpTo(words: seq<word>, i: nat, best: int, len: nat) {
    && (best >= 0 ==> len > 0 && best + len <= i && ZeroRun(words, best, len))
    && forall b: nat, l: nat :: l > 0 && b + l <= i && ZeroRun(words, b, l) ==>
         best >= 0 && (l < len || (l == len && best <= b))
  }

  /** `cur` is where the run that reaches up to `i` begins, if there is one. */
  ghost predicate RunUpTo(words: seq<word>, i: nat, cur: int) {
    && i <= |words|
    && (if cur < 0 then i > 0 ==> words[i - 1] != 0
        else cur < i && ZeroRun(words, cur, i - cur) && (cur > 0 ==> words[cur - 1] != 0))
  }

  lemma LongerRun(words: seq<word>, i: nat, best: int, len: nat, cur: nat)
    requires RunUpTo(words, i, cur) && BestUpTo(words, cur, best, len)
    ensures var l := i - cur; if best < 0 || l > len then BestUpTo(words, i, cur, l) else BestUpTo(words, i, best, len)
  {
    forall b: nat, l: nat | b < cur < b + l <= i
      ensures !ZeroRun(words, b, l)
    {
      assert b <= cur - 1 < b + l;
    }
  }

  lemma PastNonZero(words: seq<word>, i: nat, best: int, len: nat)
    requires i < |words| && words[i] != 0 && BestUpTo(words, i, best, len)
    ensures BestUpTo(words, i + 1, best, len)
  {
    forall b: nat, l: nat | l > 0 && b + l == i + 1
      ensures !ZeroRun(words, b, l)
    {
      assert b <= i < b + l;
    }
  }

  /** The search for the run, lines 89 to 112 of `inet_ntop6`. */
  method BestRun(words: seq<word>) returns (base: int, len: nat)
    ensures IsBest(words, base, len) && base >= -1
  {
    base, len := -1, 0;
    var curBase, curLen := -1, 0;
    var i := 0;
    while i < |words|
      invariant RunUpTo(words, i, curBase) && (curBase >= 0 ==> curLen == i - curBase)
      invariant curBase >= -1 && base >= -1
      invariant BestUpTo(words, if curBase >= 0 then curBase else i, base, len)
    {
      if words[i] == 0 {
        if curBase == -1 {
          curBase, curLen := i, 1;
        } else {
          curLen := curLen + 1;
        }
      } else {
        if curBase != -1 {
          LongerRun(words, i, base, len, curBase);
          if base == -1 || curLen > len {
            base, len := curBase, curLen;
          }
          curBase := -1;
        }
        PastNonZero(words, i, base, len);
      }
      i := i + 1;
    }
    if curBase != -1 {
      LongerRun(words, i, base, len, curBase);
      if base == -1 || curLen > len {
        base, len := curBase, curLen;
      }
    }
    if base != -1 && len < 2 {
      base := -1;
    }
  }

  // ----- inet_ntop6 -----

  function Word(src: bytes, i: nat): word
    requires 2 * i + 1 < |src|
  {
    var high: int := src[2 * i];
    high * 256 + src[2 * i + 1]
  }

  function Words(src: bytes): (r: seq<word>)
    requires |src| == 16
    ensures |r| == 8
  {
    seq(8, i requires 0 <= i < 8 => Word(src, i))
  }

  predicate InRun(base: int, len: nat, i: nat) {
    base >= 0 && base <= i < base + len
  }

  /** The last four octets are printed as an IPv4 address. */
  predicate Embedded(words: seq<word>, base: int, len: nat)
    requires |words| == 8
  {
    base == 0 && (len == 6 || (len == 7 && words[7] != 1) || (len == 5 && words[5] == 0xffff))
  }

  /** What the formatting loop prints from word `i` on. */
  function From(words: seq<word>, base: int, len: nat, i: nat): string
    requires |words| == 8 && i <= 8
    decreases 8 - i
  {
    if i == 8 then if base >= 0 && base + len == 8 then ":" else ""
    else if InRun(base, len, i) then (if i == base then ":" else "") + From(words, base, len, i + 1)
    else
      (if i != 0 then ":" else "") +
      if i == 6 && Embedded(words, base, len) then Text4(Octets2(words[6]) + Octets2(words[7]))
      else Numeral(16, words[i]) + From(words, base, len, i + 1)
  }

  function Text6(words: seq<word>, base: int, len: nat): string
    requires |words| == 8
  {
    From(words, base, len, 0)
  }

  lemma FourDigits(n: nat)
    requires n < 0x1_0000
    ensures |Numeral(16, n)| <= 4
  {
    if n >= 4096 {
      assert |Numeral(16, n / 16 / 16 / 16)| == 1;
      assert |Numeral(16, n / 16 / 16)| == 2;
    } else if n >= 256 {
      assert |Numeral(16, n / 16 / 16)| == 1;
    }
  }

  lemma {:induction false} FromFits(words: seq<word>, base: int, len: nat, i: nat)
    requires |words| == 8 && i <= 8
    ensures |From(words, base, len, i)| <= 5 * (8 - i) + if i <= 6 && Embedded(words, base, len) then 6 else 1
    decreases 8 - i
  {
    if i < 8 {
      FromFits(words, base, len, i + 1);
      FourDigits(words[i]);
      Text4Fits(Octets2(words[6]) + Octets2(words[7]));
    }
  }

  /** The buffer of 46 characters always suffices. */
  lemma Text6Fits(words: seq<word>, base: int, len: nat)
    requires |words| == 8
    ensures |Text6(words, base, len)| <= 45
  {
    FromFits(words, base, len, 1);
    FourDigits(words[0]);
  }

  /** What one turn of the formatting loop prints. */
  function Piece(words: seq<word>, base: int, len: nat, i: nat): string
    requires |words| == 8 && i < 8
  {
    if InRun(base, len, i) then if i == base then ":" else ""
    else
      (if i != 0 then ":" else "") +
      if i == 6 && Embedded(words, base, len) then Text4(Octets2(words[6]) + Octets2(words[7])) else Numeral(16, words[i])
  }

  lemma PieceInFront(words: seq<word>, base: int, len: nat, i: nat)
    requires |words| == 8 && i < 8
    ensures From(words, base, len, i) == Piece(words, base, len, i) +
              if i == 6 && Embedded(words, base, len) && !InRun(base, len, 6) then "" else From(words, base, len, i + 1)
  {
    hide Text4, Numeral, Embedded, Octets2, InRun;
  }

  lemma Turn(tmp: string, words: seq<word>, base: int, len: nat, i: nat)
    requires |words| == 8 && i < 8
    ensures tmp + From(words, base, len, i) == tmp + Piece(words, base, len, i) +
              if i == 6 && Embedded(words, base, len) && !InRun(base, len, 6) then "" else From(words, base, len, i + 1)
  {
    hide From, Piece, Embedded, InRun;
    PieceInFront(words, base, len, i);
  }

  /** One turn of the formatting loop behind `used` characters; `done` stands for its `break`. */
  method Format(src: bytes, words: seq<word>, base: int, len: nat, i: nat, used: nat) returns (piece: string, done: bool)
    requires |src| == 16 && |words| == 8 && i < 8 && base >= -1
    requires src[12..] == Octets2(words[6]) + Octets2(words[7])
    requires base == 0 ==> used <= if i <= len then 1 else 1 + 5 * (i - len)
    ensures piece == Piece(words, base, len, i) && (done <==> i == 6 && Embedded(words, base, len) && !InRun(base, len, 6))
  {
    hide Numeral, Text4, Octets2;
    done := false;
    if base != -1 && i >= base && i < base + len {
      return if i == base then ":" else "", false;
    }
    var separator := if i != 0 then ":" else "";
    if i == 6 && Embedded(words, base, len) {
      var part := Ntop4(src[12..], 46 - (used + |separator|));
      return separator + part.text, true;
    }
    piece := separator + Numeral(16, words[i]);
  }

  /** The formatting loop and what follows it, lines 117 to 144. */
  method FormatAll(src: bytes, words: seq<word>, base: int, len: nat) returns (tmp: string)
    requires |src| == 16 && words == Words(src) && base >= -1
    ensures tmp == Text6(words, base, len)
  {
    hide From, Numeral, Text4, Octets2, Words, Piece, Embedded, InRun;
    tmp := "";
    var i, done := 0, false;
    LastWords(src);
    assert tmp + From(words, base, len, 0) == From(words, base, len, 0);
    while i < 8 && !done
      invariant i <= 8 && tmp + (if done then "" else From(words, base, len, i)) == Text6(words, base, len)
      invariant base == 0 && !done ==> |tmp| <= if i == 0 then 0 else if i <= len then 1 else 1 + 5 * (i - len)
      invariant done ==> base == 0 && len < 8
      decreases 8 - i, !done
    {
      Turn(tmp, words, base, len, i);
      NextRoom(words, base, len, i, |tmp|);
      var piece;
      piece, done := Format(src, words, base, len, i, |tmp|);
      tmp := tmp + piece;
      i := i + 1;
    }
    Ends(words, base, len);
    if base != -1 && base + len == 8 {
      tmp := tmp + ":";
    }
    assert tmp + "" == tmp;
  }

  lemma PieceFits(words: seq<word>, base: int, len: nat, i: nat)
    requires |words| == 8 && i < 8
    ensures InRun(base, len, i) ==> |Piece(words, base, len, i)| <= if i == base then 1 else 0
    ensures !(i == 6 && Embedded(words, base, len)) ==> |Piece(words, base, len, i)| <= 5
  {
    FourDigits(words[i]);
  }

  /** At most five characters for every word behind the run, as long as no IPv4 address is printed. */
  lemma NextRoom(words: seq<word>, base: int, len: nat, i: nat, used: nat)
    requires |words| == 8 && i < 8 && (base == 0 ==> used <= if i == 0 then 0 else if i <= len then 1 else 1 + 5 * (i - len))
    ensures i == 6 && Embedded(words, base, len) && !InRun(base, len, 6) ==> base == 0 && len < 8
    ensures base == 0 && !(i == 6 && Embedded(words, base, len) && !InRun(base, len, 6)) ==>
              used + |Piece(words, base, len, i)| <= if i + 1 <= len then 1 else 1 + 5 * (i + 1 - len)
  {
    hide Piece;
    PieceFits(words, base, len, i);
  }

  lemma Ends(words: seq<word>, base: int, len: nat)
    requires |words| == 8
    ensures From(words, base, len, 8) == if base >= 0 && base + len == 8 then ":" else ""
  {
  }

  method Ntop6(src: bytes, size: nat) returns (r: Printed, ghost base: int, ghost len: nat)
    requires |src| == 16
    ensures IsBest(Words(src), base, len)
    ensures var text := Text6(Words(src), base, len); r == if |text| + 1 > size then Enospc else Text(text)
    ensures size >= 46 ==> r.Text?
  {
    var words := Words(src);
    var bestBase, bestLen := BestRun(words);
    base, len := bestBase, bestLen;
    Text6Fits(words, base, len);
    var tmp := FormatAll(src, words, bestBase, bestLen);
    r := if |tmp| + 1 > size then Enospc else Text(tmp);
  }

  lemma LastWords(src: bytes)
    requires |src| == 16
    ensures src[12..] == Octets2(Words(src)[6]) + Octets2(Words(src)[7])
  {
  }

  // ----- inet_pton6 -----

  /** The octets so far, where :: stood, the digits and value of the current group, and the text from its start. */
  datatype Scan6 = Scan6(out: bytes, colon: int, seen: nat, val: nat, tok: string)

  /** Lines 283 to 308: the last group, and the octets behind :: moved to the end. */
  function Finish6(st: Scan6): Parsed {
    if st.seen > 0 && |st.out| + 2 > 16 then Einval
    else
      var out := if st.seen > 0 then st.out + Octets2(st.val % 0x1_0000) else st.out;
      if 0 <= st.colon <= |out| then
        if |out| >= 16 then Einval else Address(out[..st.colon] + Repeat<byte>(0, 16 - |out|) + out[st.colon..])
      else if |out| != 16 then Einval
      else Address(out)
  }

  /** What the loop of `inet_pton6` and the code behind it make of the rest of the string. */
  function ParseFrom6(s: string, st: Scan6): Parsed {
    if s == "" then Finish6(st)
    else
      var d := Find(s[0], 16);
      if d >= 0 then
        if st.seen + 1 > 4 then Einval else ParseFrom6(s[1..], st.(seen := st.seen + 1, val := st.val * 16 + d))
      else if s[0] == ':' then
        if st.seen == 0 then
          if st.colon >= 0 then Einval else ParseFrom6(s[1..], st.(colon := |st.out|, tok := s[1..]))
        else if s[1..] == "" || |st.out| + 2 > 16 then Einval
        else ParseFrom6(s[1..], Scan6(st.out + Octets2(st.val % 0x1_0000), st.colon, 0, 0, s[1..]))
      else if s[0] == '.' && |st.out| + 4 <= 16 then
        match Parse4(st.tok)
        case Address(a) => Finish6(st.(out := st.out + a, seen := 0))
        case Einval => Einval
      else Einval
  }

  function Parse6(s: string): Parsed {
    if s != "" && s[0] == ':' then
      if s[1..] == "" || s[1] != ':' then Einval else ParseFrom6(s[1..], Scan6([], -1, 0, 0, s[1..]))
    else ParseFrom6(s, Scan6([], -1, 0, 0, s))
  }

  lemma GapOpened(was: bytes, now: bytes, tp: nat, colonp: nat)
    requires |was| == |now| == 16 && colonp <= tp < 16
    requires forall k :: 0 <= k < colonp ==> now[k] == was[k]
    requires forall k :: colonp <= k < 16 - (tp - colonp) ==> now[k] == 0
    requires forall k :: 16 - (tp - colonp) <= k < 16 ==> now[k] == was[k - (16 - tp)]
    ensures now == was[..colonp] + Repeat<byte>(0, 16 - tp) + was[colonp..tp]
  {
    var n := tp - colonp;
    assert now[..colonp] == was[..colonp];
    assert now[colonp..16 - n] == Repeat<byte>(0, 16 - tp);
    assert now[16 - n..] == was[colonp..tp];
    assert now == now[..colonp] + now[colonp..16 - n] + now[16 - n..];
  }

  /** Lines 289 to 304: the octets from `colonp` on move to the end of the buffer, in place. */
  method OpenGap(tmp: array<byte>, tp: nat, colonp: nat)
    requires tmp.Length == 16 && colonp <= tp < 16 && forall k :: tp <= k < 16 ==> tmp[k] == 0
    modifies tmp
    ensures tmp[..] == old(tmp[..colonp]) + Repeat<byte>(0, 16 - tp) + old(tmp[colonp..tp])
  {
    var n := tp - colonp;
    ghost var was := tmp[..];
    var i := 1;
    while i <= n
      invariant 1 <= i <= n + 1
      invariant forall k :: 0 <= k <= tp - i ==> tmp[k] == was[k]
      invariant forall k :: 16 - i < k < 16 ==> tmp[k] == was[k - (16 - tp)]
      invariant forall k :: tp - i < k <= 16 - i ==> tmp[k] == 0
    {
      tmp[16 - i] := tmp[colonp + n - i];
      tmp[colonp + n - i] := 0;
      i := i + 1;
    }
    GapOpened(was, tmp[..], tp, colonp);
  }

  /** The loop of `inet_pton6`, from the character at `from` on: the state it ends in, or failure. */
  method Scan(src: string, from: nat, tmp: array<byte>) returns (ok: bool, tp: nat, colonp: int, seen: nat, val: nat)
    requires from <= |src| && tmp.Length == 16 && forall k :: 0 <= k < 16 ==> tmp[k] == 0
    modifies tmp
    ensures ok ==> -1 <= colonp <= tp <= 16 && forall k :: tp <= k < 16 ==> tmp[k] == 0
    ensures ParseFrom6(src[from..], Scan6([], -1, 0, 0, src[from..])) ==
            if ok then Finish6(Scan6(tmp[..tp], colonp, seen, val, "")) else Einval
  {
    hide Parse4, Octets2, Finish6;
    ghost var all := ParseFrom6(src[from..], Scan6([], -1, 0, 0, src[from..]));
    var i, curtok := from, from;
    tp, colonp, seen, val := 0, -1, 0, 0;
    while i < |src|
      invariant curtok <= i <= |src| && -1 <= colonp <= tp <= 16 && forall k :: tp <= k < 16 ==> tmp[k] == 0
      invariant all == ParseFrom6(src[i..], Scan6(tmp[..tp], colonp, seen, val, src[curtok..]))
    {
      var ch := src[i];
      assert src[i..][0] == ch && src[i..][1..] == src[i + 1..];
      i := i + 1;
      var d := Find(ch, 16);
      if d >= 0 {
        val, seen := val * 16 + d, seen + 1;
        if seen > 4 {
          return false, tp, colonp, seen, val;
        }
        continue;
      }
      if ch == ':' {
        curtok := i;
        if seen == 0 {
          if colonp >= 0 {
            return false, tp, colonp, seen, val;
          }
          colonp := tp;
          continue;
        } else if i == |src| {
          return false, tp, colonp, seen, val;
        }
        if tp + 2 > 16 {
          return false, tp, colonp, seen, val;
        }
        tp := Store(tmp, tp, val);
        seen, val := 0, 0;
        continue;
      }
      if ch == '.' && tp + 4 <= 16 {
        var a := Pton4(src[curtok..]);
        if a.Address? {
          FourOctets(src[curtok..]);
          tp := Copy(tmp, tp, a.octets);
          FinishIgnores(tmp[..tp], colonp, val, src[curtok..]);
          return true, tp, colonp, 0, val;
        }
      }
      return false, tp, colonp, seen, val;
    }
    assert src[i..] == "";
    FinishIgnoresToken(Scan6(tmp[..tp], colonp, seen, val, src[curtok..]));
    ok := true;
  }

  lemma FinishIgnoresToken(st: Scan6)
    ensures Finish6(st.(tok := "")) == Finish6(st)
  {
  }

  lemma FinishIgnores(out: bytes, colon: int, val: nat, tok: string)
    ensures Finish6(Scan6(out, colon, 0, val, "")) == Finish6(Scan6(out, colon, 0, val, tok))
  {
  }

  lemma FourOctets(s: string)
    requires Parse4(s).Address?
    ensures |Parse4(s).octets| == 4
  {
    Inverse4(s, Parse4(s).octets);
  }

  lemma LowOctets(val: nat)
    ensures val % 0x1_0000 / 256 == val / 256 % 256 && val % 0x1_0000 % 256 == val % 256
  {
    var q, r := val / 0x1_0000, val % 0x1_0000;
    assert val == 256 * (256 * q + r / 256) + r % 256;
    assert val / 256 == 256 * q + r / 256;
  }

  method Store(tmp: array<byte>, tp: nat, val: nat) returns (tp': nat)
    requires tp + 2 <= tmp.Length
    modifies tmp
    ensures tp' == tp + 2 && tmp[..tp'] == old(tmp[..tp]) + Octets2(val % 0x1_0000) && tmp[tp'..] == old(tmp[tp'..])
  {
    LowOctets(val);
    var high, low := val / 256 % 256, val % 256;
    assert Octets2(val % 0x1_0000) == [high, low];
    tmp[tp] := high;
    tmp[tp + 1] := low;
    tp' := tp + 2;
  }

  method Copy(tmp: array<byte>, tp: nat, a: bytes) returns (tp': nat)
    requires tp + |a| <= tmp.Length
    modifies tmp
    ensures tp' == tp + |a| && tmp[..tp'] == old(tmp[..tp]) + a && tmp[tp'..] == old(tmp[tp'..])
  {
    forall k | 0 <= k < |a| {
      tmp[tp + k] := a[k];
    }
    tp' := tp + |a|;
  }

  method Pton6(src: string) returns (r: Parsed)
    ensures r == Parse6(src)
  {
    var from := 0;
    if src != "" && src[0] == ':' {
      from := 1;
      if src[1..] == "" || src[1] != ':' {
        return Einval;
      }
    }
    assert src[0..] == src;
    var tmp := new byte[16](_ => 0);
    var ok, tp, colonp, seen, val := Scan(src, from, tmp);
    if !ok {
      return Einval;
    }
    if seen > 0 {
      if tp + 2 > 16 {
        return Einval;
      }
      tp := Store(tmp, tp, val);
    }
    if colonp >= 0 {
      if tp == 16 {
        return Einval;
      }
      OpenGap(tmp, tp, colonp);
      tp := 16;
    }
    if tp != 16 {
      return Einval;
    }
    return Address(tmp[..]);
  }

  /** `uv_inet_pton` for AF_INET6: a zone index behind a percent sign is cut off. */
  method UvPton6(src: string) returns (r: Parsed)
    ensures forall p: nat :: p < |src| && src[p] == '%' && '%' !in src[..p] ==>
              r == if p > 45 then Einval else Parse6(src[..p])
    ensures '%' !in src ==> r == Parse6(src)
  {
    var p := 0;
    while p < |src| && src[p] != '%'
      invariant p <= |src| && '%' !in src[..p]
    {
      p := p + 1;
    }
    if p == |src| {
      r := Pton6(src);
    } else if p > 45 {
      r := Einval;
    } else {
      r := Pton6(src[..p]);
    }
  }

  lemma ReadDigit(d: nat, s: string, st: Scan6)
    requires d < 16 && st.seen < 4
    ensures ParseFrom6([Digit(d)] + s, st) == ParseFrom6(s, st.(seen := st.seen + 1, val := st.val * 16 + d))
  {
    hide Digit, Find, ParseFrom6;
    FindDigit(d, 16);
    OneDigit(Digit(d), d, s, st);
  }

  lemma OneDigit(ch: char, d: nat, s: string, st: Scan6)
    requires Find(ch, 16) == d && st.seen < 4
    ensures ParseFrom6([ch] + s, st) == ParseFrom6(s, st.(seen := st.seen + 1, val := st.val * 16 + d))
  {
    hide Find, ParseFrom6;
    assert ([ch] + s)[0] == ch && ([ch] + s)[1..] == s;
    DigitStep([ch] + s, st);
  }

  lemma DigitStep(s: string, st: Scan6)
    requires s != "" && Find(s[0], 16) >= 0 && st.seen < 4
    ensures ParseFrom6(s, st) == ParseFrom6(s[1..], st.(seen := st.seen + 1, val := st.val * 16 + Find(s[0], 16)))
  {
    hide Find, Parse4, Finish6, Octets2;
  }

  lemma NumeralStep(base: nat, n: nat, s: string)
    requires base == 10 || base == 16
    ensures n >= base ==> Numeral(base, n) + s == Numeral(base, n / base) + ([Digit(n % base)] + s)
    ensures n >= base ==> |Numeral(base, n)| == |Numeral(base, n / base)| + 1
    ensures n < base ==> Numeral(base, n) == [Digit(n)]
  {
    hide Digit;
  }

  lemma ReadColon(s: string, st: Scan6)
    ensures var r := ParseFrom6(":" + s, st);
            if st.seen == 0 then
              if st.colon >= 0 then r == Einval else r == ParseFrom6(s, st.(colon := |st.out|, tok := s))
            else if s == "" || |st.out| + 2 > 16 then r == Einval
            else r == ParseFrom6(s, Scan6(st.out + Octets2(st.val % 0x1_0000), st.colon, 0, 0, s))
  {
    assert (":" + s)[0] == ':' && (":" + s)[1..] == s;
  }

  // ----- parsing undoes printing -----

  lemma {:induction false} FlatJoin(a: seq<word>, b: seq<word>)
    ensures Flat(a + b) == Flat(a) + Flat(b)
  {
    hide Octets2;
    if b == [] {
      assert a + b == a;
    } else {
      var rest := b[..|b| - 1];
      FlatJoin(a, rest);
      assert (a + b)[..|a + b| - 1] == a + rest;
    }
  }

  lemma {:induction false} FlatZeros(words: seq<word>)
    requires forall i :: 0 <= i < |words| ==> words[i] == 0
    ensures Flat(words) == Repeat<byte>(0, 2 * |words|)
  {
    if words != [] {
      FlatZeros(words[..|words| - 1]);
    }
  }

  lemma FlatStep(words: seq<word>, j: nat, k: nat)
    requires j <= k < |words|
    ensures Flat(words[j..k + 1]) == Flat(words[j..k]) + Octets2(words[k])
  {
    FlatJoin(words[j..k], [words[k]]);
    assert words[j..k + 1] == words[j..k] + [words[k]];
    assert [words[k]][..0] == [] && Flat([words[k]]) == Octets2(words[k]);
  }

  lemma FlatGap(a: seq<word>, z: seq<word>, b: seq<word>)
    requires forall i :: 0 <= i < |z| ==> z[i] == 0
    ensures Flat(a + z + b) == Flat(a) + Repeat<byte>(0, 2 * |z|) + Flat(b)
  {
    hide Flat, Repeat;
    FlatJoin(a + z, b);
    FlatJoin(a, z);
    FlatZeros(z);
  }

  lemma {:induction false} ReadDecimal(n: nat, s: string, st: Scan6) returns (v: nat)
    requires n < 256 && st.seen == 0
    ensures ParseFrom6(Numeral(10, n) + s, st) == ParseFrom6(s, st.(seen := |Numeral(10, n)|, val := v))
    decreases n
  {
    ThreeDigits(n);
    NumeralStep(10, n, s);
    if n < 10 {
      ReadDigit(n, s, st);
      v := st.val * 16 + n;
    } else {
      var w := ReadDecimal(n / 10, [Digit(n % 10)] + s, st);
      ReadDigit(n % 10, s, st.(seen := |Numeral(10, n / 10)|, val := w));
      v := w * 16 + n % 10;
    }
  }

  lemma ReadEmbedded(a: bytes, out: bytes, colon: int) returns (v: nat)
    requires |a| == 4 && |out| <= 12
    ensures ParseFrom6(Text4(a), Scan6(out, colon, 0, 0, Text4(a))) == Finish6(Scan6(out + a, colon, 0, v, Text4(a)))
  {
    ReadsBack4(a);
    var rest := "." + (Numeral(10, a[1]) + ("." + (Numeral(10, a[2]) + ("." + Numeral(10, a[3])))));
    Joined(a);
    v := ReadDecimal(a[0], rest, Scan6(out, colon, 0, 0, Text4(a)));
    assert rest[0] == '.' && Find('.', 16) == -1;
  }

  lemma FlatWords(src: bytes)
    requires |src| == 16
    ensures Flat(Words(src)) == src
  {
    FlatPrefix(src, 8);
    assert Words(src)[..8] == Words(src) && src[..16] == src;
  }

  lemma {:induction false} FlatPrefix(src: bytes, k: nat)
    requires |src| == 16 && k <= 8
    ensures Flat(Words(src)[..k]) == src[..2 * k]
  {
    if k > 0 {
      FlatPrefix(src, k - 1);
      FlatStep(Words(src), 0, k - 1);
      assert Words(src)[0..k] == Words(src)[..k] && Words(src)[0..k - 1] == Words(src)[..k - 1];
      assert Octets2(Words(src)[k - 1]) == src[2 * (k - 1)..2 * k];
    }
  }
}
