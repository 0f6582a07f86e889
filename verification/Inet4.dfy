/** IPv4 addresses as text (deps/libuv/src/inet.c), and the numerals both codecs of the file use. */
module Inet4 {
  import opened Bytes

  datatype Parsed = Address(octets: bytes) | Einval
  datatype Printed = Text(text: string) | Enospc

  function Digit(d: nat): (c: char)
    requires d < 16
  {
    if d < 10 then '0' + d as char else 'a' + (d - 10) as char
  }

  /** Where `strchr` finds a digit of the base, in either case, or -1. */
  function Find(ch: char, base: nat): int {
    if '0' <= ch <= '9' then ch as int - '0' as int
    else if base == 16 && 'a' <= ch <= 'f' then ch as int - 'a' as int + 10
    else if base == 16 && 'A' <= ch <= 'F' then ch as int - 'A' as int + 10
    else -1
  }

  lemma FindDigit(d: nat, base: nat)
    requires d < base && (base == 10 || base == 16)
    ensures Find(Digit(d), base) == d
  {
  }

  /** What `%u` (base 10) and `%x` (base 16) print. */
  function Numeral(base: nat, n: nat): (s: string)
    requires base == 10 || base == 16
    ensures s != ""
    decreases n
  {
    if n < base then [Digit(n)] else Numeral(base, n / base) + [Digit(n % base)]
  }

  /** A character that stands for the digit `v`, in either case. */
  ghost predicate Stands(ch: char, v: nat) {
    v < 16 && (ch == "0123456789abcdef"[v] || ch == "0123456789ABCDEF"[v])
  }

  /** The numeral `t` has the value `n` in the given base; leading zeros are allowed. */
  ghost predicate Spells(base: nat, t: string, n: nat)
    requires base == 10 || base == 16
    decreases |t|
  {
    if t == "" then n == 0 else Spells(base, t[..|t| - 1], n / base) && Stands(t[|t| - 1], n % base)
  }

  /** The search of the source finds exactly the digits of the base, with their values. */
  lemma FindStands(ch: char, base: nat, v: nat)
    requires base == 10 || base == 16
    ensures Find(ch, base) == v <==> v < base && Stands(ch, v)
  {
    if v < 16 {
      assert "0123456789abcdef"[v] == if v < 10 then '0' + v as char else 'a' + (v - 10) as char;
      assert "0123456789ABCDEF"[v] == if v < 10 then '0' + v as char else 'A' + (v - 10) as char;
    }
  }

  /** Printed digits are those in lower case. */
  lemma DigitIs(d: nat)
    requires d < 16
    ensures Digit(d) == "0123456789abcdef"[d] && Stands(Digit(d), d) && Digit(d) != ':' && (Digit(d) == '0' <==> d == 0)
  {
  }

  /** What is printed for a number: its numeral in lower case, without leading zeros. */
  ghost predicate Shortest(base: nat, t: string, n: nat)
    requires base == 10 || base == 16
  {
    && t != "" && Spells(base, t, n) && (|t| > 1 ==> t[0] != '0')
    && forall i :: 0 <= i < |t| ==> t[i] in "0123456789abcdef"
  }

  lemma {:induction false} NumeralIsShortest(base: nat, n: nat)
    requires base == 10 || base == 16
    ensures Shortest(base, Numeral(base, n), n) && Numeral(base, n)[0] != ':' && (Numeral(base, n)[0] == '0' ==> n == 0)
    decreases n
  {
    DigitIs(n % base);
    if n < base {
      assert Numeral(base, n)[..0] == "";
    } else {
      NumeralIsShortest(base, n / base);
      var t := Numeral(base, n);
      assert t[..|t| - 1] == Numeral(base, n / base);
    }
  }

  /** `inet_ntop4` for a buffer of `size` characters. */
  function Text4(a: bytes): string
    requires |a| == 4
  {
    Numeral(10, a[0]) + "." + Numeral(10, a[1]) + "." + Numeral(10, a[2]) + "." + Numeral(10, a[3])
  }

  method Ntop4(src: bytes, size: nat) returns (r: Printed)
    requires |src| == 4
    ensures r == if |Text4(src)| >= size then Enospc else Text(Text4(src))
    ensures size >= 16 ==> r.Text?
  {
    var tmp := Text4(src);
    Text4Fits(src);
    r := if |tmp| >= size then Enospc else Text(tmp);
  }

  lemma Text4Fits(a: bytes)
    requires |a| == 4
    ensures |Text4(a)| <= 15
  {
    ThreeDigits(a[0]);
    ThreeDigits(a[1]);
    ThreeDigits(a[2]);
    ThreeDigits(a[3]);
  }

  lemma ThreeDigits(n: nat)
    requires n < 256
    ensures |Numeral(10, n)| <= 3
  {
    if n >= 100 {
      assert |Numeral(10, n / 10 / 10)| == 1;
    }
  }

  // ----- inet_pton4 -----

  /** The octets before the current one, the current one, and whether it has a digit yet. */
  datatype Scan4 = Scan4(before: seq<nat>, current: nat, sawDigit: bool)

  function Octets(st: Scan4): nat {
    |st.before| + if st.sawDigit then 1 else 0
  }

  predicate Accepts(st: Scan4, ch: char) {
    var d := Find(ch, 10);
    if d >= 0 then !(st.sawDigit && st.current == 0) && st.current * 10 + d <= 255 && (st.sawDigit || Octets(st) < 4)
    else ch == '.' && st.sawDigit && Octets(st) != 4
  }

  function Step4(st: Scan4, ch: char): Scan4
    requires Accepts(st, ch)
  {
    var d := Find(ch, 10);
    if d >= 0 then Scan4(st.before, st.current * 10 + d, true) else Scan4(st.before + [st.current], 0, false)
  }

  /** What the loop and the check behind it make of the rest of the string. */
  function ParseFrom4(s: string, st: Scan4): Parsed
    requires forall i :: 0 <= i < |st.before| ==> st.before[i] < 256
    requires st.current < 256
  {
    if s == "" then
      if Octets(st) < 4 then Einval else Address(st.before + if st.sawDigit then [st.current] else [])
    else if Accepts(st, s[0]) then ParseFrom4(s[1..], Step4(st, s[0]))
    else Einval
  }

  const START4 := Scan4([], 0, false)

  function Parse4(s: string): Parsed {
    ParseFrom4(s, START4)
  }

  method Pton4(src: string) returns (r: Parsed)
    ensures r == Parse4(src)
  {
    var sawDigit, octets, tp := false, 0, 0;
    var tmp := new byte[4](_ => 0);
    ghost var st := START4;
    var i := 0;
    while i < |src|
      invariant i <= |src| && tp < 4 && octets == Octets(st) <= 4
      invariant st == Scan4(tmp[..tp], tmp[tp], sawDigit)
      invariant Parse4(src) == ParseFrom4(src[i..], st)
    {
      var ch := src[i];
      i := i + 1;
      ghost var was := st;
      st := if Accepts(st, ch) then Step4(st, ch) else st;
      var d := Find(ch, 10);
      if d >= 0 {
        var nw: int := tmp[tp] * 10 + d;
        if sawDigit && tmp[tp] == 0 {
          return Einval;
        }
        if nw > 255 {
          return Einval;
        }
        tmp[tp] := nw;
        if !sawDigit {
          octets := octets + 1;
          if octets > 4 {
            return Einval;
          }
          sawDigit := true;
        }
      } else if ch == '.' && sawDigit {
        if octets == 4 {
          return Einval;
        }
        tp := tp + 1;
        tmp[tp] := 0;
        sawDigit := false;
      } else {
        return Einval;
      }
    }
    if octets < 4 {
      return Einval;
    }
    return Address(tmp[..]);
  }

  // ----- parsing and printing undo each other -----

  lemma {:induction false} ReadOctet(n: nat, s: string, before: seq<nat>)
    requires n < 256 && |before| < 4 && forall i :: 0 <= i < |before| ==> before[i] < 256
    ensures ParseFrom4(Numeral(10, n) + s, Scan4(before, 0, false)) == ParseFrom4(s, Scan4(before, n, true))
    decreases n
  {
    FindDigit(n % 10, 10);
    var last := [Digit(n % 10)] + s;
    assert last[0] == Digit(n % 10) && last[1..] == s;
    if n < 10 {
      assert Numeral(10, n) + s == last;
    } else {
      ReadOctet(n / 10, last, before);
      assert Numeral(10, n) + s == Numeral(10, n / 10) + last;
    }
  }

  lemma ReadDot(n: nat, s: string, before: seq<nat>)
    requires n < 256 && |before| < 3 && forall i :: 0 <= i < |before| ==> before[i] < 256
    ensures ParseFrom4(Numeral(10, n) + ("." + s), Scan4(before, 0, false)) ==
            ParseFrom4(s, Scan4(before + [n], 0, false))
  {
    ReadOctet(n, "." + s, before);
    assert ("." + s)[0] == '.' && ("." + s)[1..] == s;
  }

  /** `inet_pton4` reads back what `inet_ntop4` prints. */
  lemma ReadsBack4(a: bytes)
    requires |a| == 4
    ensures Parse4(Text4(a)) == Address(a)
  {
    hide Digit, Find, Numeral, Text4, Octets, Accepts, ParseFrom4;
    var d := Numeral(10, a[3]);
    var c := Numeral(10, a[2]) + ("." + d);
    var b := Numeral(10, a[1]) + ("." + c);
    Joined(a);
    ReadDot(a[0], b, []);
    ReadDot(a[1], c, [a[0]]);
    ReadDot(a[2], d, [a[0], a[1]]);
    assert [] + [a[0]] == [a[0]] && [a[0]] + [a[1]] == [a[0], a[1]] && [a[0], a[1]] + [a[2]] == [a[0], a[1], a[2]];
    ReadOctet(a[3], "", [a[0], a[1], a[2]]);
    assert d + "" == d;
    AllRead(a);
  }

  lemma Joined(a: bytes)
    requires |a| == 4
    ensures Text4(a) == Numeral(10, a[0]) + ("." + (Numeral(10, a[1]) + ("." + (Numeral(10, a[2]) + ("." + Numeral(10, a[3]))))))
  {
    hide Numeral;
  }

  lemma AllRead(a: bytes)
    requires |a| == 4
    ensures ParseFrom4("", Scan4([a[0], a[1], a[2]], a[3], true)) == Address(a)
  {
    assert [a[0], a[1], a[2]] + [a[3]] == a;
  }

  function Dotted(before: seq<nat>): string {
    if before == [] then "" else Dotted(before[..|before| - 1]) + Numeral(10, before[|before| - 1]) + "."
  }

  /** The text that leads to a scanner state. */
  function Sofar(st: Scan4): string {
    Dotted(st.before) + if st.sawDigit then Numeral(10, st.current) else ""
  }

  predicate Scanning(st: Scan4) {
    |st.before| <= 3 && (!st.sawDigit ==> st.current == 0)
  }

  lemma StepText(st: Scan4, ch: char)
    requires Scanning(st) && Accepts(st, ch)
    ensures Scanning(Step4(st, ch)) && Sofar(Step4(st, ch)) == Sofar(st) + [ch]
  {
    var d := Find(ch, 10);
    if d >= 0 {
      assert ch == Digit(d);
      if st.sawDigit {
        assert Numeral(10, st.current * 10 + d) == Numeral(10, st.current) + [ch];
      } else {
        assert Numeral(10, d) == [ch];
      }
    } else {
      assert (st.before + [st.current])[..|st.before|] == st.before;
    }
  }

  lemma {:induction false} AcceptedText(s: string, st: Scan4)
    requires Scanning(st) && st.current < 256 && forall i :: 0 <= i < |st.before| ==> st.before[i] < 256
    requires ParseFrom4(s, st).Address?
    ensures var a := ParseFrom4(s, st).octets; |a| == 4 && Sofar(st) + s == Text4(a)
    decreases |s|
  {
    if s == "" {
      Finished(st);
      assert Sofar(st) + s == Sofar(st);
    } else {
      StepText(st, s[0]);
      AcceptedText(s[1..], Step4(st, s[0]));
      assert Sofar(st) + s == Sofar(st) + [s[0]] + s[1..];
    }
  }

  lemma Finished(st: Scan4)
    requires |st.before| == 3 && st.sawDigit && st.current < 256 && forall i :: 0 <= i < |st.before| ==> st.before[i] < 256
    ensures Sofar(st) == Text4(st.before + [st.current])
  {
    var b := st.before;
    assert b[..2][..1] == b[..1] && b[..1][..0] == [];
    assert Dotted(b[..1]) == Numeral(10, b[0]) + ".";
    assert Dotted(b[..2]) == Dotted(b[..1]) + Numeral(10, b[1]) + ".";
    assert Dotted(b) == Dotted(b[..2]) + Numeral(10, b[2]) + ".";
  }

  /** `inet_pton4` accepts exactly the image of `inet_ntop4`, and the two are each other's inverse. */
  lemma Inverse4(s: string, a: bytes)
    ensures Parse4(s) == Address(a) <==> |a| == 4 && s == Text4(a)
  {
    if |a| == 4 {
      ReadsBack4(a);
    }
    if Parse4(s) == Address(a) {
      AcceptedText(s, START4);
      assert Sofar(START4) + s == s;
    }
  }

  // ----- the texts, without the printing functions -----

  lemma {:induction false} OnlyZeros(base: nat, t: string)
    requires (base == 10 || base == 16) && Spells(base, t, 0) && t != ""
    ensures t[0] == '0'
    decreases |t|
  {
    if |t| > 1 {
      OnlyZeros(base, t[..|t| - 1]);
    }
  }

  lemma SmallQuotient(n: nat, base: nat)
    requires base == 10 || base == 16
    ensures n / base == 0 <==> n < base
  {
    if base == 10 {
      assert n / 10 == 0 <==> n < 10;
    } else {
      assert n / 16 == 0 <==> n < 16;
    }
  }

  lemma LastDigit(base: nat, t: string, n: nat)
    requires (base == 10 || base == 16) && Shortest(base, t, n)
    ensures t == t[..|t| - 1] + [Digit(n % base)] && Spells(base, t[..|t| - 1], n / base)
  {
    hide Digit, Stands;
    var k := |t| - 1;
    assert t[k] in "0123456789abcdef";
    LowerDigit(t[k], n % base);
  }

  /** The numeral without its last digit. */
  lemma ShortestFront(base: nat, t: string, n: nat)
    requires (base == 10 || base == 16) && Shortest(base, t, n)
    ensures if |t| == 1 then n < base else n >= base && Shortest(base, t[..|t| - 1], n / base)
  {
    hide Spells;
    var u := t[..|t| - 1];
    SmallQuotient(n, base);
    LastDigit(base, t, n);
    if u == "" {
      SpelledNothing(base, n / base);
    } else {
      assert u[0] == t[0] && forall i :: 0 <= i < |u| ==> u[i] == t[i];
      if n < base {
        OnlyZeros(base, u);
      }
    }
  }

  lemma SpelledNothing(base: nat, n: nat)
    requires (base == 10 || base == 16) && Spells(base, "", n)
    ensures n == 0
  {
  }

  lemma {:induction false} ShortestIsPrinted(base: nat, t: string, n: nat)
    requires (base == 10 || base == 16) && Shortest(base, t, n)
    ensures t == Numeral(base, n)
    decreases |t|
  {
    hide Shortest, Digit;
    LastDigit(base, t, n);
    ShortestFront(base, t, n);
    if n >= base {
      ShortestIsPrinted(base, t[..|t| - 1], n / base);
    }
  }

  /** There is one shortest numeral in lower case for a number, and it is the one that is printed. */
  lemma ShortestIsNumeral(base: nat, t: string, n: nat)
    requires base == 10 || base == 16
    ensures Shortest(base, t, n) <==> t == Numeral(base, n)
  {
    hide Shortest, Numeral;
    NumeralIsShortest(base, n);
    if Shortest(base, t, n) {
      ShortestIsPrinted(base, t, n);
    }
  }

  lemma LowerDigit(ch: char, d: nat)
    requires Stands(ch, d) && ch in "0123456789abcdef"
    ensures ch == Digit(d)
  {
  }

  /** Four decimal numerals without leading zeros, for the four octets. */
  ghost predicate Decimals(p: seq<string>, a: bytes) {
    |p| == |a| == 4 && forall i :: 0 <= i < 4 ==> Shortest(10, p[i], a[i])
  }

  /** `inet_pton4` accepts exactly four such numerals with dots between them, and reads them as their values. */
  lemma Accepts4(s: string, a: bytes)
    ensures Parse4(s) == Address(a) <==>
            exists p: seq<string> :: Decimals(p, a) && s == p[0] + "." + p[1] + "." + p[2] + "." + p[3]
  {
    hide Parse4, Numeral, Shortest;
    Inverse4(s, a);
    if |a| == 4 {
      var p := seq(4, i requires 0 <= i < 4 => Numeral(10, a[i]));
      forall i | 0 <= i < 4
        ensures Shortest(10, p[i], a[i])
      {
        NumeralIsShortest(10, a[i]);
      }
      assert Decimals(p, a) && Text4(a) == p[0] + "." + p[1] + "." + p[2] + "." + p[3];
    }
    if q: seq<string> :| Decimals(q, a) && s == q[0] + "." + q[1] + "." + q[2] + "." + q[3] {
      forall i | 0 <= i < 4
        ensures q[i] == Numeral(10, a[i])
      {
        ShortestIsNumeral(10, q[i], a[i]);
      }
    }
  }
}
