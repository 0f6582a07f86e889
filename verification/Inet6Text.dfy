/** What `inet_pton6` accepts: the texts of section 2.2 of RFC 4291, and nothing else. */
module Inet6Text {
  import opened Bytes
  import opened Inet4
  import opened Inet6
  import opened Sequences

  // ----- the texts -----

  datatype Group = Group(text: string, value: word)

  ghost predicate IsGroup(g: Group) {
    1 <= |g.text| <= 4 && Spells(16, g.text, g.value)
  }

  /** Groups on the left and on the right of `::`, if it is there, and an IPv4 address at the end, if it is not empty. */
  datatype Spelling = Spelling(left: seq<Group>, gap: bool, right: seq<Group>, dotted: bytes)

  function Pieces(gs: seq<Group>, dotted: bytes): (r: seq<string>)
    requires dotted == [] || |dotted| == 4
  {
    seq(|gs|, i requires 0 <= i < |gs| => gs[i].text) + if dotted == [] then [] else [Text4(dotted)]
  }

  /** The pieces with colons between them. */
  function Join(pieces: seq<string>): string {
    if |pieces| == 0 then "" else if |pieces| == 1 then pieces[0] else pieces[0] + ":" + Join(pieces[1..])
  }

  function Values(gs: seq<Group>): (r: bytes)
    ensures |r| == 2 * |gs|
  {
    if gs == [] then [] else Octets2(gs[0].value) + Values(gs[1..])
  }

  ghost predicate Sound(t: Spelling) {
    && (forall g :: g in t.left + t.right ==> IsGroup(g))
    && (t.dotted == [] || |t.dotted| == 4)
    && (if t.gap then 2 * |t.left| + 2 * |t.right| + |t.dotted| <= 14
        else t.right == [] && 2 * |t.left| + |t.dotted| == 16)
  }

  function Written(t: Spelling): string
    requires t.dotted == [] || |t.dotted| == 4
  {
    if t.gap then Join(Pieces(t.left, [])) + "::" + Join(Pieces(t.right, t.dotted)) else Join(Pieces(t.left, t.dotted))
  }

  /** The address: `::` stands for as many zero octets as are missing. */
  ghost function AddressOf(t: Spelling): bytes
    requires Sound(t)
  {
    Values(t.left) + Repeat<byte>(0, 16 - 2 * |t.left| - 2 * |t.right| - |t.dotted|) + Values(t.right) + t.dotted
  }

  // ----- digits -----

  lemma SpelledBound(t: string, n: nat)
    requires Spells(16, t, n) && |t| <= 4
    ensures n < 0x1_0000 && (|t| <= 3 ==> n < 0x1000) && (|t| <= 2 ==> n < 0x100) && (|t| <= 1 ==> n < 0x10)
    decreases |t|
  {
    if t != "" {
      SpelledBound(t[..|t| - 1], n / 16);
    }
  }

  lemma OneMore(t: string, n: nat, ch: char, d: nat)
    requires Spells(16, t, n) && Stands(ch, d)
    ensures Spells(16, t + [ch], n * 16 + d)
  {
    assert (t + [ch])[..|t + [ch]| - 1] == t;
  }

  /** A group is read as its value. */
  lemma {:induction false} ReadSpelled(t: string, n: nat, s: string, st: Scan6)
    requires Spells(16, t, n) && |t| <= 4 && st.seen == 0 && st.val == 0
    ensures ParseFrom6(t + s, st) == ParseFrom6(s, st.(seen := |t|, val := n))
    decreases |t|
  {
    hide ParseFrom6, Find, Stands;
    if t == "" {
      assert t + s == s;
    } else {
      var u, ch := t[..|t| - 1], t[|t| - 1];
      assert t + s == u + ([ch] + s);
      ReadSpelled(u, n / 16, [ch] + s, st);
      FindStands(ch, 16, n % 16);
      OneDigit(ch, n % 16, s, st.(seen := |u|, val := n / 16));
    }
  }

  // ----- what is left to read -----

  /** What is left of a text: the first colon of `::` belongs to the group in front of it, or has been skipped. */
  function Rest(t: Spelling): string
    requires t.dotted == [] || |t.dotted| == 4
  {
    if !t.gap then Join(Pieces(t.left, t.dotted))
    else (if t.left == [] then ":" else Join(Pieces(t.left, [])) + "::") + Join(Pieces(t.right, t.dotted))
  }

  ghost predicate Fits(t: Spelling, st: Scan6) {
    && (forall g :: g in t.left + t.right ==> IsGroup(g))
    && (t.dotted == [] || |t.dotted| == 4) && (!t.gap ==> t.right == []) && (t.gap ==> st.colon < 0)
    && |st.out| + 2 * |t.left| + 2 * |t.right| + |t.dotted| <= 16
  }

  /** What the parser makes of it. */
  function Result(t: Spelling, st: Scan6): Parsed {
    Finish6(Scan6(st.out + (Values(t.left) + Values(t.right) + t.dotted),
                  if t.gap then |st.out| + 2 * |t.left| else st.colon, 0, 0, ""))
  }

  lemma PiecesStep(gs: seq<Group>, dotted: bytes)
    requires gs != [] && (dotted == [] || |dotted| == 4)
    ensures Pieces(gs, dotted) == [gs[0].text] + Pieces(gs[1..], dotted)
  {
  }

  lemma JoinStep(p: string, ps: seq<string>)
    requires ps != []
    ensures Join([p] + ps) == p + (":" + Join(ps))
  {
    assert ([p] + ps)[1..] == ps;
    assert p + ":" + Join(ps) == p + (":" + Join(ps));
  }

  lemma JoinNonEmpty(ps: seq<string>)
    requires ps != [] && ps[0] != ""
    ensures Join(ps) != ""
  {
  }

  function Tail(t: Spelling): Spelling
    requires t.left != []
  {
    t.(left := t.left[1..])
  }

  /** Only the first group is there. */
  predicate Single(t: Spelling) {
    |t.left| == 1 && !t.gap && t.dotted == []
  }

  lemma RestStep(t: Spelling)
    requires t.left != [] && (t.dotted == [] || |t.dotted| == 4)
    ensures Rest(t) == t.left[0].text + if Single(t) then "" else ":" + Rest(Tail(t))
  {
    var g, more := t.left[0].text, t.left[1..];
    if !t.gap {
      PiecesStep(t.left, t.dotted);
      if Single(t) {
        assert g + "" == g;
      } else {
        JoinStep(g, Pieces(more, t.dotted));
      }
    } else {
      var back := Join(Pieces(t.right, t.dotted));
      PiecesStep(t.left, []);
      if more == [] {
        assert Pieces(more, []) == [] && [g] + [] == [g];
        assert (g + "::") + back == g + (":" + (":" + back));
      } else {
        JoinStep(g, Pieces(more, []));
        var join := Join(Pieces(more, []));
        assert ((g + (":" + join)) + "::") + back == g + (":" + ((join + "::") + back));
      }
    }
  }

  lemma RestNonEmpty(t: Spelling)
    requires (forall g :: g in t.left + t.right ==> IsGroup(g)) && (t.dotted == [] || |t.dotted| == 4)
    requires t.left != [] || t.gap || t.dotted != []
    ensures Rest(t) != ""
  {
    if t.left != [] {
      assert IsGroup(t.left[0]);
      RestStep(t);
    } else if !t.gap {
      assert Pieces([], t.dotted) == [Text4(t.dotted)];
      assert |Text4(t.dotted)| >= 3;
    }
  }

  // ----- every such text is read -----

  lemma StoreGroup(st: Scan6, tok: string)
    requires st.seen > 0 && |st.out| + 2 <= 16 && st.val < 0x1_0000
    ensures Finish6(st) == Finish6(Scan6(st.out + Octets2(st.val), st.colon, 0, 0, tok))
  {
    hide Octets2;
  }

  lemma AtEnd(st: Scan6)
    ensures ParseFrom6("", st) == Finish6(st)
  {
  }

  lemma ValuesStep(gs: seq<Group>)
    requires gs != []
    ensures Values(gs) == Octets2(gs[0].value) + Values(gs[1..])
  {
  }

  lemma Regroup(out: bytes, v: bytes, more: bytes, right: bytes, dotted: bytes)
    ensures out + (((v + more) + right) + dotted) == (out + v) + ((more + right) + dotted)
  {
  }

  /** Reading the first group of several makes it part of the octets. */
  lemma ResultStep(t: Spelling, st: Scan6, tok: string)
    requires t.left != []
    ensures Result(t, st) == Result(Tail(t), Scan6(st.out + Octets2(t.left[0].value), st.colon, 0, 0, tok))
  {
    hide Finish6, Octets2, Values;
    ValuesStep(t.left);
    Regroup(st.out, Octets2(t.left[0].value), Values(t.left[1..]), Values(t.right), t.dotted);
  }

  lemma ResultOfOne(t: Spelling, st: Scan6, tok: string)
    requires Single(t) && t.right == []
    ensures Result(t, st) == Finish6(Scan6(st.out + Octets2(t.left[0].value), st.colon, 0, 0, tok))
  {
    hide Octets2, Finish6;
    ResultStep(t, st, tok);
    var out := st.out + Octets2(t.left[0].value);
    assert out + (Values([]) + Values([]) + []) == out;
    Unread(out, st.colon, 0, tok);
  }

  lemma Unread(out: bytes, colon: int, val: nat, tok: string)
    ensures Finish6(Scan6(out, colon, 0, val, tok)) == Finish6(Scan6(out, colon, 0, 0, ""))
  {
  }

  /** Without a group on the left: nothing, a dotted address, or the gap. */
  lemma ReadNothing(t: Spelling, st: Scan6)
    requires Fits(t, st) && t.left == [] && !t.gap && st.seen == 0 && st.val == 0 && st.tok == Rest(t)
    ensures ParseFrom6(Rest(t), st) == Result(t, st)
  {
    hide ParseFrom6, Finish6, Text4, IsGroup;
    if t.dotted == [] {
      assert st.out + (Values([]) + Values([]) + []) == st.out;
      AtEnd(st);
      Unread(st.out, st.colon, 0, st.tok);
    } else {
      assert Pieces([], t.dotted) == [Text4(t.dotted)];
      var v := ReadEmbedded(t.dotted, st.out, st.colon);
      assert st.out + (Values([]) + Values([]) + t.dotted) == st.out + t.dotted;
      Unread(st.out + t.dotted, st.colon, v, st.tok);
    }
  }

  /** The text behind `::`. */
  function Behind(t: Spelling): Spelling {
    Spelling(t.right, false, [], t.dotted)
  }

  lemma ResultOfGap(t: Spelling, st: Scan6, tok: string)
    requires t.left == [] && t.gap
    ensures Result(t, st) == Result(Behind(t), Scan6(st.out, |st.out|, 0, 0, tok))
  {
    hide Finish6;
    assert Values([]) + Values(t.right) + t.dotted == Values(t.right) + Values([]) + t.dotted;
  }

  lemma {:induction false} ReadRest(t: Spelling, st: Scan6)
    requires Fits(t, st) && st.seen == 0 && st.val == 0 && st.tok == Rest(t)
    ensures ParseFrom6(Rest(t), st) == Result(t, st)
    decreases |t.left| + |t.right|, t.gap
  {
    hide ParseFrom6, Result, Rest, IsGroup;
    if t.left != [] {
      var g := t.left[0];
      assert IsGroup(g);
      ReadFirst(t, st);
      if !Single(t) {
        var st' := Scan6(st.out + Octets2(g.value), st.colon, 0, 0, Rest(Tail(t)));
        ResultStep(t, st, Rest(Tail(t)));
        ReadRest(Tail(t), st');
      }
    } else if t.gap {
      assert Rest(t) == ":" + Rest(Behind(t)) by { GapRest(t); }
      ReadColon(Rest(Behind(t)), st);
      ResultOfGap(t, st, Rest(Behind(t)));
      ReadRest(Behind(t), Scan6(st.out, |st.out|, 0, 0, Rest(Behind(t))));
    } else {
      ReadNothing(t, st);
    }
  }

  lemma GapRest(t: Spelling)
    requires t.left == [] && t.gap && (t.dotted == [] || |t.dotted| == 4)
    ensures Rest(t) == ":" + Rest(Behind(t))
  {
  }

  /** The first group, and the colon behind it if there is more. */
  lemma ReadFirst(t: Spelling, st: Scan6)
    requires Fits(t, st) && t.left != [] && st.seen == 0 && st.val == 0
    ensures var g := t.left[0];
            if Single(t) then ParseFrom6(Rest(t), st) == Result(t, st)
            else ParseFrom6(Rest(t), st) ==
                 ParseFrom6(Rest(Tail(t)), Scan6(st.out + Octets2(g.value), st.colon, 0, 0, Rest(Tail(t))))
  {
    hide ParseFrom6, Result, Rest, Spells;
    var g := t.left[0];
    assert IsGroup(g);
    RestStep(t);
    var st1 := st.(seen := |g.text|, val := g.value);
    if Single(t) {
      ReadSpelled(g.text, g.value, "", st);
      AtEnd(st1);
      StoreGroup(st1, "");
      ResultOfOne(t, st, "");
    } else {
      ReadSpelled(g.text, g.value, ":" + Rest(Tail(t)), st);
      RestNonEmpty(Tail(t));
      ReadColon(Rest(Tail(t)), st1);
    }
  }

  // ----- and nothing else -----

  const NOTHING := Spelling([], false, [], [])

  /** The characters of the group under way, and those still to come, are what is left of a text with this result. */
  ghost predicate Explains(t: Spelling, s: string, st: Scan6, cur: string) {
    Fits(t, st) && Rest(t) == cur + s && ParseFrom6(s, st) == Result(t, st)
  }

  ghost predicate Under(s: string, st: Scan6, cur: string) {
    st.tok == cur + s && |cur| == st.seen <= 4 && Spells(16, cur, st.val) && |st.out| <= 16
  }

  lemma EndExplained(st: Scan6, cur: string) returns (t: Spelling)
    requires Under("", st, cur) && ParseFrom6("", st).Address?
    ensures Explains(t, "", st, cur)
  {
    AtEnd(st);
    assert cur + "" == cur;
    if cur == "" {
      t := NOTHING;
      assert st.out + (Values([]) + Values([]) + []) == st.out;
      Unread(st.out, st.colon, st.val, st.tok);
      assert Pieces([], []) == [];
    } else {
      SpelledBound(cur, st.val);
      t := NOTHING.(left := [Group(cur, st.val)]);
      StoreGroup(st, "");
      ResultOfOne(t, st, "");
      RestStep(t);
    }
  }

  lemma DottedExplained(s: string, st: Scan6, cur: string) returns (t: Spelling)
    requires Under(s, st, cur) && s != "" && s[0] == '.' && ParseFrom6(s, st).Address?
    ensures Explains(t, s, st, cur)
  {
    hide Text4, Parse4, Octets2, Spells;
    assert Find('.', 16) == -1;
    var a := Parse4(st.tok).octets;
    Inverse4(st.tok, a);
    t := NOTHING.(dotted := a);
    assert Pieces([], a) == [Text4(a)];
    assert st.out + (Values([]) + Values([]) + a) == st.out + a;
    Unread(st.out + a, st.colon, st.val, st.tok);
  }

  function InFront(g: Group, t: Spelling): Spelling {
    t.(left := [g] + t.left)
  }

  lemma GroupRest(g: Group, t: Spelling)
    requires (t.dotted == [] || |t.dotted| == 4) && Rest(t) != ""
    ensures Rest(InFront(g, t)) == g.text + (":" + Rest(t)) && Tail(InFront(g, t)) == t
  {
    assert Tail(InFront(g, t)) == t;
    assert Join([]) == "" && Pieces([], []) == [];
    RestStep(InFront(g, t));
  }

  lemma GroupFits(g: Group, t: Spelling, st: Scan6, tok: string)
    requires IsGroup(g) && Fits(t, Scan6(st.out + Octets2(g.value), st.colon, 0, 0, tok))
    ensures Fits(InFront(g, t), st)
  {
    hide IsGroup, Octets2;
    forall x | x in InFront(g, t).left + t.right
      ensures IsGroup(x)
    {
      assert x == g || x in t.left + t.right;
    }
  }

  /** A group in front of what is explained. */
  lemma GroupExplained(t: Spelling, s: string, st: Scan6, cur: string)
    requires Under(s, st, cur) && s != "" && s[0] == ':' && s[1..] != "" && st.seen > 0 && |st.out| + 2 <= 16
    requires Explains(t, s[1..], Scan6(st.out + Octets2(st.val % 0x1_0000), st.colon, 0, 0, s[1..]), "")
    ensures st.val < 0x1_0000 && Explains(InFront(Group(cur, st.val), t), s, st, cur)
  {
    SpelledBound(cur, st.val);
    hide Octets2, Spells, ParseFrom6, Rest, Result, Fits;
    var g, next := Group(cur, st.val), Scan6(st.out + Octets2(st.val), st.colon, 0, 0, s[1..]);
    assert st.val % 0x1_0000 == st.val;
    assert "" + s[1..] == s[1..] && ":" + s[1..] == s;
    GroupFits(g, t, st, s[1..]);
    assert t.dotted == [] || |t.dotted| == 4 by { FitsDotted(t, next); }
    GroupRest(g, t);
    ReadColon(s[1..], st);
    ResultStep(InFront(g, t), st, s[1..]);
  }

  lemma FitsDotted(t: Spelling, st: Scan6)
    requires Fits(t, st)
    ensures t.dotted == [] || |t.dotted| == 4
  {
  }

  lemma GapExplained(t': Spelling, s: string, st: Scan6, cur: string) returns (t: Spelling)
    requires Under(s, st, cur) && s != "" && s[0] == ':' && st.seen == 0 && st.colon < 0 && st.val == 0
    requires Explains(t', s[1..], st.(colon := |st.out|, tok := s[1..]), "")
    ensures Explains(t, s, st, cur)
  {
    hide Octets2, Finish6, Spells;
    t := Spelling([], true, t'.left, t'.dotted);
    assert Behind(t) == t';
    assert "" + s[1..] == s[1..] && ":" + s[1..] == s && "" + s == s;
    ReadColon(s[1..], st);
    GapRest(t);
    ResultOfGap(t, st, s[1..]);
    assert [] + t'.left == t'.left && t'.left + [] == t'.left;
  }

  /** The state behind a digit. */
  function Digits(st: Scan6, d: nat): Scan6 {
    st.(seen := st.seen + 1, val := st.val * 16 + d)
  }

  lemma UnderDigit(s: string, st: Scan6, cur: string, d: nat)
    requires Under(s, st, cur) && s != "" && Find(s[0], 16) == d && ParseFrom6(s, st).Address?
    ensures Under(s[1..], Digits(st, d), cur + [s[0]]) && st.seen < 4
    ensures ParseFrom6(s[1..], Digits(st, d)) == ParseFrom6(s, st)
  {
    hide Find, Spells, Stands, Octets2, Finish6, Parse4;
    FindStands(s[0], 16, d);
    OneMore(cur, st.val, s[0], d);
    assert (cur + [s[0]]) + s[1..] == cur + s;
  }

  /** The state behind a colon: the first of `::`, which then was the second, or the end of a group. */
  function Colon(st: Scan6, tok: string): Scan6 {
    if st.seen == 0 then st.(colon := |st.out|, tok := tok)
    else Scan6(st.out + Octets2(st.val % 0x1_0000), st.colon, 0, 0, tok)
  }

  lemma UnderColon(s: string, st: Scan6, cur: string)
    requires Under(s, st, cur) && s != "" && s[0] == ':' && ParseFrom6(s, st).Address?
    ensures Under(s[1..], Colon(st, s[1..]), "") && ParseFrom6(s[1..], Colon(st, s[1..])) == ParseFrom6(s, st)
    ensures if st.seen == 0 then st.colon < 0 && st.val == 0 else s[1..] != "" && |st.out| + 2 <= 16
  {
    hide Octets2, Finish6, Parse4;
    assert "" + s[1..] == s[1..];
    assert Find(':', 16) == -1;
  }

  lemma {:induction false} Explained(s: string, st: Scan6, cur: string) returns (t: Spelling)
    requires Under(s, st, cur) && ParseFrom6(s, st).Address?
    ensures Explains(t, s, st, cur)
    decreases |s|
  {
    hide Explains, Find, ParseFrom6, Under, InFront;
    if s == "" {
      t := EndExplained(st, cur);
    } else if Find(s[0], 16) >= 0 {
      var d := Find(s[0], 16);
      UnderDigit(s, st, cur, d);
      t := Explained(s[1..], Digits(st, d), cur + [s[0]]);
      SameExplained(t, s, st, cur, d);
    } else if s[0] == ':' {
      UnderColon(s, st, cur);
      t := Explained(s[1..], Colon(st, s[1..]), "");
      if st.seen == 0 {
        t := GapExplained(t, s, st, cur);
      } else {
        GroupExplained(t, s, st, cur);
        t := InFront(Group(cur, st.val), t);
      }
    } else {
      OtherCharacter(s, st);
      t := DottedExplained(s, st, cur);
    }
  }

  lemma OtherCharacter(s: string, st: Scan6)
    requires s != "" && Find(s[0], 16) < 0 && s[0] != ':' && ParseFrom6(s, st).Address?
    ensures s[0] == '.'
  {
    hide Find, Octets2, Finish6, Parse4;
  }

  lemma SameExplained(t: Spelling, s: string, st: Scan6, cur: string, d: nat)
    requires s != "" && Find(s[0], 16) == d && st.seen < 4
    requires Explains(t, s[1..], Digits(st, d), cur + [s[0]])
    ensures Explains(t, s, st, cur)
  {
    hide Find, Finish6;
    assert (cur + [s[0]]) + s[1..] == cur + s;
    assert [s[0]] + s[1..] == s;
    OneDigit(s[0], d, s[1..], st);
  }

  // ----- the whole string -----

  /** Where `inet_pton6` begins: behind a colon that the string begins with. */
  function Start(s: string): Scan6 {
    Scan6([], -1, 0, 0, s)
  }

  lemma GroupFirst(g: Group)
    requires IsGroup(g)
    ensures g.text != "" && g.text[0] != ':'
  {
    SpelledFirst(g.text, g.value);
  }

  lemma {:induction false} SpelledFirst(t: string, n: nat)
    requires Spells(16, t, n) && t != ""
    ensures t[0] != ':'
    decreases |t|
  {
    if |t| == 1 {
      FindStands(t[0], 16, n % 16);
    } else {
      SpelledFirst(t[..|t| - 1], n / 16);
    }
  }

  /** What is left begins with a colon only for the second colon of `::`. */
  lemma FirstCharacter(t: Spelling)
    requires (forall g :: g in t.left + t.right ==> IsGroup(g)) && (t.dotted == [] || |t.dotted| == 4) && Rest(t) != ""
    ensures Rest(t)[0] == ':' <==> t.gap && t.left == []
  {
    hide IsGroup, Numeral;
    if t.left != [] {
      GroupFirst(t.left[0]);
      RestStep(t);
    } else if !t.gap {
      assert Join(Pieces([], [])) == "";
      assert Pieces([], t.dotted) == [Text4(t.dotted)];
      NumeralIsShortest(10, t.dotted[0]);
    }
  }

  lemma WrittenRest(t: Spelling)
    requires t.dotted == [] || |t.dotted| == 4
    ensures Written(t) == if t.gap && t.left == [] then ":" + Rest(t) else Rest(t)
  {
    var back := Join(Pieces(t.right, t.dotted));
    assert Pieces([], []) == [];
    assert ("" + "::") + back == ":" + (":" + back);
  }

  /** The parser starts on what is left of a text. */
  lemma Starts(t: Spelling)
    requires (forall g :: g in t.left + t.right ==> IsGroup(g)) && (t.dotted == [] || |t.dotted| == 4)
    ensures Parse6(Written(t)) == ParseFrom6(Rest(t), Start(Rest(t)))
  {
    hide ParseFrom6, Rest, IsGroup;
    WrittenRest(t);
    if Rest(t) != "" {
      FirstCharacter(t);
    }
    if t.gap && t.left == [] {
      GapRest(t);
      assert (":" + Rest(t))[1..] == Rest(t);
    }
  }

  lemma FinishIff(front: bytes, back: bytes, gap: bool, o: bytes)
    ensures Finish6(Scan6(front + back, if gap then |front| else -1, 0, 0, "")) == Address(o) <==>
            if gap then |front| + |back| < 16 && o == front + Repeat<byte>(0, 16 - |front| - |back|) + back
            else |front| + |back| == 16 && o == front + back
  {
    assert (front + back)[..|front|] == front && (front + back)[|front|..] == back;
  }

  /** The result is an address exactly for the texts, and then theirs. */
  lemma ResultIff(t: Spelling, tok: string, o: bytes)
    requires Fits(t, Start(tok))
    ensures Result(t, Start(tok)) == Address(o) <==> Sound(t) && AddressOf(t) == o
  {
    hide IsGroup, Values, Finish6;
    var l, r, d := Values(t.left), Values(t.right), t.dotted;
    FinishIff(l, r + d, t.gap, o);
    assert [] + (l + r + d) == l + (r + d);
    if t.gap && |l| + |r| + |d| < 16 {
      Associate(l + Repeat<byte>(0, 16 - |l| - |r| - |d|), r, d);
    } else if !t.gap && |l| + |d| == 16 {
      assert r == [] && l + Repeat<byte>(0, 0) + [] + d == l + ([] + d);
    }
  }

  ghost predicate Means(t: Spelling, s: string, o: bytes) {
    Sound(t) && Written(t) == s && AddressOf(t) == o
  }

  lemma Accepted(t: Spelling)
    requires Sound(t)
    ensures Parse6(Written(t)) == Address(AddressOf(t))
  {
    hide IsGroup, Result, Rest, Written, AddressOf, ParseFrom6;
    Starts(t);
    ReadRest(t, Start(Rest(t)));
    ResultIff(t, Rest(t), AddressOf(t));
  }

  lemma Found(s: string, o: bytes) returns (t: Spelling)
    requires Parse6(s) == Address(o)
    ensures Means(t, s, o)
  {
    hide IsGroup, Result, Written, AddressOf, ParseFrom6, Sound, Rest;
    var skipped := s != "" && s[0] == ':';
    var from := if skipped then s[1..] else s;
    assert "" + from == from && Spells(16, "", 0);
    t := Explained(from, Start(from), "");
    assert Fits(t, Start(from));
    ResultIff(t, from, o);
    WrittenRest(t);
    if from != "" {
      FirstCharacter(t);
    } else {
      assert Rest(t) == "";
      EmptyGap(t);
    }
    assert skipped ==> [':'] + s[1..] == s;
  }

  lemma EmptyGap(t: Spelling)
    requires (t.dotted == [] || |t.dotted| == 4) && Rest(t) == ""
    ensures !(t.gap && t.left == [])
  {
  }

  /**
   * `inet_pton6` accepts exactly the texts of section 2.2 of RFC 4291: groups of one to four hexadecimal digits in
   * either case, leading zeros allowed, at most one `::` for at least one group, and an IPv4 address in place of the
   * last two groups; and it reads each as the address it stands for.
   */
  lemma AcceptsIff(s: string, o: bytes)
    ensures Parse6(s) == Address(o) <==> exists t :: Means(t, s, o)
  {
    hide Parse6, Sound, Written, AddressOf;
    if Parse6(s) == Address(o) {
      var t := Found(s, o);
    }
    if t :| Means(t, s, o) {
      Accepted(t);
    }
  }

  // ----- what inet_ntop6 prints is such a text -----

  /** A run of at least two zero words, or none. */
  predicate Run(words: seq<word>, base: int, len: nat) {
    |words| == 8 && (base < 0 || (len >= 2 && base + len <= 8 && ZeroRun(words, base, len)))
  }

  /** The words as groups, each with the numeral that is printed for it. */
  function Groups(words: seq<word>): (r: seq<Group>)
    ensures |r| == |words|
  {
    seq(|words|, i requires 0 <= i < |words| => Group(Numeral(16, words[i]), words[i]))
  }

  /** The last two words are printed as an IPv4 address: behind six zero words, or five and ffff. */
  predicate IPv4Printed(words: seq<word>, base: int, len: nat)
    requires |words| == 8
  {
    base == 0 && (len == 6 || (len == 5 && words[5] == 0xffff))
  }

  function Printed(words: seq<word>, base: int, len: nat): Spelling
    requires Run(words, base, len)
  {
    var n := if IPv4Printed(words, base, len) then 6 else 8;
    var dotted := if IPv4Printed(words, base, len) then Octets2(words[6]) + Octets2(words[7]) else [];
    if base < 0 then Spelling(Groups(words), false, [], [])
    else Spelling(Groups(words[..base]), true, Groups(words[base + len..n]), dotted)
  }

  lemma GroupsAreGroups(words: seq<word>)
    ensures forall g :: g in Groups(words) ==> IsGroup(g) && Shortest(16, g.text, g.value)
  {
    forall g | g in Groups(words)
      ensures IsGroup(g) && Shortest(16, g.text, g.value)
    {
      NumeralIsShortest(16, g.value);
      FourDigits(g.value);
    }
  }

  lemma {:induction false} ValuesOfGroups(words: seq<word>)
    ensures Values(Groups(words)) == Flat(words)
  {
    if words == [] {
    } else {
      var one, more := words[..1], words[1..];
      assert words == one + more;
      FlatJoin(one, more);
      assert one[..0] == [] && Flat(one) == Octets2(words[0]);
      assert Groups(words)[1..] == Groups(more);
      ValuesOfGroups(more);
    }
  }

  /** The words from `i` to `n` and the address behind them, as the loop prints them where no run is met. */
  function Plain(words: seq<word>, i: nat, n: nat, dotted: bytes): string
    requires i <= n <= |words| && (dotted == [] || |dotted| == 4)
  {
    Join(Pieces(Groups(words[i..n]), dotted))
  }

  lemma PlainStep(words: seq<word>, i: nat, n: nat, dotted: bytes)
    requires i < n <= |words| && (dotted == [] || |dotted| == 4)
    ensures Plain(words, i, n, dotted) ==
            Numeral(16, words[i]) + if i + 1 == n && dotted == [] then "" else ":" + Plain(words, i + 1, n, dotted)
  {
    hide Numeral, Text4;
    var gs := Groups(words[i..n]);
    PiecesStep(gs, dotted);
    assert words[i..n][1..] == words[i + 1..n];
    assert gs[1..] == Groups(words[i + 1..n]);
    if i + 1 == n && dotted == [] {
      assert Pieces(gs, dotted) == [gs[0].text];
      assert gs[0].text + "" == gs[0].text;
    } else {
      JoinStep(gs[0].text, Pieces(gs[1..], dotted));
    }
  }

  function Separator(i: nat): string {
    if i == 0 then "" else ":"
  }

  lemma FromWord(words: seq<word>, base: int, len: nat, i: nat)
    requires Run(words, base, len) && i < 8 && !InRun(base, len, i)
    ensures From(words, base, len, i) ==
            Separator(i) + if i == 6 && IPv4Printed(words, base, len) then Text4(Octets2(words[6]) + Octets2(words[7]))
                           else Numeral(16, words[i]) + From(words, base, len, i + 1)
  {
    hide Numeral, Text4, Octets2;
  }

  /** Behind the run, or without one. */
  lemma {:induction false} FromTail(words: seq<word>, base: int, len: nat, i: nat, n: nat, dotted: bytes)
    requires Run(words, base, len) && (base >= 0 ==> base + len <= i)
    requires if IPv4Printed(words, base, len) then n == 6 && dotted == Octets2(words[6]) + Octets2(words[7])
             else n == 8 && dotted == []
    requires i < n || (i == n && dotted != [])
    ensures From(words, base, len, i) == Separator(i) + Plain(words, i, n, dotted)
    decreases n - i
  {
    hide From, Numeral, Text4, Octets2, Plain, ZeroRun;
    FromWord(words, base, len, i);
    if i == n {
      assert Plain(words, 6, 6, dotted) == Text4(dotted) by { PlainDotted(words, 6, dotted); }
    } else {
      PlainStep(words, i, n, dotted);
      if i + 1 == n && dotted == [] {
        Ends(words, base, len);
      } else {
        FromTail(words, base, len, i + 1, n, dotted);
      }
    }
  }

  lemma PlainDotted(words: seq<word>, n: nat, dotted: bytes)
    requires n <= |words| && |dotted| == 4
    ensures Plain(words, n, n, dotted) == Text4(dotted)
  {
    assert Pieces(Groups(words[n..n]), dotted) == [Text4(dotted)];
  }

  lemma PlainNothing(words: seq<word>, n: nat)
    requires n <= |words|
    ensures Plain(words, n, n, []) == ""
  {
    assert Pieces(Groups(words[n..n]), []) == [];
  }

  lemma {:induction false} RunSkipped(words: seq<word>, base: nat, len: nat, j: nat)
    requires Run(words, base, len) && base < j <= base + len
    ensures From(words, base, len, j) == From(words, base, len, base + len)
    decreases base + len - j
  {
    if j < base + len {
      RunSkipped(words, base, len, j + 1);
      assert "" + From(words, base, len, j + 1) == From(words, base, len, j + 1);
    }
  }

  lemma FromAtRun(words: seq<word>, base: nat, len: nat)
    requires Run(words, base, len)
    ensures From(words, base, len, base) == ":" + From(words, base, len, base + len)
  {
    RunSkipped(words, base, len, base + 1);
  }

  lemma FromRun(words: seq<word>, base: nat, len: nat, n: nat, dotted: bytes)
    requires Run(words, base, len)
    requires if IPv4Printed(words, base, len) then n == 6 && dotted == Octets2(words[6]) + Octets2(words[7])
             else n == 8 && dotted == []
    ensures From(words, base, len, base) == "::" + Plain(words, base + len, n, dotted)
  {
    hide From, Numeral, Text4, Octets2, Plain, ZeroRun;
    FromAtRun(words, base, len);
    var j := base + len;
    if j == 8 {
      Ends(words, base, len);
      PlainNothing(words, 8);
    } else {
      FromTail(words, base, len, j, n, dotted);
    }
  }

  /** In front of the run. */
  lemma {:induction false} FromFront(words: seq<word>, base: nat, len: nat, i: nat)
    requires Run(words, base, len) && i < base
    ensures From(words, base, len, i) == Separator(i) + (Plain(words, i, base, []) + From(words, base, len, base))
    decreases base - i
  {
    hide From, Numeral, Text4, Octets2, Plain, ZeroRun;
    FromWord(words, base, len, i);
    PlainStep(words, i, base, []);
    var rest := From(words, base, len, base);
    if i + 1 < base {
      FromFront(words, base, len, i + 1);
      assert Numeral(16, words[i]) + (":" + (Plain(words, i + 1, base, []) + rest))
             == (Numeral(16, words[i]) + (":" + Plain(words, i + 1, base, []))) + rest;
    } else {
      assert Numeral(16, words[i]) + "" == Numeral(16, words[i]);
    }
  }

  lemma WrittenPlain(words: seq<word>, base: int, len: nat, n: nat, dotted: bytes)
    requires Run(words, base, len)
    requires if IPv4Printed(words, base, len) then n == 6 && dotted == Octets2(words[6]) + Octets2(words[7])
             else n == 8 && dotted == []
    ensures Written(Printed(words, base, len)) ==
            if base < 0 then Plain(words, 0, 8, [])
            else Plain(words, 0, base, []) + ("::" + Plain(words, base + len, n, dotted))
  {
    hide Join, Pieces, Groups, Octets2, ZeroRun;
    if base < 0 {
      assert words[0..8] == words;
    } else {
      assert words[0..base] == words[..base];
    }
  }

  /** `inet_ntop6` prints the spelling with shortest numerals in lower case, and with `::` for the run. */
  lemma TextIsWritten(words: seq<word>, base: int, len: nat)
    requires Run(words, base, len)
    ensures Text6(words, base, len) == Written(Printed(words, base, len))
  {
    hide From, Plain, Written, Printed, Text4, Octets2, ZeroRun;
    var n := if IPv4Printed(words, base, len) then 6 else 8;
    var dotted := if IPv4Printed(words, base, len) then Octets2(words[6]) + Octets2(words[7]) else [];
    WrittenPlain(words, base, len, n, dotted);
    if base < 0 {
      FromTail(words, base, len, 0, 8, []);
    } else {
      FromRun(words, base, len, n, dotted);
      if base == 0 {
        PlainNothing(words, 0);
      } else {
        FromFront(words, base, len, 0);
      }
    }
  }

  lemma FlatBehind(words: seq<word>, j: nat, n: nat)
    requires |words| == 8 && j <= n && (n == 6 || n == 8)
    ensures Flat(words[j..]) == Values(Groups(words[j..n])) + if n == 8 then [] else Octets2(words[6]) + Octets2(words[7])
  {
    hide Flat, Values, Groups, Octets2;
    ValuesOfGroups(words[j..n]);
    if n == 6 {
      FlatJoin(words[j..6], words[6..8]);
      assert words[j..] == words[j..6] + words[6..8];
      LastTwo(words);
    } else {
      assert words[j..8] == words[j..];
      assert Flat(words[j..]) + [] == Flat(words[j..]);
    }
  }

  lemma LastTwo(words: seq<word>)
    requires |words| == 8
    ensures Flat(words[6..8]) == Octets2(words[6]) + Octets2(words[7])
  {
    hide Octets2;
    FlatStep(words, 6, 7);
    FlatStep(words, 6, 6);
    assert words[6..6] == [] && [] + Octets2(words[6]) == Octets2(words[6]);
  }

  lemma PrintedSound(words: seq<word>, base: int, len: nat)
    requires Run(words, base, len)
    ensures Sound(Printed(words, base, len))
    ensures forall g :: g in Printed(words, base, len).left + Printed(words, base, len).right ==> Shortest(16, g.text, g.value)
  {
    hide IsGroup, Groups, ZeroRun, Octets2, Shortest;
    if base < 0 {
      GroupsAreGroups(words);
    } else {
      GroupsAreGroups(words[..base]);
      GroupsAreGroups(words[base + len..if IPv4Printed(words, base, len) then 6 else 8]);
    }
  }

  lemma PrintedAddress(words: seq<word>, base: int, len: nat)
    requires Run(words, base, len) && Sound(Printed(words, base, len))
    ensures AddressOf(Printed(words, base, len)) == Flat(words)
  {
    hide Sound, Values, Groups, Flat, Octets2, Repeat;
    if base < 0 {
      ValuesOfGroups(words);
      NoZeros(Flat(words));
    } else {
      var a, z, n := words[..base], words[base..base + len], if IPv4Printed(words, base, len) then 6 else 8;
      assert words == a + z + words[base + len..];
      FlatGap(a, z, words[base + len..]);
      ValuesOfGroups(a);
      FlatBehind(words, base + len, n);
      Associate(Flat(a) + Repeat<byte>(0, 2 * len), Values(Groups(words[base + len..n])),
                if n == 8 then [] else Octets2(words[6]) + Octets2(words[7]));
    }
  }

  lemma NoZeros(s: bytes)
    ensures s + Repeat<byte>(0, 0) + Values([]) + [] == s
  {
  }

  /** It is such a text, and that of the words. */
  lemma PrintedMeans(words: seq<word>, base: int, len: nat)
    requires Run(words, base, len)
    ensures Means(Printed(words, base, len), Text6(words, base, len), Flat(words))
  {
    hide Run, Sound, Text6, Written, AddressOf, Printed;
    TextIsWritten(words, base, len);
    PrintedSound(words, base, len);
    PrintedAddress(words, base, len);
  }

  /** Whatever run of zeros :: stands for, the address is read back. */
  lemma ReadsBack(words: seq<word>, base: int, len: nat)
    requires Run(words, base, len)
    ensures Parse6(Text6(words, base, len)) == Address(Flat(words))
  {
    hide Parse6, Text6, Printed, Sound, Written, AddressOf, Flat;
    PrintedMeans(words, base, len);
    Accepted(Printed(words, base, len));
  }

  /** `inet_pton6` reads back what `inet_ntop6` prints, for every address. */
  lemma RoundTrip6(src: bytes, base: int, len: nat)
    requires |src| == 16 && IsBest(Words(src), base, len)
    ensures Parse6(Text6(Words(src), base, len)) == Address(src)
  {
    ReadsBack(Words(src), base, len);
    FlatWords(src);
  }
}
