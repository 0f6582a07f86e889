/**
 * The read loop as turns (src/ws/CWSServer.cpp:36-122, src/ws/CWSClient.cpp:56-141): each parses what is left of the
 * read and takes some of it, and the loop ends once nothing is left. On a malformed frame it may not end.
 */
module ReadTurns {
  import opened Bytes
  import opened Frames
  import opened Handles
  import opened Reassembly

  /** What a turn leaves pending and merged, the calls it makes, and how many octets it takes. */
  datatype Turned = Turned(pending: bytes, merged: bytes, events: seq<Event>, taken: nat)

  function TurnOf(pending: bytes, merged: bytes, data: bytes): (t: Turned)
    requires data != [] && !ParseFrame(pending).Whole?
    ensures t.taken <= |data|
  {
    var s, p0 := pending + data, |pending|;
    assert s[..p0] == pending;
    PendingVerdicts(s, p0);
    match ParseFrame(s)
    case NeedMore => Turned(s, merged, [], |data|)
    case Malformed => Turned(s[..Max(6, p0)], merged, [CloseConnection], Max(6, p0) - p0)
    case Whole(f, n) => Turned([], Deliver(f, merged).0, Deliver(f, merged).1, n - p0)
  }

  lemma TurnLeaves(pending: bytes, merged: bytes, data: bytes)
    requires data != [] && !ParseFrame(pending).Whole?
    ensures !ParseFrame(TurnOf(pending, merged, data).pending).Whole?
  {
    var s, p0 := pending + data, |pending|;
    assert s[..p0] == pending;
    PendingVerdicts(s, p0);
    NothingPending();
  }

  /** The buffers never hold more than what was buffered and read. */
  lemma TurnFits(pending: bytes, merged: bytes, data: bytes)
    requires data != [] && !ParseFrame(pending).Whole?
    ensures var t := TurnOf(pending, merged, data);
            |t.merged| + |t.pending| + |data[t.taken..]| <= |merged| + |pending| + |data|
  {
    var s, p0 := pending + data, |pending|;
    assert s[..p0] == pending;
    PendingVerdicts(s, p0);
    if ParseFrame(s).Whole? {
      WholeFitsExactly(s);
      DeliverBound(ParseFrame(s).frame, merged);
    }
  }

  lemma NothingPending()
    ensures ParseFrame([]).NeedMore?
  {
  }

  /** A loop under way: `rest` is what of the read is left. */
  datatype Loop = Loop(pending: bytes, merged: bytes, events: seq<Event>, rest: bytes)

  ghost predicate Proper(l: Loop) {
    !ParseFrame(l.pending).Whole?
  }

  function OneTurn(l: Loop): (r: Loop)
    requires Proper(l) && l.rest != []
    ensures Proper(r)
  {
    var t := TurnOf(l.pending, l.merged, l.rest);
    TurnLeaves(l.pending, l.merged, l.rest);
    Loop(t.pending, t.merged, l.events + t.events, l.rest[t.taken..])
  }

  /** The loop after `k` turns, or after as many as it takes to end. */
  function Turns(l: Loop, k: nat): (r: Loop)
    requires Proper(l)
    ensures Proper(r)
    decreases k
  {
    if k == 0 || l.rest == [] then l else Turns(OneTurn(l), k - 1)
  }

  lemma TurnsNone(l: Loop)
    requires Proper(l)
    ensures Turns(l, 0) == l
  {
  }

  lemma {:induction false} TurnsNext(l: Loop, k: nat)
    requires Proper(l) && Turns(l, k).rest != []
    ensures Turns(l, k + 1) == OneTurn(Turns(l, k))
    decreases k
  {
    hide OneTurn, Proper;
    if k > 0 {
      TurnsNext(OneTurn(l), k - 1);
    }
  }

  ghost predicate LoopEnds(l: Loop)
    requires Proper(l)
  {
    exists k: nat :: Turns(l, k).rest == []
  }

  /**
   * No malformed frame is met, or the sixth octet of the malformed frame, at which the parser finds out, is the last
   * octet of the read.
   */
  ghost predicate Settles(pending: bytes, merged: bytes, data: bytes) {
    var r := Feed(pending, merged, data);
    r.failed ==> |r.pending| == 6
  }

  /** With a malformed frame pending a turn takes nothing and leaves everything as it was, but for a call to close. */
  lemma StuckTurn(pending: bytes, merged: bytes, data: bytes)
    requires ParseFrame(pending).Malformed? && data != []
    ensures TurnOf(pending, merged, data) == Turned(pending, merged, [CloseConnection], 0)
  {
    FailureStays(pending, data);
    assert (pending + data)[..|pending|] == pending;
  }

  lemma {:induction false} StuckLoop(l: Loop, k: nat)
    requires ParseFrame(l.pending).Malformed? && l.rest != []
    ensures Turns(l, k).rest == l.rest
    decreases k
  {
    if k > 0 {
      StuckTurn(l.pending, l.merged, l.rest);
      assert OneTurn(l).rest == l.rest;
      StuckLoop(OneTurn(l), k - 1);
    }
  }

  /** What one turn contributes to the outcome of the read. */
  lemma TurnFeeds(pending: bytes, merged: bytes, data: bytes)
    requires data != [] && !ParseFrame(pending).Whole?
    ensures var t, r := TurnOf(pending, merged, data), Feed(pending, merged, data);
            match ParseFrame(pending + data) {
              case NeedMore => r == Outcome(t.events, t.pending, t.merged, false) && t.taken == |data|
              case Malformed =>
                r == Outcome([], pending + data, merged, true) && t.events == [CloseConnection] && t.merged == merged
              case Whole(f, n) => r == After(t.events, Feed(t.pending, t.merged, data[t.taken..])) && 0 < t.taken
            }
  {
    var s, p0 := pending + data, |pending|;
    hide Deliver, Drain;
    assert s[..p0] == pending;
    PendingVerdicts(s, p0);
    if ParseFrame(s).Whole? {
      var p := ParseFrame(s);
      DrainStep(s, merged, p.frame, p.size);
      assert s[p.size..] == data[p.size - p0..] == [] + data[p.size - p0..];
    } else {
      DrainEnds(s, merged);
    }
  }

  /** A turn of a loop that settles takes something; the rest settles too, or nothing is left and this is the outcome. */
  lemma SettlesStep(pending: bytes, merged: bytes, data: bytes)
    requires data != [] && !ParseFrame(pending).Whole? && Settles(pending, merged, data)
    ensures var t, r := TurnOf(pending, merged, data), Feed(pending, merged, data);
            && 0 < t.taken
            && (!ParseFrame(pending + data).Whole? ==>
                  t.taken == |data| && r.pending == t.pending && r.merged == t.merged && t.events == r.events + Closing(r))
            && (ParseFrame(pending + data).Whole? ==>
                  r == After(t.events, Feed(t.pending, t.merged, data[t.taken..])) &&
                  Settles(t.pending, t.merged, data[t.taken..]))
  {
    TurnFeeds(pending, merged, data);
    if ParseFrame(pending + data).Malformed? {
      assert |pending + data| == 6;
      assert (pending + data)[..6] == pending + data;
    }
    hide ParseFrame, Deliver, Drain;
  }

  lemma SettlesOn(l: Loop)
    requires Proper(l) && l.rest != [] && Settles(l.pending, l.merged, l.rest)
    ensures var l' := OneTurn(l);
            |l'.rest| < |l.rest| && (l'.rest != [] ==> Settles(l'.pending, l'.merged, l'.rest))
  {
    hide ParseFrame, Deliver, Drain, Settles;
    SettlesStep(l.pending, l.merged, l.rest);
  }

  lemma {:induction false} SettledEnds(l: Loop) returns (k: nat)
    requires Proper(l) && Settles(l.pending, l.merged, l.rest)
    ensures Turns(l, k).rest == []
    decreases |l.rest|
  {
    k := 0;
    if l.rest != [] {
      SettlesStep(l.pending, l.merged, l.rest);
      var l' := OneTurn(l);
      hide Settles;
      if l'.rest == [] {
        k := 1;
        assert Turns(l, 1) == Turns(l', 0);
      } else {
        k := SettledEnds(l');
        k := k + 1;
      }
    }
  }

  lemma {:induction false} EndedSettles(l: Loop, k: nat)
    requires Proper(l) && l.rest != [] && Turns(l, k).rest == []
    ensures Settles(l.pending, l.merged, l.rest)
    decreases k
  {
    hide ParseFrame, Drain, Turns, Deliver;
    var s := l.pending + l.rest;
    var l' := OneTurn(l);
    TurnFeeds(l.pending, l.merged, l.rest);
    if ParseFrame(s).Malformed? {
      MalformedEnds(l, k);
    } else if ParseFrame(s).Whole? {
      if l'.rest == [] {
        NothingPending();
        FeedNothing(l'.pending, l'.merged, []);
      } else {
        TurnsFirst(l, k);
        EndedSettles(l', k - 1);
      }
    }
  }

  lemma TurnsFirst(l: Loop, k: nat)
    requires Proper(l) && l.rest != [] && Turns(l, k).rest == []
    ensures k > 0 && Turns(OneTurn(l), k - 1) == Turns(l, k)
  {
  }

  lemma MalformedEnds(l: Loop, k: nat)
    requires Proper(l) && l.rest != [] && Turns(l, k).rest == [] && ParseFrame(l.pending + l.rest).Malformed?
    ensures |l.pending + l.rest| == 6
  {
    hide ParseFrame, Turns, Deliver;
    var s, p0 := l.pending + l.rest, |l.pending|;
    assert s[..p0] == l.pending;
    PendingVerdicts(s, p0);
    TurnsFirst(l, k);
    var l' := OneTurn(l);
    if l'.rest != [] {
      StuckLoop(l', k - 1);
    }
    assert Max(6, p0) - p0 == |l.rest|;
  }

  /**
   * The loop ends if and only if no malformed frame is met or the sixth octet of the malformed frame is the last
   * one of the read; so it does not end when a malformed frame was pending before.
   */
  lemma LoopEndsIff(pending: bytes, merged: bytes, data: bytes)
    requires data != [] && !ParseFrame(pending).Whole?
    ensures LoopEnds(Loop(pending, merged, [], data)) <==> Settles(pending, merged, data)
    ensures ParseFrame(pending).Malformed? ==> !Settles(pending, merged, data)
  {
    var l := Loop(pending, merged, [], data);
    if Settles(pending, merged, data) {
      var k := SettledEnds(l);
    }
    if LoopEnds(l) {
      var k: nat :| Turns(l, k).rest == [];
      EndedSettles(l, k);
    }
    if ParseFrame(pending).Malformed? {
      FailureStays(pending, data);
      DrainEnds(pending + data, merged);
    }
    hide ParseFrame, Turns;
  }

  /** A bad length whose sixth octet is the last of the read: one turn, and the loop is over. */
  lemma EndsAtSixthOctet()
    ensures LoopEnds(Loop([], [], [], [130, 127, 0, 0, 0, 1]))
  {
    var data := [130, 127, 0, 0, 0, 1];
    BadExample(data);
    LoopEndsIff([], [], data);
  }

  /** One octet more, and the loop takes it never. */
  lemma SpinsPastSixthOctet(k: nat)
    ensures Turns(Loop([], [], [], [130, 127, 0, 0, 0, 1, 0]), k).rest != []
  {
    var data := [130, 127, 0, 0, 0, 1, 0];
    BadExample(data);
    LoopEndsIff([], [], data);
  }

  lemma BadExample(data: bytes)
    requires |data| >= 6 && data[..6] == [130, 127, 0, 0, 0, 1]
    ensures ParseFrame(data).Malformed? && Feed([], [], data) == Outcome([], data, [], true) && ParseFrame([]).NeedMore?
  {
    assert data[2..6] == data[..6][2..];
    assert data[..6][2..][3] == 1;
    assert data[0] == data[..6][0] && data[1] == data[..6][1];
    DrainEnds(data, []);
    assert [] + data == data;
  }

  lemma OutcomeFails(pending: bytes, merged: bytes, data: bytes)
    ensures var r := Feed(pending, merged, data);
            if r.failed then ParseFrame(r.pending).Malformed? else ParseFrame(r.pending).NeedMore?
  {
    LeftoverIsUndecided(pending + data, merged);
  }

  lemma OutcomeStep(l: Loop)
    requires Proper(l) && l.rest != [] && Settles(l.pending, l.merged, l.rest)
    ensures var l', r := OneTurn(l), Feed(l.pending, l.merged, l.rest);
            if l'.rest == [] then l' == Loop(r.pending, r.merged, l.events + (r.events + Closing(r)), [])
            else exists made :: l'.events == l.events + made && r == After(made, Feed(l'.pending, l'.merged, l'.rest))
  {
    hide ParseFrame, Deliver, Drain, Settles;
    SettlesStep(l.pending, l.merged, l.rest);
    var t := TurnOf(l.pending, l.merged, l.rest);
    if ParseFrame(l.pending + l.rest).Whole? && OneTurn(l).rest == [] {
      TurnLeavesNothing(l.pending, l.merged, l.rest);
      NothingPending();
      FeedNothing([], t.merged, t.events);
      assert t.events + [] == t.events;
    }
  }

  lemma TurnLeavesNothing(pending: bytes, merged: bytes, data: bytes)
    requires data != [] && !ParseFrame(pending).Whole? && ParseFrame(pending + data).Whole?
    ensures TurnOf(pending, merged, data).pending == []
  {
  }

  /** What the loop leaves when it is over. */
  lemma {:induction false} TurnsOutcome(l: Loop, k: nat)
    requires Proper(l) && l.rest != [] && Turns(l, k).rest == []
    ensures var r := Feed(l.pending, l.merged, l.rest);
            Turns(l, k) == Loop(r.pending, r.merged, l.events + (r.events + Closing(r)), [])
    decreases k
  {
    hide Feed, Settles, OneTurn, Turns, Proper, Closing;
    EndedSettles(l, k);
    OutcomeStep(l);
    TurnsFirst(l, k);
    var l', r := OneTurn(l), Feed(l.pending, l.merged, l.rest);
    if l'.rest == [] {
      NoMoreTurns(l', k - 1);
    } else {
      TurnsOutcome(l', k - 1);
      var r' := Feed(l'.pending, l'.merged, l'.rest);
      var made :| l'.events == l.events + made && r == After(made, r');
      SameClosing(made, r');
      Regroup(l.events, made, r'.events, Closing(r'));
    }
  }

  lemma NoMoreTurns(l: Loop, k: nat)
    requires Proper(l) && l.rest == []
    ensures Turns(l, k) == l
  {
  }

  lemma SameClosing(made: seq<Event>, r: Outcome)
    ensures Closing(After(made, r)) == Closing(r)
  {
  }

  lemma Regroup(a: seq<Event>, b: seq<Event>, c: seq<Event>, d: seq<Event>)
    ensures a + b + (c + d) == a + (b + c + d)
  {
  }
}
