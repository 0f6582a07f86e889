/**
 * A message split over several slots (src/ws/CAsyncs.cpp:324-370) during the sweep of `uv__async_io` that follows.
 * `all` is the queue the sweep starts with; the parts are in its handles `p` to `p + |packets| - 1`.
 */
module SplitSend {
  import opened Bytes
  import opened AsyncIo

  datatype Split = Split(all: seq<Handle>, p: nat, packets: seq<Packet>, peer: Peer)

  /** The position behind the message's last handle. */
  function End(d: Split): nat {
    d.p + |d.packets|
  }

  ghost predicate WellPlaced(d: Split) {
    && End(d) <= |d.all|
    && (forall j, k :: 0 <= j < k < |d.all| ==> d.all[j] != d.all[k])
    && (forall i :: 0 <= i < |d.packets| ==> d.packets[i].peer == d.peer)
  }

  /** The handles from position `from` on, as far as they are the message's, still hold their parts. */
  ghost predicate Filled(s: State, d: Split, from: nat)
    requires WellPlaced(d)
  {
    forall q {:trigger d.all[q]} :: from <= q < End(d) && d.p <= q ==>
      d.all[q] in s.slots && s.slots[d.all[q]] == d.packets[q - d.p]
  }

  ghost predicate Raised(s: State, d: Split, from: nat)
    requires WellPlaced(d)
  {
    forall q {:trigger d.all[q]} :: from <= q < End(d) && d.p <= q ==> d.all[q] in s.pending
  }

  /** The parts are in place when the sweep begins: every slot of the message is filled and pending. */
  ghost predicate Posted(s: State, d: Split) {
    WellPlaced(d) && s.local == d.all && s.list == [] && s.pc == Sweeping && Filled(s, d, 0) && Raised(s, d, 0)
  }

  /** How many handles of the message are among the first `v`. */
  function Passed(d: Split, v: nat): (j: nat)
    ensures j <= |d.packets|
  {
    if v <= d.p then 0 else if v <= End(d) then v - d.p else |d.packets|
  }

  /** Positions whose callback is over: a callback under way belongs to the last handle visited. */
  function Handled(s: State, v: nat): nat {
    if s.pc.Called? && v > 0 then v - 1 else v
  }

  /** What the handles before and after the message's own contribute. */
  datatype Trace = Trace(callsBefore: seq<Handle>, callsAfter: seq<Handle>, before: seq<Packet>, after: seq<Packet>)

  ghost predicate CallsSoFar(calls: seq<Handle>, s0: State, d: Split, v: nat, tr: Trace)
    requires WellPlaced(d)
  {
    && calls == s0.calls + tr.callsBefore + d.all[d.p..d.p + Passed(d, v)] + tr.callsAfter
    && (v <= End(d) ==> tr.callsAfter == [])
  }

  ghost predicate WrittenSoFar(written: seq<Packet>, s0: State, d: Split, handled: nat, m: nat, tr: Trace)
    requires m <= |d.packets|
  {
    && written == s0.written + tr.before + d.packets[..m] + tr.after
    && (handled <= End(d) ==> tr.after == [])
  }

  /** The sweep after `v` visits, `m` parts written. */
  ghost predicate Stage(s0: State, s: State, d: Split, v: nat, m: nat, tr: Trace) {
    && WellPlaced(d)
    && v <= |d.all| && s.local == d.all[v..] && s.pc != Drained
    && (s.pc.Called? ==> v > 0 && s.pc.h == d.all[v - 1]) && (s.pc == Polling ==> v == |d.all|)
    && CallsSoFar(s.calls, s0, d, v, tr)
    && m <= Passed(d, Handled(s, v)) && (d.peer in s.registered ==> m == Passed(d, Handled(s, v)))
    && WrittenSoFar(s.written, s0, d, Handled(s, v), m, tr)
    && Raised(s, d, v) && Filled(s, d, Handled(s, v))
  }

  lemma StageAtStart(s0: State, d: Split)
    requires Posted(s0, d)
    ensures Stage(s0, s0, d, 0, 0, Trace([], [], [], []))
  {
    assert s0.calls + [] + d.all[d.p..d.p] + [] == s0.calls;
    assert s0.written + [] + d.packets[..0] + [] == s0.written;
  }

  /** Senders filling and sending on other slots, and peers going away, do not disturb the sweep. */
  lemma OthersKeepStage(s0: State, s: State, a: Action, d: Split, v: nat, m: nat, tr: Trace)
    requires Stage(s0, s, d, v, m, tr)
    requires Enabled(s, a) && !a.Read? && !a.Visit? && !a.Callback?
    ensures Stage(s0, Next(s, a), d, v, m, tr)
  {
    hide CallsSoFar, WrittenSoFar, Passed, Filled, Raised, WellPlaced;
    FlagsKept(s, a, d, v);
  }

  lemma FlagsKept(s: State, a: Action, d: Split, v: nat)
    requires WellPlaced(d) && Enabled(s, a) && !a.Read? && !a.Visit? && !a.Callback?
    requires Raised(s, d, v) && Filled(s, d, Handled(s, v))
    ensures Raised(Next(s, a), d, v) && Filled(Next(s, a), d, Handled(s, v))
  {
  }

  lemma VisitCalls(s0: State, calls: seq<Handle>, d: Split, v: nat, tr: Trace, called: bool) returns (tr': Trace)
    requires WellPlaced(d) && v < |d.all| && CallsSoFar(calls, s0, d, v, tr) && (d.p <= v < End(d) ==> called)
    ensures tr'.before == tr.before && tr'.after == tr.after
    ensures CallsSoFar(if called then calls + [d.all[v]] else calls, s0, d, v + 1, tr')
  {
    tr' := tr;
    if called {
      if v < d.p {
        tr' := tr.(callsBefore := tr.callsBefore + [d.all[v]]);
      } else if v >= End(d) {
        tr' := tr.(callsAfter := tr.callsAfter + [d.all[v]]);
      } else {
        assert d.all[d.p..v + 1] == d.all[d.p..v] + [d.all[v]];
      }
    }
  }

  lemma WrittenOnly(s0: State, written: seq<Packet>, d: Split, v: nat, v': nat, m: nat, tr: Trace, tr': Trace)
    requires m <= |d.packets| && v <= v' && WrittenSoFar(written, s0, d, v, m, tr)
    requires tr'.before == tr.before && tr'.after == tr.after
    ensures WrittenSoFar(written, s0, d, v', m, tr')
  {
  }

  lemma PassedOutside(d: Split, v: nat)
    requires v < d.p || v >= End(d)
    ensures Passed(d, v + 1) == Passed(d, v)
  {
  }

  lemma VisitStage(s0: State, s: State, d: Split, v: nat, m: nat, tr: Trace) returns (tr': Trace)
    requires Stage(s0, s, d, v, m, tr) && Enabled(s, Visit)
    ensures Stage(s0, Next(s, Visit), d, v + 1, m, tr')
  {
    hide CallsSoFar, WrittenSoFar, Passed;
    var called := d.all[v] in s.pending;
    assert d.all[v] == s.local[0];
    tr' := VisitCalls(s0, s.calls, d, v, tr, called);
    WrittenOnly(s0, s.written, d, v, if called then v else v + 1, m, tr, tr');
    if !called { PassedOutside(d, v); }
    VisitFlags(s, d, v);
  }

  lemma VisitFlags(s: State, d: Split, v: nat)
    requires WellPlaced(d) && v < |d.all| && s.local == d.all[v..] && Enabled(s, Visit)
    requires Raised(s, d, v) && Filled(s, d, v)
    ensures var s' := Next(s, Visit); Raised(s', d, v + 1) && Filled(s', d, v) && Filled(s', d, v + 1)
  {
  }

  /** A callback outside the message adds what it writes on its side; one of the message writes the next part. */
  lemma CallbackWrites(s0: State, written: seq<Packet>, d: Split, q: nat, m: nat, tr: Trace, sent: seq<Packet>)
    returns (m': nat, tr': Trace)
    requires WellPlaced(d) && q < |d.all| && |sent| <= 1 && m <= Passed(d, q) && WrittenSoFar(written, s0, d, q, m, tr)
    requires d.p <= q < End(d) && sent != [] ==> m == q - d.p && sent == [d.packets[m]]
    ensures tr'.callsBefore == tr.callsBefore && tr'.callsAfter == tr.callsAfter
    ensures m' == (if d.p <= q < End(d) && sent != [] then m + 1 else m)
    ensures WrittenSoFar(written + sent, s0, d, q + 1, m', tr')
  {
    tr', m' := tr, m;
    if q < d.p {
      tr' := tr.(before := tr.before + sent);
    } else if q >= End(d) {
      tr' := tr.(after := tr.after + sent);
    } else if sent != [] {
      m' := m + 1;
      assert d.packets[..m + 1] == d.packets[..m] + sent;
    }
  }

  lemma CallbackStage(s0: State, s: State, d: Split, v: nat, m: nat, tr: Trace) returns (m': nat, tr': Trace)
    requires Stage(s0, s, d, v, m, tr) && Enabled(s, Callback)
    ensures Stage(s0, Next(s, Callback), d, v, m', tr')
  {
    hide CallsSoFar, WrittenSoFar;
    var q, h := v - 1, s.pc.h;
    CallbackFlags(s, d, v);
    assert d.p <= q < End(d) ==> h in s.slots && s.slots[h] == d.packets[q - d.p] && d.packets[q - d.p].peer == d.peer;
    var sent := if h in s.slots && s.slots[h].peer in s.registered then [s.slots[h]] else [];
    assert s.written + [] == s.written;
    m', tr' := CallbackWrites(s0, s.written, d, q, m, tr, sent);
    CallsOnly(s0, s.calls, d, v, tr, tr');
  }

  lemma CallbackFlags(s: State, d: Split, v: nat)
    requires WellPlaced(d) && 0 < v <= |d.all| && Enabled(s, Callback) && s.pc.h == d.all[v - 1]
    requires Raised(s, d, v) && Filled(s, d, v - 1)
    ensures Raised(Next(s, Callback), d, v) && Filled(Next(s, Callback), d, v)
  {
  }

  lemma CallsOnly(s0: State, calls: seq<Handle>, d: Split, v: nat, tr: Trace, tr': Trace)
    requires WellPlaced(d) && CallsSoFar(calls, s0, d, v, tr)
    requires tr'.callsBefore == tr.callsBefore && tr'.callsAfter == tr.callsAfter
    ensures CallsSoFar(calls, s0, d, v, tr')
  {
  }

  lemma StageStep(s0: State, s: State, a: Action, d: Split, v: nat, m: nat, tr: Trace)
    returns (v': nat, m': nat, tr': Trace)
    requires Stage(s0, s, d, v, m, tr) && Enabled(s, a) && !a.Read?
    ensures Stage(s0, Next(s, a), d, v', m', tr')
  {
    v', m', tr' := v, m, tr;
    if a.Visit? {
      tr' := VisitStage(s0, s, d, v, m, tr);
      v' := v + 1;
    } else if a.Callback? {
      m', tr' := CallbackStage(s0, s, d, v, m, tr);
    } else {
      OthersKeepStage(s0, s, a, d, v, m, tr);
    }
  }

  lemma {:induction false} StageRun(s0: State, s: State, run: seq<Action>, d: Split, v: nat, m: nat, tr: Trace)
    returns (v': nat, m': nat, tr': Trace)
    requires Stage(s0, s, d, v, m, tr) && IsRun(s, run) && Read !in run
    ensures Stage(s0, After(s, run), d, v', m', tr')
    decreases |run|
  {
    hide Stage;
    v', m', tr' := v, m, tr;
    if run != [] {
      v', m', tr' := StageStep(s0, s, run[0], d, v, m, tr);
      v', m', tr' := StageRun(s0, Next(s, run[0]), run[1..], d, v', m', tr');
    }
  }

  function Data(packets: seq<Packet>): (r: bytes) {
    if packets == [] then [] else packets[0].data + Data(packets[1..])
  }

  lemma {:induction false} DataPrefix(packets: seq<Packet>, m: nat)
    requires m <= |packets|
    ensures Data(packets[..m]) <= Data(packets)
  {
    if m > 0 {
      DataPrefix(packets[1..], m - 1);
      assert packets[..m][1..] == packets[1..][..m - 1];
    }
  }

  /**
   * Split messages arrive whole and in order. If all parts are posted when a sweep begins, then whatever the senders do
   * meanwhile, that sweep calls the message's handles one after the other with none in between, and what it writes
   * for them, again with nothing in between, is the first `m` parts: a prefix of the message, and all of it if the
   * peer is still registered at the end.
   */
  lemma SplitMessageInOrder(s0: State, run: seq<Action>, d: Split) returns (m: nat, tr: Trace)
    requires Posted(s0, d) && IsRun(s0, run) && Read !in run && After(s0, run).pc == Polling
    ensures var s := After(s0, run);
            && s.calls == s0.calls + tr.callsBefore + d.all[d.p..End(d)] + tr.callsAfter
            && m <= |d.packets| && s.written == s0.written + tr.before + d.packets[..m] + tr.after
            && Data(d.packets[..m]) <= Data(d.packets)
            && (d.peer in s.registered ==> m == |d.packets|)
  {
    StageAtStart(s0, d);
    var v;
    v, m, tr := StageRun(s0, s0, run, d, 0, 0, Trace([], [], [], []));
    DataPrefix(d.packets, m);
  }

  function Total(parts: seq<nat>): (n: nat) {
    if parts == [] then 0 else Total(parts[..|parts| - 1]) + parts[|parts| - 1]
  }

  const DEFAULT_SPLIT_COUNT: nat := 3
  const MAX_SPLIT_COUNT: nat := 10

  function PartCount(count: nat): nat {
    if count == 0 then DEFAULT_SPLIT_COUNT else if count > MAX_SPLIT_COUNT then MAX_SPLIT_COUNT else count
  }

  // ----- split_ont_size_to_multi_parts (src/ws/common.cpp:222-245) -----

  /** What `rand() % average` comes to for the random number `x`: a draw of 0 is made again. */
  datatype Draw = DivisionFault | Again | Drawn(part: nat)

  function DrawOf(x: nat, average: nat): (d: Draw) {
    if average == 0 then DivisionFault else if x % average == 0 then Again else Drawn(x % average)
  }

  /** All parts but the last one are drawn; this says that random numbers exist with which every draw succeeds. */
  ghost predicate CanSplit(size: nat, count: nat) {
    exists xs: seq<nat> ::
      |xs| == PartCount(count) - 1 && forall i :: 0 <= i < |xs| ==> DrawOf(xs[i], size / PartCount(count)).Drawn?
  }

  lemma NeverDrawn(x: nat, average: nat)
    requires average <= 1
    ensures !DrawOf(x, average).Drawn?
  {
    assert average == 1 ==> x % average == 0;
  }

  /** The split of a size comes to an end if and only if there is one part only or the average is at least 2. */
  lemma SplitsIff(size: nat, count: nat)
    requires size > 0
    ensures CanSplit(size, count) <==> PartCount(count) == 1 || size / PartCount(count) >= 2
  {
    var n, average := PartCount(count), size / PartCount(count);
    if n == 1 || average >= 2 {
      var xs := seq(n - 1, _ => 1);
      assert forall i :: 0 <= i < |xs| ==> DrawOf(xs[i], average).Drawn?;
    } else {
      forall xs: seq<nat> | |xs| == n - 1
        ensures !DrawOf(xs[0], average).Drawn?
      {
        NeverDrawn(xs[0], average);
      }
    }
    hide DrawOf;
  }

  /** Two octets in three parts: the first draw divides by zero. */
  lemma TwoInThreeParts(x: nat)
    ensures DrawOf(x, 2 / PartCount(3)) == DivisionFault && !CanSplit(2, 3)
  {
    SplitsIff(2, 3);
  }

  /** Three octets in three parts, which is a message of one octet in its frame: whatever is drawn, it is drawn again. */
  lemma ThreeInThreeParts(x: nat)
    ensures DrawOf(x, 3 / PartCount(3)) == Again && !CanSplit(3, 3)
  {
    SplitsIff(3, 3);
    assert x % 1 == 0;
  }

  /**
   * `split_ont_size_to_multi_parts` where it comes to an end, with any random numbers that end each draw. A size of 0
   * leaves the result alone.
   */
  method SplitSize(size: nat, count: nat) returns (parts: seq<nat>)
    requires size == 0 || PartCount(count) == 1 || size / PartCount(count) >= 2
    ensures size == 0 ==> parts == []
    ensures size > 0 ==> |parts| == (if count == 0 then 3 else if count <= 10 then count else 10) && Total(parts) == size
    ensures forall i :: 0 <= i < |parts| ==> 0 < parts[i] <= size
  {
    if size == 0 {
      return [];
    }
    var n := PartCount(count);
    var average := size / n;
    Leftover(size, n);
    var added;
    parts, added := DrawParts(n - 1, average);
    assert (parts + [size - added])[..|parts|] == parts;
    parts := parts + [size - added];
  }

  /** All parts but the last one. */
  method DrawParts(k: nat, average: nat) returns (parts: seq<nat>, added: nat)
    requires k == 0 || average >= 2
    ensures |parts| == k && Total(parts) == added <= k * Less(average)
    ensures forall i :: 0 <= i < k ==> 0 < parts[i] < average
  {
    parts, added := [], 0;
    while |parts| < k
      invariant |parts| <= k && Total(parts) == added <= |parts| * Less(average)
      invariant forall i :: 0 <= i < |parts| ==> 0 < parts[i] < average
    {
      var drawn := DrawPart(average);
      Times(|parts|, Less(average));
      assert (parts + [drawn])[..|parts|] == parts;
      parts := parts + [drawn];
      added := added + drawn;
    }
  }

  /** The inner loop, with any random number that ends it. */
  method DrawPart(average: nat) returns (drawn: nat)
    requires average >= 2
    ensures 0 < drawn < average
  {
    var x: nat :| DrawOf(x, average).Drawn? by { assert DrawOf(1, average).Drawn?; }
    drawn := DrawOf(x, average).part;
  }

  function Less(n: nat): nat {
    if n == 0 then 0 else n - 1
  }

  lemma Times(k: nat, a: nat)
    ensures (k + 1) * a == k * a + a
  {
  }

  lemma Leftover(size: nat, n: nat)
    requires n > 0 && size > 0 && (n == 1 || size / n >= 2)
    ensures (n - 1) * Less(size / n) < size && size / n <= size
  {
    Quotient(size, n);
    if n > 1 { Product(n - 1, Less(size / n)); }
  }

  lemma Quotient(size: nat, n: nat)
    requires n > 0
    ensures n * (size / n) <= size && size / n <= size
  {
    var a := size / n;
    assert size == n * a + size % n;
    Product(n - 1, a);
  }

  lemma Product(m: nat, b: nat)
    ensures (m + 1) * (b + 1) == m * b + m + b + 1 && m * b >= 0
  {
  }

  /** The parts of `data` as packets, cut at the given lengths (CAsyncs.cpp:356-366). */
  function Cut(data: bytes, parts: seq<nat>, peer: Peer): (r: seq<Packet>)
    requires Total(parts) == |data|
    ensures |r| == |parts|
    decreases |parts|
  {
    if parts == [] then []
    else
      var last := |parts| - 1;
      Cut(data[..|data| - parts[last]], parts[..last], peer) + [Packet(peer, data[|data| - parts[last]..])]
  }

  lemma {:induction false} DataAppend(packets: seq<Packet>, x: Packet)
    ensures Data(packets + [x]) == Data(packets) + x.data
  {
    if packets == [] {
      assert [] + [x] == [x] && Data([]) == [] && x.data + [] == x.data;
    } else {
      assert (packets + [x])[1..] == packets[1..] + [x];
      DataAppend(packets[1..], x);
    }
  }

  /** Nothing is lost or repeated by cutting, so what a whole split sends is the message. */
  lemma {:induction false} CutIsWhole(data: bytes, parts: seq<nat>, peer: Peer)
    requires Total(parts) == |data|
    ensures Data(Cut(data, parts, peer)) == data
    decreases |parts|
  {
    if parts != [] {
      var last := |parts| - 1;
      var front := data[..|data| - parts[last]];
      CutIsWhole(front, parts[..last], peer);
      DataAppend(Cut(front, parts[..last], peer), Packet(peer, data[|data| - parts[last]..]));
    }
  }

  /** Each part has the length that was drawn for it, and goes to the same peer. */
  lemma {:induction false} CutParts(data: bytes, parts: seq<nat>, peer: Peer)
    requires Total(parts) == |data|
    ensures forall i :: 0 <= i < |parts| ==>
              |Cut(data, parts, peer)[i].data| == parts[i] && Cut(data, parts, peer)[i].peer == peer
    decreases |parts|
  {
    if parts != [] {
      var last := |parts| - 1;
      CutParts(data[..|data| - parts[last]], parts[..last], peer);
    }
  }
}
