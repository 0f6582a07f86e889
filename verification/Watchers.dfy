/**
 * The I/O watcher table of a loop: `maybe_resize`, `uv__io_start` and `uv__io_stop` (deps/libuv/src/unix/core.c), and the
 * drain of the watcher queue with which a poll begins (deps/libuv/src/unix/linux-core.c).
 */
module Watchers {
  import opened Bytes
  import opened PowerOfTwo
  import opened Sequences

  /** The bits of an event mask. */
  datatype Event = POLLIN | POLLOUT | POLLRDHUP

  /** `uv__io_t`. */
  class Io {
    const fd: int
    var events: set<Event>
    var pevents: set<Event>

    constructor (fd: int)
      ensures this.fd == fd && events == {} && pevents == {}
    {
      this.fd := fd;
      events, pevents := {}, {};
    }
  }

  /** A pointer of the table; the two behind the last entry belong to the poll. */
  datatype Slot = Null | Watcher(w: Io) | Fake(address: nat)

  function Count(s: seq<Slot>): (n: nat)
    ensures n <= |s|
  {
    if s == [] then 0 else Count(s[..|s| - 1]) + if s[|s| - 1] == Null then 0 else 1
  }

  lemma {:induction false} CountUpdate(s: seq<Slot>, i: nat, x: Slot)
    requires i < |s|
    ensures Count(s[i := x]) == Count(s) - (if s[i] == Null then 0 else 1) + if x == Null then 0 else 1
    ensures s[i] != Null ==> Count(s) > 0
  {
    var last := |s| - 1;
    if i < last {
      CountUpdate(s[..last], i, x);
      assert s[i := x][..last] == s[..last][i := x];
    } else {
      assert s[i := x][..last] == s[..last];
    }
  }

  lemma {:induction false} CountPadded(s: seq<Slot>, n: nat)
    ensures Count(s + Nulls(n)) == Count(s)
  {
    var t := s + Nulls(n);
    if n == 0 {
      assert t == s;
    } else {
      assert t[..|t| - 1] == s + Nulls(n - 1);
      CountPadded(s, n - 1);
    }
  }

  datatype Op = Add(fd: int, mask: set<Event>) | Mod(fd: int, mask: set<Event>)

  /** What a watcher is to be polled for and is. */
  datatype Masks = Masks(events: set<Event>, pevents: set<Event>)

  ghost function MasksOf(w: Io): Masks
    reads w
  {
    Masks(w.events, w.pevents)
  }

  /** A mask not yet handed to the kernel is queued; nothing is armed or queued that nobody waits for. */
  ghost predicate Fits(m: Masks, queued: bool) {
    (m.events != m.pevents ==> queued) && (m.pevents == {} ==> m.events == {} && !queued)
  }

  /** What the loop's table, counter and queue are, and the masks of all its watchers. */
  datatype View = View(entries: seq<Slot>, nfds: int, queue: seq<Io>, masks: map<Io, Masks>)

  predicate Registered(entries: seq<Slot>, w: Io) {
    0 <= w.fd < |entries| && entries[w.fd] == Watcher(w)
  }

  ghost predicate Table(v: View) {
    forall i :: 0 <= i < |v.entries| ==>
      v.entries[i] == Null || (v.entries[i].Watcher? && v.entries[i].w in v.masks && v.entries[i].w.fd == i)
  }

  ghost predicate OnePerFd(v: View) {
    forall u, w :: u in v.masks && w in v.masks && u.fd == w.fd ==> u == w
  }

  ghost predicate Queued(v: View) {
    (forall i, j :: 0 <= i < j < |v.queue| ==> v.queue[i] != v.queue[j]) && forall w :: w in v.queue ==> w in v.masks
  }

  /** A watcher is registered if and only if somebody waits for it. */
  ghost predicate Agree(v: View) {
    forall w :: w in v.masks ==>
      Fits(v.masks[w], w in v.queue) && (Registered(v.entries, w) <==> v.masks[w].pevents != {})
  }

  ghost predicate Good(v: View) {
    Table(v) && OnePerFd(v) && Queued(v) && Agree(v) && v.nfds == Count(v.entries)
  }

  /** The table grown to `size` entries. */
  lemma GrownGood(v: View, size: nat)
    requires Good(v) && |v.entries| <= size
    ensures Good(Grown(v, size))
  {
    CountPadded(v.entries, size - |v.entries|);
    hide Count;
  }

  ghost function Grown(v: View, size: nat): View
    requires |v.entries| <= size
  {
    v.(entries := v.entries + Nulls(size - |v.entries|))
  }

  /** `uv__io_start` on a table that has room for the watcher. */
  ghost function Started(v: View, w: Io, events: set<Event>): View
    requires w in v.masks && 0 <= w.fd < |v.entries|
  {
    var m := v.masks[w].(pevents := v.masks[w].pevents + events);
    var v' := v.(masks := v.masks[w := m]);
    if m.events == m.pevents then v' else
      v'.(queue := if w in v.queue then v.queue else v.queue + [w],
          entries := if v.entries[w.fd] == Null then v.entries[w.fd := Watcher(w)] else v.entries,
          nfds := if v.entries[w.fd] == Null then v.nfds + 1 else v.nfds)
  }

  lemma GrownView(v: View, size: nat)
    requires |v.entries| <= size
    ensures Grown(v, size) == View(v.entries + Nulls(size - |v.entries|), v.nfds, v.queue, v.masks)
  {
  }

  lemma StartedView(v: View, w: Io, events: set<Event>)
    requires w in v.masks && 0 <= w.fd < |v.entries|
    ensures var m := Masks(v.masks[w].events, v.masks[w].pevents + events);
            Started(v, w, events) ==
            if m.events == m.pevents then View(v.entries, v.nfds, v.queue, v.masks[w := m])
            else if v.entries[w.fd] == Null then
              View(v.entries[w.fd := Watcher(w)], v.nfds + 1, if w in v.queue then v.queue else v.queue + [w], v.masks[w := m])
            else View(v.entries, v.nfds, if w in v.queue then v.queue else v.queue + [w], v.masks[w := m])
  {
  }

  lemma StartedGood(v: View, w: Io, events: set<Event>)
    requires Good(v) && w in v.masks && 0 <= w.fd < |v.entries| && events != {}
    ensures Good(Started(v, w, events))
  {
    hide Count, Table, OnePerFd, Queued, Agree;
    CountUpdate(v.entries, w.fd, Watcher(w));
    StartedLists(v, w, events);
    StartedAgrees(v, w, events);
  }

  lemma StartedLists(v: View, w: Io, events: set<Event>)
    requires Good(v) && w in v.masks && 0 <= w.fd < |v.entries| && events != {}
    ensures var v' := Started(v, w, events); Table(v') && OnePerFd(v') && Queued(v')
  {
    hide Count, Agree;
  }

  lemma StartedAgrees(v: View, w: Io, events: set<Event>)
    requires Good(v) && w in v.masks && 0 <= w.fd < |v.entries| && events != {}
    ensures Agree(Started(v, w, events))
  {
    hide Count;
  }

  /** `uv__io_stop` on a watcher whose descriptor is in the range of the table. */
  ghost function Stopped(v: View, w: Io, events: set<Event>): View
    requires w in v.masks && 0 <= w.fd < |v.entries|
  {
    var m := v.masks[w].(pevents := v.masks[w].pevents - events);
    if m.pevents != {} then
      v.(masks := v.masks[w := m], queue := if w in v.queue then v.queue else v.queue + [w])
    else if v.entries[w.fd] == Null then
      v.(masks := v.masks[w := m], queue := Without(v.queue, w))
    else
      v.(masks := v.masks[w := m.(events := {})], queue := Without(v.queue, w),
         entries := v.entries[w.fd := Null], nfds := v.nfds - 1)
  }

  lemma StoppedGood(v: View, w: Io, events: set<Event>)
    requires Good(v) && w in v.masks && 0 <= w.fd < |v.entries|
    ensures Good(Stopped(v, w, events))
    ensures v.entries[w.fd] != Null ==> v.entries[w.fd] == Watcher(w) && v.nfds > 0
  {
    CountUpdate(v.entries, w.fd, Null);
    if v.masks[w].pevents - events != {} {
      NarrowedGood(v, w, events);
    } else {
      UnregisteredGood(v, w, events);
    }
    hide Count, Without, Stopped;
  }

  lemma NarrowedGood(v: View, w: Io, events: set<Event>)
    requires Good(v) && w in v.masks && 0 <= w.fd < |v.entries| && v.masks[w].pevents - events != {}
    ensures Good(Stopped(v, w, events))
  {
    hide Count, Without;
  }

  lemma UnregisteredGood(v: View, w: Io, events: set<Event>)
    requires Good(v) && w in v.masks && 0 <= w.fd < |v.entries| && v.masks[w].pevents - events == {}
    ensures Good(Stopped(v, w, events))
  {
    hide Count, Without, Table, OnePerFd, Queued, Agree;
    CountUpdate(v.entries, w.fd, Null);
    UnregisteredLists(v, w, events);
    UnregisteredAgrees(v, w, events);
    EntryOf(v, w);
  }

  /** The entry of a descriptor in the range of the table is empty or the watcher of that descriptor. */
  lemma EntryOf(v: View, w: Io)
    requires Good(v) && w in v.masks && 0 <= w.fd < |v.entries|
    ensures v.entries[w.fd] == Null || v.entries[w.fd] == Watcher(w)
  {
    hide Count, Agree;
  }

  lemma UnregisteredLists(v: View, w: Io, events: set<Event>)
    requires Good(v) && w in v.masks && 0 <= w.fd < |v.entries| && v.masks[w].pevents - events == {}
    ensures var v' := Stopped(v, w, events); Table(v') && OnePerFd(v') && Queued(v')
  {
    hide Count, Without, Agree;
    WithoutFacts(v.queue, w);
  }

  lemma UnregisteredAgrees(v: View, w: Io, events: set<Event>)
    requires Good(v) && w in v.masks && 0 <= w.fd < |v.entries| && v.masks[w].pevents - events == {}
    ensures Agree(Stopped(v, w, events))
  {
    hide Count, Without;
    WithoutFacts(v.queue, w);
  }

  /** The head of the queue is armed. */
  ghost function Armed(v: View): View
    requires v.queue != [] && v.queue[0] in v.masks
  {
    var w := v.queue[0];
    v.(queue := v.queue[1..], masks := v.masks[w := v.masks[w].(events := v.masks[w].pevents)])
  }

  lemma ArmedGood(v: View)
    requires Good(v) && v.queue != []
    ensures v.queue[0] in v.masks && Good(Armed(v))
    ensures v.masks[v.queue[0]].pevents != {} && 0 <= v.queue[0].fd < |v.entries|
  {
    var w := v.queue[0];
    assert w in v.queue;
    assert forall x :: x in v.queue ==> x == w || x in v.queue[1..];
    hide Count;
  }

  /** When no watcher is registered none is queued. */
  lemma NothingQueued(v: View)
    requires Good(v) && v.nfds == 0
    ensures v.queue == []
  {
    if v.queue != [] {
      ArmedGood(v);
      var w := v.queue[0];
      assert w in v.queue && Registered(v.entries, w);
      CountUpdate(v.entries, w.fd, Null);
      assert false;
    }
  }

  function Nulls(n: nat): (r: seq<Slot>)
    ensures |r| == n
  {
    seq(n, _ => Null)
  }

  /** The new entries are set to null. */
  method Extend(entries: seq<Slot>, size: nat) returns (r: seq<Slot>)
    requires |entries| <= size
    ensures r == entries + Nulls(size - |entries|)
  {
    r := entries;
    var i := |entries|;
    while i < size
      invariant |entries| <= i <= size && r == entries + Nulls(i - |entries|)
    {
      assert Nulls(i + 1 - |entries|) == Nulls(i - |entries|) + [Null];
      r := r + [Null];
      i := i + 1;
    }
  }

  lemma PowerFits(n: nat)
    requires 1 <= n <= TWO_31
    ensures n <= Pow2(LeastPower(n)) <= TWO_31
  {
    Exponent(n);
    Powers();
    Pow2Grows(LeastPower(n), 31);
  }

  /** What `next_power_of_two` returns. */
  function PowerFor(val: nat): nat
    requires val >= 1
  {
    if val <= TWO_31 then Pow2(LeastPower(val)) else 0
  }

  function TwoLess(n: nat): nat {
    Uint(n + UINT_LIMIT - 2)
  }

  /** `nwatchers` as `maybe_resize` computes it for `len` entries, and for how many slots it allocates, in 32 bits. */
  function NewCount(len: nat): nat {
    TwoLess(PowerFor(len + 2))
  }

  function SlotsAllocated(len: nat): nat {
    Uint(NewCount(len) + 2)
  }

  lemma TwoLessIs(n: nat)
    requires n <= TWO_31
    ensures TwoLess(n) == (if n >= 2 then n - 2 else UINT_LIMIT + n - 2) && Uint(TwoLess(n) + 2) == n
  {
  }

  /**
   * Of the lengths that `uv__io_start` may ask for, whose assert lets descriptors up to 2^31 - 2 pass, the last one does
   * not fit: the power of two wraps around, and with 2^32 - 2 entries counted none is allocated.
   */
  lemma GrowthFitsIff(len: nat)
    requires 0 < len < TWO_31
    ensures NewCount(len) >= len && SlotsAllocated(len) == NewCount(len) + 2 <==> len + 2 <= TWO_31
    ensures len + 2 > TWO_31 ==> NewCount(len) == UINT_LIMIT - 2 && SlotsAllocated(len) == 0
  {
    hide Pow2, LeastPower, TwoLess, Uint;
    if len + 2 <= TWO_31 { PowerFits(len + 2); }
    TwoLessIs(PowerFor(len + 2));
  }

  class Loop {
    /** The entries of the table and, once it is allocated, the two slots behind them. */
    var watchers: seq<Slot>
    var nwatchers: nat
    var nfds: int
    var queue: seq<Io>
    /** All watchers of the loop. */
    ghost const ios: set<Io>

    ghost predicate Valid()
      reads this, ios
    {
      Sized() && Good(TheView())
    }

    ghost function TheView(): View
      reads this, ios
    {
      View(Entries(), nfds, queue, AllMasks())
    }

    ghost function AllMasks(): (m: map<Io, Masks>)
      reads ios
      ensures m.Keys == ios
    {
      map w | w in ios :: MasksOf(w)
    }

    predicate Sized()
      reads this`watchers, this`nwatchers
    {
      nwatchers + 2 <= TWO_31 && |watchers| == if nwatchers == 0 && watchers == [] then 0 else nwatchers + 2
    }

    ghost function Entries(): (s: seq<Slot>)
      reads this`watchers, this`nwatchers
    {
      if nwatchers <= |watchers| then watchers[..nwatchers] else []
    }

    ghost function Trailing(): seq<Slot>
      reads this`watchers, this`nwatchers
    {
      if nwatchers + 2 == |watchers| then watchers[nwatchers..] else [Null, Null]
    }

    constructor (ghost ios: set<Io>)
      requires forall v, w :: v in ios && w in ios && v.fd == w.fd ==> v == w
      requires forall w :: w in ios ==> w.events == {} && w.pevents == {}
      ensures Valid() && this.ios == ios && queue == [] && nfds == 0
    {
      watchers, nwatchers, nfds, queue := [], 0, 0, [];
      this.ios := ios;
    }

    /** `maybe_resize`: the entries and the two slots behind them survive. */
    method MaybeResize(len: nat)
      requires Sized() && len + 2 <= TWO_31
      modifies this`watchers, this`nwatchers
      ensures Sized() && len <= nwatchers && Trailing() == old(Trailing())
      ensures if len <= old(nwatchers) then watchers == old(watchers) && nwatchers == old(nwatchers)
              else nwatchers + 2 == Pow2(LeastPower(len + 2))
      ensures old(|Entries()|) <= nwatchers && Entries() == old(Entries()) + Nulls(nwatchers - old(|Entries()|))
    {
      if len <= nwatchers {
        assert Entries() + Nulls(0) == Entries();
        return;
      }
      Grow(len);
    }

    method Grow(len: nat)
      requires Sized() && nwatchers < len && len + 2 <= TWO_31
      modifies this`watchers, this`nwatchers
      ensures Sized() && len <= nwatchers && Trailing() == old(Trailing()) && nwatchers + 2 == Pow2(LeastPower(len + 2))
      ensures Entries() == old(Entries()) + Nulls(nwatchers - old(|Entries()|))
    {
      hide Pow2, LeastPower, Entries, Trailing;
      var entries, trailing := Parts();
      var count := CountFor(len);
      var extended := Extend(entries, count);
      Install(extended, trailing);
    }

    /** The table without the two slots behind it, and these. */
    method Parts() returns (entries: seq<Slot>, trailing: seq<Slot>)
      requires Sized()
      ensures entries == Entries() && trailing == Trailing() && |trailing| == 2 && |entries| <= nwatchers
    {
      var fakeWatcherList, fakeWatcherCount := Null, Null;
      entries := [];
      if watchers != [] {
        fakeWatcherList, fakeWatcherCount := watchers[nwatchers], watchers[nwatchers + 1];
        entries := watchers[..nwatchers];
      }
      trailing := [fakeWatcherList, fakeWatcherCount];
    }

    /** The new number of entries: two less than a power of two. */
    static method CountFor(len: nat) returns (count: nat)
      requires len + 2 <= TWO_31
      ensures count == NewCount(len) && count + 2 == Pow2(LeastPower(len + 2)) && len <= count && count + 2 <= TWO_31
    {
      hide Pow2, LeastPower, TwoLess;
      PowerFits(len + 2);
      TwoLessIs(PowerFor(len + 2));
      var size := NextPowerOfTwo(len + 2);
      count := TwoLess(size);
    }

    method Install(entries: seq<Slot>, trailing: seq<Slot>)
      requires |trailing| == 2 && |entries| + 2 <= TWO_31
      modifies this`watchers, this`nwatchers
      ensures Sized() && nwatchers == |entries| && Entries() == entries && Trailing() == trailing
    {
      watchers, nwatchers := entries + trailing, |entries|;
    }

    /** An assignment to an entry of the table. */
    method Put(i: nat, x: Slot)
      requires Sized() && i < nwatchers
      modifies this`watchers
      ensures Sized() && Entries() == old(Entries())[i := x] && Trailing() == old(Trailing())
    {
      ghost var was := watchers;
      watchers := watchers[i := x];
      assert watchers[..nwatchers] == was[..nwatchers][i := x];
      assert watchers[nwatchers..] == was[nwatchers..];
    }

    method SetPevents(w: Io, pevents: set<Event>)
      requires w in ios
      modifies w`pevents
      ensures w.pevents == pevents && AllMasks() == old(AllMasks())[w := Masks(w.events, pevents)]
    {
      w.pevents := pevents;
    }

    method SetEvents(w: Io, events: set<Event>)
      requires w in ios
      modifies w`events
      ensures w.events == events && AllMasks() == old(AllMasks())[w := Masks(events, w.pevents)]
    {
      w.events := events;
    }

    lemma Seen(w: Io)
      requires w in ios
      ensures AllMasks()[w] == Masks(w.events, w.pevents)
      ensures Sized() ==> |Entries()| == (if watchers == [] then 0 else nwatchers)
      ensures Sized() ==> forall i :: 0 <= i < |Entries()| ==> Entries()[i] == watchers[i]
    {
    }

    /** `uv__io_start`. */
    method Start(w: Io, events: set<Event>)
      requires Valid() && w in ios && events != {} && 0 <= w.fd && w.fd + 3 <= TWO_31
      modifies this`watchers, this`nwatchers, this`nfds, this`queue, w`pevents
      ensures Valid() && Trailing() == old(Trailing()) && old(|Entries()|) <= nwatchers && w.fd < nwatchers
      ensures TheView() == Started(Grown(old(TheView()), nwatchers), w, events)
    {
      ghost var v := TheView();
      assert w in v.masks;
      hide Good, Started, Grown, TheView, AllMasks, Entries, Trailing, Sized, Nulls;
      StartView(w, events);
      GrownGood(v, nwatchers);
      StartedGood(Grown(v, nwatchers), w, events);
    }

    method StartView(w: Io, events: set<Event>)
      requires Sized() && w in ios && 0 <= w.fd && w.fd + 3 <= TWO_31
      modifies this`watchers, this`nwatchers, this`nfds, this`queue, w`pevents
      ensures Sized() && Trailing() == old(Trailing()) && old(|TheView().entries|) <= nwatchers && w.fd < nwatchers
      ensures |Grown(old(TheView()), nwatchers).entries| == nwatchers && w in old(TheView()).masks
      ensures TheView() == Started(Grown(old(TheView()), nwatchers), w, events)
    {
      ghost var v := TheView();
      Seen(w);
      hide Started, Grown, AllMasks, Entries, Trailing, Sized, Nulls;
      StartFields(w, events);
      GrownView(v, nwatchers);
      StartedView(Grown(v, nwatchers), w, events);
    }

    method StartFields(w: Io, events: set<Event>)
      requires Sized() && w in ios && 0 <= w.fd && w.fd + 3 <= TWO_31
      modifies this`watchers, this`nwatchers, this`nfds, this`queue, w`pevents
      ensures Sized() && Trailing() == old(Trailing()) && old(|Entries()|) <= nwatchers && w.fd < nwatchers
      ensures AllMasks() == old(AllMasks())[w := Masks(w.events, old(w.pevents) + events)]
      ensures var grown := old(Entries()) + Nulls(nwatchers - old(|Entries()|));
              var listed := w.events != old(w.pevents) + events;
              && queue == (if listed && w !in old(queue) then old(queue) + [w] else old(queue))
              && Entries() == (if listed && grown[w.fd] == Null then grown[w.fd := Watcher(w)] else grown)
              && nfds == if listed && grown[w.fd] == Null then old(nfds) + 1 else old(nfds)
    {
      hide AllMasks, Entries, Trailing, Sized, Nulls;
      SetPevents(w, w.pevents + events);
      MaybeResize(w.fd + 1);
      if w.events != w.pevents {
        Enlist(w);
      }
    }

    /** The part of `uv__io_start` behind its early return. */
    method Enlist(w: Io)
      requires Sized() && 0 <= w.fd < |Entries()|
      modifies this`watchers, this`nfds, this`queue
      ensures Sized() && Trailing() == old(Trailing()) && queue == if w in old(queue) then old(queue) else old(queue) + [w]
      ensures Entries() == if old(Entries()[w.fd]) == Null then old(Entries())[w.fd := Watcher(w)] else old(Entries())
      ensures nfds == if old(Entries()[w.fd]) == Null then old(nfds) + 1 else old(nfds)
    {
      if w !in queue {
        queue := queue + [w];
      }
      assert Entries()[w.fd] == watchers[w.fd];
      if watchers[w.fd] == Null {
        Put(w.fd, Watcher(w));
        nfds := nfds + 1;
      }
    }

    /** `uv__io_stop`. */
    method Stop(w: Io, events: set<Event>)
      requires Valid() && w in ios && events != {} && w.fd >= -1
      modifies this`watchers, this`nfds, this`queue, w
      ensures Valid() && Trailing() == old(Trailing()) && nwatchers == old(nwatchers)
      ensures TheView() == if 0 <= w.fd < old(|Entries()|) then Stopped(old(TheView()), w, events) else old(TheView())
    {
      ghost var v := TheView();
      if w.fd == -1 || w.fd >= nwatchers {
        return;
      }
      TableAllocated(w);
      hide Good, Stopped, TheView, Entries, Trailing, Sized;
      StopFields(w, events);
      StoppedGood(v, w, events);
    }

    method StopFields(w: Io, events: set<Event>)
      requires Sized() && w in ios && 0 <= w.fd < |Entries()|
      modifies this`watchers, this`nfds, this`queue, w
      ensures Sized() && Trailing() == old(Trailing()) && TheView() == Stopped(old(TheView()), w, events)
    {
      hide MasksOf;
      Seen(w);
      hide AllMasks, Entries, Trailing, Sized, Without;
      SetPevents(w, w.pevents - events);
      if w.pevents == {} {
        var registered := Unlist(w);
        if registered {
          SetEvents(w, {});
        }
      } else if w !in queue {
        queue := queue + [w];
      }
    }

    lemma TableAllocated(w: Io)
      requires Valid() && 0 <= w.fd < nwatchers && w in ios
      ensures w.fd < |Entries()| && w in TheView().masks
    {
    }

    method Unlist(w: Io) returns (registered: bool)
      requires Sized() && 0 <= w.fd < |Entries()|
      modifies this`watchers, this`nfds, this`queue
      ensures Sized() && Trailing() == old(Trailing()) && queue == Without(old(queue), w)
      ensures registered == (old(Entries()[w.fd]) != Null)
      ensures Entries() == if registered then old(Entries())[w.fd := Null] else old(Entries())
      ensures nfds == if registered then old(nfds) - 1 else old(nfds)
    {
      hide Without;
      queue := Without(queue, w);
      assert Entries()[w.fd] == watchers[w.fd];
      registered := watchers[w.fd] != Null;
      if registered {
        Put(w.fd, Null);
        nfds := nfds - 1;
      }
    }

    /**
     * The head of `uv__io_poll`: every queued watcher is handed to the kernel with the events it waits for. The source
     * aborts when a watcher that is armed has been forgotten by the kernel.
     */
    method Drain(kernel0: Kernel) returns (ops: seq<Op>, kernel: Kernel)
      requires Valid() && Known(kernel0, TheView())
      modifies this`queue, ios`events
      ensures Valid() && (ops, TheView(), kernel) == Drained(old(TheView()), kernel0)
    {
      ops, kernel := [], kernel0;
      ghost var v := TheView();
      DrainEnd(v, kernel0);
      if nfds == 0 {
        NothingQueued(v);
        return;
      }
      ghost var now := v;
      assert ops + Drained(v, kernel).0 == Drained(v, kernel).0;
      hide Drained, AllMasks, Entries, Sized, Good, Armed, Known;
      while queue != []
        invariant Valid() && now == TheView() && Good(now) && Good(v) && Known(kernel, now)
        invariant ToDrain(v, kernel0, ops, now, kernel)
        decreases |queue|
      {
        ToDrainStep(v, kernel0, ops, now, kernel);
        var more;
        more, kernel := ArmHead(kernel);
        ops := ops + more;
        now := TheView();
      }
      DrainEnd(now, kernel);
      assert ops + [] == ops;
    }

    /** One turn of the loop: an addition that finds the descriptor there already is made again as a modification. */
    method ArmHead(kernel0: Kernel) returns (ops: seq<Op>, kernel: Kernel)
      requires Valid() && queue != [] && Known(kernel0, TheView())
      modifies this`queue, ios`events
      ensures Valid() && TheView() == Armed(old(TheView())) && |queue| < old(|queue|)
      ensures ops == CallsFor(old(queue[0]), old(TheView()).masks[old(queue[0])], kernel0)
      ensures kernel == kernel0[old(queue[0]).fd := old(queue[0].pevents)]
    {
      hide Good, AllMasks, Entries, Trailing, Sized, Fits, Table, Agree;
      ArmedGood(TheView());
      var w := queue[0];
      Seen(w);
      HeadKnown(kernel0, TheView());
      var op := if w.events == {} then Add(w.fd, w.pevents) else Mod(w.fd, w.pevents);
      ops := [op];
      if !Succeeds(kernel0, op) {
        assert op.Add?;
        ops := ops + [Mod(w.fd, w.pevents)];
      }
      kernel := kernel0[w.fd := w.pevents];
      queue := queue[1..];
      SetEvents(w, w.pevents);
    }
  }

  /** The descriptors that the kernel polls, and for what. */
  type Kernel = map<int, set<Event>>

  /** epoll_ctl answers EEXIST or ENOENT otherwise. */
  predicate Succeeds(kernel: Kernel, op: Op) {
    if op.Add? then op.fd !in kernel else op.fd in kernel
  }

  /** The kernel has not forgotten an armed watcher. */
  ghost predicate Known(kernel: Kernel, v: View) {
    forall w :: w in v.masks && v.masks[w].events != {} ==> w.fd in kernel
  }

  lemma HeadKnown(kernel: Kernel, v: View)
    requires Known(kernel, v) && v.queue != [] && v.queue[0] in v.masks
    ensures v.masks[v.queue[0]].events != {} ==> v.queue[0].fd in kernel
  {
  }

  /** The kernel polls for exactly what the watchers are armed with. */
  ghost predicate PollsFor(kernel: Kernel, v: View) {
    forall w :: w in v.masks && v.masks[w].events != {} ==> w.fd in kernel && kernel[w.fd] == v.masks[w].events
  }

  /** The calls of epoll_ctl for one watcher. */
  ghost function CallsFor(w: Io, m: Masks, kernel: Kernel): (r: seq<Op>) {
    if m.events != {} then [Mod(w.fd, m.pevents)]
    else if w.fd in kernel then [Add(w.fd, m.pevents), Mod(w.fd, m.pevents)]
    else [Add(w.fd, m.pevents)]
  }

  ghost function KernelArmed(v: View, kernel: Kernel): Kernel
    requires v.queue != [] && v.queue[0] in v.masks
  {
    kernel[v.queue[0].fd := v.masks[v.queue[0]].pevents]
  }

  lemma ArmedKnown(v: View, kernel: Kernel)
    requires Good(v) && v.queue != [] && v.queue[0] in v.masks
    ensures Known(kernel, v) ==> Known(KernelArmed(v, kernel), Armed(v))
    ensures PollsFor(kernel, v) ==> PollsFor(KernelArmed(v, kernel), Armed(v))
  {
    hide Table, Queued, Agree, Count;
  }

  /** What a drain does: the calls of epoll_ctl, and the view and the kernel it leaves. */
  ghost function Drained(v: View, kernel: Kernel): (r: (seq<Op>, View, Kernel))
    requires Good(v)
    decreases |v.queue|
  {
    if v.queue == [] then ([], v, kernel) else
      var w := v.queue[0];
      assert Good(Armed(v)) by { ArmedGood(v); }
      var rest := Drained(Armed(v), KernelArmed(v, kernel));
      (CallsFor(w, v.masks[w], kernel) + rest.0, rest.1, rest.2)
  }

  /** The calls made so far and those of a drain from here make up the whole drain. */
  ghost predicate ToDrain(v: View, kernel0: Kernel, ops: seq<Op>, now: View, kernel: Kernel)
    requires Good(v) && Good(now)
  {
    var rest := Drained(now, kernel);
    Drained(v, kernel0) == (ops + rest.0, rest.1, rest.2)
  }

  lemma ToDrainStep(v: View, kernel0: Kernel, ops: seq<Op>, now: View, kernel: Kernel)
    requires Good(v) && Good(now) && ToDrain(v, kernel0, ops, now, kernel) && now.queue != [] && Known(kernel, now)
    ensures now.queue[0] in now.masks && Good(Armed(now)) && Known(KernelArmed(now, kernel), Armed(now))
    ensures ToDrain(v, kernel0, ops + CallsFor(now.queue[0], now.masks[now.queue[0]], kernel), Armed(now), KernelArmed(now, kernel))
  {
    hide Drained, Good, Armed, CallsFor, KernelArmed, Known;
    DrainStep(now, kernel);
    ArmedKnown(now, kernel);
    Associate(ops, CallsFor(now.queue[0], now.masks[now.queue[0]], kernel), Drained(Armed(now), KernelArmed(now, kernel)).0);
  }

  lemma DrainEnd(v: View, kernel: Kernel)
    requires Good(v)
    ensures v.queue == [] ==> Drained(v, kernel) == ([], v, kernel)
  {
  }

  lemma DrainStep(v: View, kernel: Kernel)
    requires Good(v) && v.queue != []
    ensures v.queue[0] in v.masks && Good(Armed(v))
    ensures var rest := Drained(Armed(v), KernelArmed(v, kernel));
            Drained(v, kernel) == (CallsFor(v.queue[0], v.masks[v.queue[0]], kernel) + rest.0, rest.1, rest.2)
  {
    ArmedGood(v);
  }

  /** The calls for each queued watcher; none depends on the watchers before it, which have other descriptors. */
  ghost function AllCalls(v: View, kernel: Kernel): seq<seq<Op>>
    requires forall w :: w in v.queue ==> w in v.masks
  {
    seq(|v.queue|, i requires 0 <= i < |v.queue| => CallsFor(v.queue[i], v.masks[v.queue[i]], kernel))
  }

  lemma FirstCalls(v: View, kernel: Kernel)
    requires Good(v) && v.queue != []
    ensures v.queue[0] in v.masks && Good(Armed(v))
    ensures AllCalls(v, kernel) ==
            [CallsFor(v.queue[0], v.masks[v.queue[0]], kernel)] + AllCalls(Armed(v), KernelArmed(v, kernel))
  {
    hide Good, CallsFor;
    ArmedGood(v);
    var w, v', kernel' := v.queue[0], Armed(v), KernelArmed(v, kernel);
    QueuedWatchers(v);
    QueuedWatchers(v');
    var all, rest := AllCalls(v, kernel), AllCalls(v', kernel');
    forall i | 0 <= i < |rest|
      ensures all[i + 1] == rest[i]
    {
      OtherDescriptor(v, i + 1);
      OtherCalls(v.queue[i + 1], v.masks[v.queue[i + 1]], kernel, w.fd, v.masks[w].pevents);
    }
    assert all == [all[0]] + rest;
  }

  lemma QueuedWatchers(v: View)
    requires Good(v)
    ensures forall w :: w in v.queue ==> w in v.masks
  {
  }

  lemma OtherDescriptor(v: View, i: nat)
    requires Good(v) && 0 < i < |v.queue|
    ensures v.queue[0] in v.masks && v.queue[i] in v.masks && v.queue[i] != v.queue[0] && v.queue[i].fd != v.queue[0].fd
    ensures Armed(v).queue[i - 1] == v.queue[i] && Armed(v).masks[v.queue[i]] == v.masks[v.queue[i]]
  {
    assert v.queue[0] in v.queue && v.queue[i] in v.queue;
    hide Table, Agree, Count;
  }

  lemma OtherCalls(w: Io, m: Masks, kernel: Kernel, fd: int, mask: set<Event>)
    requires w.fd != fd
    ensures CallsFor(w, m, kernel[fd := mask]) == CallsFor(w, m, kernel)
  {
  }

  /**
   * After a drain all watchers are armed with what they wait for, and the kernel polls for exactly that; each queued one
   * has been handed over once, as an addition exactly when it was not armed, and again as a modification if need be.
   */
  lemma {:induction false} DrainArms(v: View, kernel: Kernel)
    requires Good(v)
    ensures var (ops, v', kernel') := Drained(v, kernel);
            && v'.entries == v.entries && v'.nfds == v.nfds && v'.queue == [] && v'.masks.Keys == v.masks.Keys
            && (forall w :: w in v.masks ==> v'.masks[w] == Masks(v.masks[w].pevents, v.masks[w].pevents))
            && ops == Concat(AllCalls(v, kernel))
            && (PollsFor(kernel, v) ==> PollsFor(kernel', v'))
    decreases |v.queue|
  {
    hide Registered, Queued, Agree, Good, PollsFor;
    if v.queue == [] {
      AllArmed(v);
    } else {
      FirstCalls(v, kernel);
      ArmedKnown(v, kernel);
      DrainArms(Armed(v), KernelArmed(v, kernel));
    }
  }

  lemma AllArmed(v: View)
    requires Good(v) && v.queue == []
    ensures forall w :: w in v.masks ==> v.masks[w].events == v.masks[w].pevents
  {
  }
}
