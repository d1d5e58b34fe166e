/** The change tracker of the statistics driver: who wants to hear of changes
    under which inotify watch, and the calls a read of notifications makes. */
module ChangeTrackers {
  import opened Bytes
  import opened Counting
  import opened LinkedLists

  /** A call-back and the datum it was registered with. */
  datatype Tracker = Tracker(f: nat, data: int)

  type Trackers = map<int, seq<Tracker>>

  function Of(m: Trackers, wd: int): seq<Tracker> {
    if wd in m then m[wd] else []
  }

  function Registered(m: Trackers, wd: int, t: Tracker): Trackers {
    m[wd := [t] + Of(m, wd)]
  }

  predicate Has(ts: seq<Tracker>, data: int) {
    exists i | 0 <= i < |ts| :: ts[i].data == data
  }

  /** Where the first tracker with that datum stands. */
  function First(ts: seq<Tracker>, data: int): (i: nat)
    requires Has(ts, data)
    ensures i < |ts| && ts[i].data == data
    ensures forall j | 0 <= j < i :: ts[j].data != data
  {
    if ts[0].data == data then 0 else 1 + First(ts[1..], data)
  }

  function Unregistered(m: Trackers, wd: int, data: int): Trackers {
    var ts := Of(m, wd);
    if !Has(ts, data) then m
    else if |ts| == 1 then m - {wd}
    else m[wd := Without(ts, First(ts, data))]
  }

  lemma UnregisteredAt(m: Trackers, wd: int, data: int)
    requires Has(Of(m, wd), data)
    ensures Of(Unregistered(m, wd, data), wd) == Without(Of(m, wd), First(Of(m, wd), data))
    ensures wd in Unregistered(m, wd, data) <==> Of(Unregistered(m, wd, data), wd) != []
    ensures Unregistered(m, wd, data) - {wd} == m - {wd}
  {
  }

  /** Unregistering takes the newest tracker with the datum, so it undoes the
      registration just made, whatever was there. */
  lemma UnregisterUndoes(m: Trackers, wd: int, t: Tracker)
    requires forall w | w in m :: m[w] != []
    ensures Unregistered(Registered(m, wd, t), wd, t.data) == m
  {
    var ts := [t] + Of(m, wd);
    assert ts[0] == t && Has(ts, t.data) && First(ts, t.data) == 0;
    assert Without(ts, 0) == Of(m, wd);
  }

  // ---- notifications ----

  const IN_CLOSE_WRITE: nat := 0x8
  const IN_MOVED_TO: nat := 0x80
  const HEADER: nat := 16

  datatype Event = Event(wd: int, mask: nat, cookie: nat, name: seq<byte>) {
    ghost predicate Fits() {
      -0x8000_0000 <= wd < 0x8000_0000 && mask < 0x1_0000_0000 && cookie < 0x1_0000_0000 && |name| < 0x1_0000_0000
    }
  }

  predicate Bit(mask: nat, bit: nat)
    requires bit > 0
  {
    mask / bit % 2 == 1
  }

  predicate Wanted(mask: nat) {
    Bit(mask, IN_CLOSE_WRITE) || Bit(mask, IN_MOVED_TO)
  }

  /** The wanted kinds are bit 3, a file closed after writing, and bit 7, a file
      moved in. */
  lemma WantedBits(mask: nat)
    ensures Wanted(mask) <==> mask % 16 >= 8 || mask % 256 >= 128
  {
    Bit3(mask / 16, mask % 16);
    Bit7(mask / 256, mask % 256);
  }

  lemma Bit3(q: nat, r: nat)
    requires r < 16
    ensures Bit(16 * q + r, 8) <==> r >= 8
  {
    assert (16 * q + r) / 8 == 2 * q + r / 8;
  }

  lemma Bit7(q: nat, r: nat)
    requires r < 256
    ensures Bit(256 * q + r, 128) <==> r >= 128
  {
    assert (256 * q + r) / 128 == 2 * q + r / 128;
  }

  /** struct inotify_event: four words in host order, then `len` bytes of name. */
  ghost function Packed(e: Event): (s: seq<byte>)
    requires e.Fits()
    ensures |s| == HEADER + |e.name|
  {
    LittleEndian(FromSigned32(e.wd), 4) + LittleEndian(e.mask, 4) + LittleEndian(e.cookie, 4)
    + LittleEndian(|e.name|, 4) + e.name
  }

  ghost function PackedAll(es: seq<Event>): seq<byte>
    requires forall e | e in es :: e.Fits()
  {
    if es == [] then [] else Packed(es[0]) + PackedAll(es[1..])
  }

  function Word(b: seq<byte>, at: nat): (n: nat)
    requires at + 4 <= |b|
    ensures n < 0x1_0000_0000
  {
    ValuesOf();
    FromLittleEndian(b[at..at + 4])
  }

  /** What the loop reads of the record in front. */
  function EventAt(b: seq<byte>): (e: Event)
    requires |b| >= HEADER
    requires HEADER + Word(b, 12) <= |b|
  {
    Event(ToSigned32(Word(b, 0)), Word(b, 4), Word(b, 8), b[HEADER..HEADER + Word(b, 12)])
  }

  lemma Slots(a: seq<byte>, b: seq<byte>, c: seq<byte>, d: seq<byte>, tail: seq<byte>)
    requires |a| == |b| == |c| == |d| == 4
    ensures (a + b + c + d + tail)[0..4] == a && (a + b + c + d + tail)[4..8] == b
    ensures (a + b + c + d + tail)[8..12] == c && (a + b + c + d + tail)[12..16] == d
    ensures (a + b + c + d + tail)[16..] == tail
  {
  }

  lemma NameBack(b: seq<byte>, name: seq<byte>, rest: seq<byte>)
    requires |b| >= HEADER && b[HEADER..] == name + rest
    ensures b[HEADER..HEADER + |name|] == name && b[HEADER + |name|..] == rest
  {
  }

  lemma Unpacked(e: Event, rest: seq<byte>)
    requires e.Fits()
    ensures HEADER + Word(Packed(e) + rest, 12) == |Packed(e)|
    ensures EventAt(Packed(e) + rest) == e && (Packed(e) + rest)[|Packed(e)|..] == rest
  {
    ValuesOf();
    LittleEndianInverse(FromSigned32(e.wd), 4);
    LittleEndianInverse(e.mask, 4);
    LittleEndianInverse(e.cookie, 4);
    LittleEndianInverse(|e.name|, 4);
    var wd, mask := LittleEndian(FromSigned32(e.wd), 4), LittleEndian(e.mask, 4);
    var cookie, len := LittleEndian(e.cookie, 4), LittleEndian(|e.name|, 4);
    Join(wd + mask + cookie + len, e.name, rest);
    Slots(wd, mask, cookie, len, e.name + rest);
    NameBack(Packed(e) + rest, e.name, rest);
    SignedBack(e.wd);
  }

  lemma SignedBack(i: int)
    requires -0x8000_0000 <= i < 0x8000_0000
    ensures ToSigned32(FromSigned32(i)) == i
  {
  }

  datatype Call = Call(tracker: Tracker, event: Event)

  function Calls(ts: seq<Tracker>, e: Event): (cs: seq<Call>)
    ensures |cs| == |ts| && forall i | 0 <= i < |cs| :: cs[i] == Call(ts[i], e)
  {
    if ts == [] then [] else [Call(ts[0], e)] + Calls(ts[1..], e)
  }

  function CallsFor(m: Trackers, e: Event): seq<Call> {
    if Wanted(e.mask) then Calls(Of(m, e.wd), e) else []
  }

  /** For each event of the wanted kinds, in their order, each tracker of its
      watch, the newest first. */
  function AllCalls(m: Trackers, es: seq<Event>): seq<Call> {
    if es == [] then [] else CallsFor(m, es[0]) + AllCalls(m, es[1..])
  }

  lemma {:induction false} CallsCount(ts: seq<Tracker>, e: Event, c: Call)
    ensures Count(Calls(ts, e), c) == if c.event == e then Count(ts, c.tracker) else 0
    decreases |ts|
  {
    if ts != [] {
      assert Calls(ts, e)[1..] == Calls(ts[1..], e);
      CountFirst(Calls(ts, e), c);
      CountFirst(ts, c.tracker);
      CallsCount(ts[1..], e, c);
    }
  }

  /** Each event of the wanted kinds reaches each tracker of its watch once for
      every time it was registered; no other call is made. */
  lemma {:induction false} EachTrackerOnce(m: Trackers, es: seq<Event>, c: Call)
    ensures Count(AllCalls(m, es), c)
         == if Wanted(c.event.mask) then Count(es, c.event) * Count(Of(m, c.event.wd), c.tracker) else 0
    decreases |es|
  {
    if es != [] {
      var e := es[0];
      CountJoin(CallsFor(m, e), AllCalls(m, es[1..]), c);
      CountFirst(es, c.event);
      EachTrackerOnce(m, es[1..], c);
      CallsCount(Of(m, e.wd), e, c);
      Distributes(Count(es[1..], c.event), Count(Of(m, c.event.wd), c.tracker));
    }
  }

  /** Events are served in the order they came. */
  lemma {:induction false} EventOrder(m: Trackers, a: seq<Event>, b: seq<Event>)
    ensures AllCalls(m, a + b) == AllCalls(m, a) + AllCalls(m, b)
    decreases |a|
  {
    if a == [] {
      assert a + b == b;
    } else {
      assert (a + b)[0] == a[0] && (a + b)[1..] == a[1..] + b;
      EventOrder(m, a[1..], b);
      Associative(CallsFor(m, a[0]), AllCalls(m, a[1..]), AllCalls(m, b));
    }
  }

  /** `rest` holds the events `left`, whole. */
  ghost predicate Whole(rest: seq<byte>, left: seq<Event>) {
    (forall e | e in left :: e.Fits()) && rest == PackedAll(left)
  }

  lemma NextEvent(rest: seq<byte>, left: seq<Event>)
    requires Whole(rest, left) && |rest| >= HEADER
    ensures left != [] && HEADER + Word(rest, 12) <= |rest| && EventAt(rest) == left[0]
    ensures Whole(rest[HEADER + |left[0].name|..], left[1..])
  {
    Unpacked(left[0], PackedAll(left[1..]));
  }

  lemma NothingLeft(rest: seq<byte>, left: seq<Event>)
    requires Whole(rest, left) && |rest| < HEADER
    ensures left == []
  {
  }

  /** The calls made and those for the events left are all there are to be. */
  ghost predicate Making(total: seq<Call>, calls: seq<Call>, m: Trackers, left: seq<Event>) {
    total == calls + AllCalls(m, left)
  }

  lemma Made(total: seq<Call>, calls: seq<Call>, m: Trackers, left: seq<Event>)
    requires Making(total, calls, m, left) && left != []
    ensures Making(total, calls + CallsFor(m, left[0]), m, left[1..])
  {
  }

  // ---- the driver ----

  class StatmStatDriver {
    var m_chgmap: map<int, Node?<Tracker>>

    ghost var trackers: Trackers
    ghost var lists: map<int, seq<Node<Tracker>>>
    ghost var owner: map<Node<Tracker>, int>

    ghost predicate Entry(wd: int)
      reads this, owner.Keys
    {
      && wd in lists && wd in m_chgmap
      && Owned(lists[wd], owner, wd)
      && Holds(m_chgmap[wd], lists[wd], Of(trackers, wd))
    }

    /** The entry of a watch leads through nodes of its own with the watch's
        trackers; one that leads nowhere is not to be seen. */
    ghost predicate Valid()
      reads this, owner.Keys
    {
      && (forall wd | wd in m_chgmap :: Entry(wd))
      && (forall wd | wd in trackers :: wd in m_chgmap && trackers[wd] != [])
    }

    constructor ()
      ensures Valid() && owner == map[] && trackers == map[]
    {
      m_chgmap, trackers, lists, owner := map[], map[], map[], map[];
    }

    /** `fd` is the watch inotify_add_watch() has given, or its error. */
    method RegChgTracker(fd: int, f: nat, data: int) returns (r: int)
      requires Valid()
      modifies this
      ensures Valid() && fresh(owner.Keys - old(owner.Keys))
      ensures r == if fd > 0 then fd else -1
      ensures trackers == if fd > 0 then Registered(old(trackers), fd, Tracker(f, data)) else old(trackers)
    {
      if fd <= 0 {
        return -1;
      }
      var head := if fd in m_chgmap then m_chgmap[fd] else null;
      ghost var nodes := if fd in m_chgmap then lists[fd] else [];
      assert fd in m_chgmap ==> Entry(fd);
      var chg := new Node(Tracker(f, data), head);
      ChainPrepended(chg, head, nodes);
      owner := owner[chg := fd];
      forall w | w in m_chgmap && w != fd ensures Entry(w) {
        assert old(Entry(w));
      }
      SetEntry(fd, chg, [chg] + nodes, Registered(trackers, fd, Tracker(f, data)));
      return fd;
    }

    static method Find(head: Node?<Tracker>, data: int, ghost nodes: seq<Node<Tracker>>)
      returns (prev: Node?<Tracker>, cur: Node?<Tracker>, ghost i: nat)
      requires Chain(head, nodes)
      ensures cur != null <==> Has(DataOf(nodes), data)
      ensures cur != null ==> i < |nodes| && cur == nodes[i] && i == First(DataOf(nodes), data)
      ensures prev == if i == 0 then null else At(nodes, i - 1)
    {
      ChainLinks(head, nodes);
      prev, cur, i := null, head, 0;
      while cur != null && cur.data.data != data
        invariant 0 <= i <= |nodes| && cur == At(nodes, i) && prev == if i == 0 then null else At(nodes, i - 1)
        invariant forall j | 0 <= j < i :: DataOf(nodes)[j].data != data
        decreases |nodes| - i
      {
        DataAt(nodes, i);
        prev, cur, i := cur, cur.next, i + 1;
      }
      if cur != null {
        DataAt(nodes, i);
      }
    }

    lemma EntriesApart(wd: int)
      requires Valid() && wd in m_chgmap
      ensures wd in lists && forall w | w in m_chgmap && w != wd :: w in lists && Apart(lists[w], lists[wd])
    {
      assert Entry(wd);
      forall w | w in m_chgmap && w != wd ensures w in lists && Apart(lists[w], lists[wd]) {
        assert Entry(w);
      }
    }

    /** The other entries are not touched. */
    method Drop(wd: int, prev: Node?<Tracker>, cur: Node<Tracker>, ghost i: nat) returns (head: Node?<Tracker>)
      requires Valid() && wd in m_chgmap
      requires i < |lists[wd]| && cur == lists[wd][i] && prev == if i == 0 then null else lists[wd][i - 1]
      modifies owner.Keys`next
      ensures Holds(head, Without(lists[wd], i), Without(Of(trackers, wd), i))
      ensures Owned(Without(lists[wd], i), owner, wd)
      ensures forall w | w in m_chgmap && w != wd :: Entry(w)
    {
      assert Entry(wd);
      ghost var nodes := lists[wd];
      EntriesApart(wd);
      head := Take(m_chgmap[wd], prev, cur, nodes, i, Of(trackers, wd));
      forall w | w in m_chgmap && w != wd ensures Entry(w) {
        assert old(Entry(w)) && Apart(lists[w], nodes);
      }
    }

    /** The entry's link is set, or the entry erased with its last tracker. */
    method SetEntry(wd: int, head: Node?<Tracker>, ghost nodes: seq<Node<Tracker>>, ghost m: Trackers)
      requires forall w | w in m_chgmap && w != wd :: Entry(w)
      requires forall w | w in trackers :: w in m_chgmap && trackers[w] != []
      requires Owned(nodes, owner, wd) && Holds(head, nodes, Of(m, wd)) && (wd in m <==> Of(m, wd) != [])
      requires m - {wd} == trackers - {wd}
      modifies this`m_chgmap, this`lists, this`trackers
      ensures Valid() && trackers == m
      ensures wd in m_chgmap <==> head != null
    {
      m_chgmap := if head == null then m_chgmap - {wd} else m_chgmap[wd := head];
      lists := lists[wd := nodes];
      trackers := m;
      forall w | w in m_chgmap ensures Entry(w) {
        if w != wd {
          assert old(Entry(w));
          SameElsewhere(old(trackers), m, wd, w);
        }
      }
      forall w | w in trackers ensures w in m_chgmap && trackers[w] != [] {
        if w != wd {
          SameElsewhere(old(trackers), m, wd, w);
        }
      }
    }

    static lemma SameElsewhere(m: Trackers, m': Trackers, wd: int, w: int)
      requires m - {wd} == m' - {wd} && w != wd
      ensures Of(m, w) == Of(m', w) && (w in m <==> w in m')
    {
      assert w in m <==> w in m - {wd};
      assert w in m' <==> w in m' - {wd};
    }

    method Remove(wd: int, prev: Node?<Tracker>, cur: Node<Tracker>, ghost i: nat, ghost m: Trackers)
      returns (last: bool)
      requires Valid() && wd in m_chgmap
      requires i < |lists[wd]| && cur == lists[wd][i] && prev == if i == 0 then null else lists[wd][i - 1]
      requires i < |Of(trackers, wd)| && Of(m, wd) == Without(Of(trackers, wd), i)
      requires (wd in m <==> Of(m, wd) != []) && m - {wd} == trackers - {wd}
      modifies this`m_chgmap, this`lists, this`trackers, owner.Keys`next
      ensures Valid() && trackers == m
      ensures last <==> wd !in m_chgmap
      ensures last <==> wd !in m
    {
      var head := Drop(wd, prev, cur, i);
      SetEntry(wd, head, Without(lists[wd], i), m);
      last := head == null;
    }

    /** An entry is erased, and its watch given up, with its last tracker. */
    method UnregChgTracker(wd: int, data: int) returns (r: int, unwatched: bool)
      requires Valid()
      modifies this`m_chgmap, this`lists, this`trackers, owner.Keys`next
      ensures Valid()
      ensures r == if Has(Of(old(trackers), wd), data) then 0 else -1
      ensures unwatched <==> r == 0 && wd !in trackers
      ensures unwatched ==> wd !in m_chgmap
      ensures trackers == Unregistered(old(trackers), wd, data)
    {
      if wd !in m_chgmap {
        return -1, false;
      }
      assert Entry(wd);
      var prev, cur, i := Find(m_chgmap[wd], data, lists[wd]);
      if cur == null {
        return -1, false;
      }
      UnregisteredAt(trackers, wd, data);
      unwatched := Remove(wd, prev, cur, i, Unregistered(trackers, wd, data));
      r := 0;
    }

    /** Looking up a watch leaves an empty entry behind where there was none. */
    method GetChgInfo(wd: int) returns (head: Node?<Tracker>, ghost nodes: seq<Node<Tracker>>)
      requires Valid()
      modifies this`m_chgmap, this`lists
      ensures Valid() && wd in m_chgmap
      ensures Holds(head, nodes, Of(trackers, wd))
    {
      if wd in m_chgmap {
        assert Entry(wd);
        return m_chgmap[wd], lists[wd];
      }
      m_chgmap := m_chgmap[wd := null];
      lists := lists[wd := []];
      forall w | w in m_chgmap ensures Entry(w) {
        assert w != wd ==> old(Entry(w));
      }
      return null, [];
    }

    static method Notify(head: Node?<Tracker>, e: Event, ghost nodes: seq<Node<Tracker>>, ghost ts: seq<Tracker>)
      returns (calls: seq<Call>)
      requires Holds(head, nodes, ts)
      ensures calls == Calls(ts, e)
    {
      var chg := head;
      ghost var left, rest := nodes, ts;
      calls := [];
      while chg != null
        invariant Holds(chg, left, rest)
        invariant calls + Calls(rest, e) == Calls(ts, e)
        decreases |left|
      {
        calls := calls + [Call(chg.data, e)];
        chg, left, rest := chg.next, left[1..], rest[1..];
      }
    }

    method HandleEvent(e: Event) returns (calls: seq<Call>)
      requires Valid()
      modifies this`m_chgmap, this`lists
      ensures Valid()
      ensures calls == CallsFor(trackers, e)
    {
      if !Wanted(e.mask) {
        return [];
      }
      var head, nodes := GetChgInfo(e.wd);
      calls := Notify(head, e, nodes, Of(trackers, e.wd));
    }

    /** The event at ptr. */
    method HandleFront(input: array<byte>, ptr: nat, received: nat, ghost left: seq<Event>)
      returns (notifySize: nat, calls: seq<Call>)
      requires Valid() && ptr + HEADER <= received <= input.Length && Whole(input[ptr..received], left)
      modifies this`m_chgmap, this`lists
      ensures Valid() && left != [] && HEADER <= notifySize <= received - ptr
      ensures Whole(input[ptr + notifySize..received], left[1..])
      ensures calls == CallsFor(trackers, left[0])
    {
      ghost var rest := input[ptr..received];
      NextEvent(rest, left);
      var nevent := EventAt(input[ptr..received]);
      notifySize := HEADER + |nevent.name|;
      assert rest[notifySize..] == input[ptr + notifySize..received];
      calls := HandleEvent(nevent);
    }

    /** The calls for the whole events that one read() has given. */
    method ReadNotifyChanges(input: array<byte>, received: nat, ghost events: seq<Event>) returns (calls: seq<Call>)
      requires Valid() && received <= input.Length
      requires (forall e | e in events :: e.Fits()) && input[..received] == PackedAll(events)
      modifies this`m_chgmap, this`lists
      ensures Valid()
      ensures calls == AllCalls(trackers, events)
    {
      var ptr, usedSpace := 0, received;
      ghost var left, total := events, AllCalls(trackers, events);
      calls := [];
      while usedSpace >= HEADER
        invariant Valid() && trackers == old(trackers)
        invariant 0 <= ptr && 0 <= usedSpace && ptr + usedSpace == received
        invariant Whole(input[ptr..received], left)
        invariant Making(total, calls, trackers, left)
        decreases usedSpace
      {
        var notifySize, cs := HandleFront(input, ptr, received, left);
        Made(total, calls, trackers, left);
        ptr := ptr + notifySize;
        usedSpace := usedSpace - notifySize;
        left := left[1..];
        calls := calls + cs;
      }
      NothingLeft(input[ptr..received], left);
    }
  }
}
