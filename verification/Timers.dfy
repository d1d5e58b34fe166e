/** The two timer containers of the multiplexer, as values: the vector of
    prepared timers (m_tmrlist) and the ordered multimap of running ones
    (m_tmrset).  A CTimer* is a number, given out in order of creation, and the
    C++ heap is a map from these numbers to objects: `delete` takes an object
    out of the map and writes its number into a log, so that a second delete
    and a use after delete are visible. */
module Timers {
  import opened Counting
  import opened Options
  import opened Timespecs

  type Ref = nat

  datatype Timer = Timer(t: Timespec, active: bool)

  datatype Entry = Entry(key: Timespec, tmr: Ref)

  /** `odd` records that a time was registered which cannot be in time
      (RegisteredInTime). */
  datatype Timers = Timers(
    objects: map<Ref, Timer>,
    list: seq<Ref>,
    running: seq<Entry>,
    next: Ref,
    deleted: seq<Ref>,
    dropped: seq<Ref>,
    odd: bool)

  const NO_TIMERS := Timers(map[], [], [], 0, [], [], false)

  function Refs(entries: seq<Entry>): (s: seq<Ref>)
    ensures |s| == |entries| && forall i | 0 <= i < |s| :: s[i] == entries[i].tmr
  {
    seq(|entries|, i requires 0 <= i < |entries| => entries[i].tmr)
  }

  /** The timers that can still fire. */
  function Pending(s: Timers): seq<Ref> {
    s.list + Refs(s.running)
  }

  // ---- what must hold between any two statements of the main loop ----

  /** Every timer ever registered has exactly one fate. */
  ghost predicate Conserved(s: Timers) {
    forall r: Ref :: Count(s.list, r) + Count(Refs(s.running), r) + Count(s.deleted, r) + Count(s.dropped, r)
                     == if r < s.next then 1 else 0
  }

  /** Exactly the timers not yet deleted can be dereferenced. */
  ghost predicate Allocated(s: Timers) {
    forall r: Ref :: r in s.objects <==> r < s.next && r !in s.deleted
  }

  ghost predicate Sorted(entries: seq<Entry>) {
    forall i, j | 0 <= i < j < |entries| :: !Before(entries[j].key, entries[i].key)
  }

  ghost predicate Keyed(s: Timers) {
    forall i | 0 <= i < |s.running| ::
      s.running[i].tmr in s.objects && s.objects[s.running[i].tmr].t == s.running[i].key
  }

  ghost predicate AllTimely(s: Timers) {
    forall r | r in s.objects :: Timely(s.objects[r].t)
  }

  ghost predicate Valid(s: Timers) {
    Conserved(s) && Allocated(s) && Sorted(s.running) && Keyed(s) && (!s.odd ==> AllTimely(s))
  }

  lemma CountIn(s: seq<Ref>, r: Ref)
    ensures Count(s, r) > 0 <==> r in s
  {
  }

  lemma RefsAppend(s: seq<Entry>, t: seq<Entry>)
    ensures Refs(s + t) == Refs(s) + Refs(t)
  {
  }

  lemma PendingDistinct(s: Timers)
    requires Conserved(s)
    ensures forall i, j | 0 <= i < j < |Pending(s)| :: Pending(s)[i] != Pending(s)[j]
    ensures forall i | 0 <= i < |Pending(s)| :: Pending(s)[i] < s.next && Pending(s)[i] !in s.deleted
  {
    forall i, j | 0 <= i < j < |Pending(s)| ensures Pending(s)[i] != Pending(s)[j] {
      CountJoin(s.list, Refs(s.running), Pending(s)[i]);
      CountTwice(Pending(s), i, j);
    }
    forall i | 0 <= i < |Pending(s)| ensures Pending(s)[i] < s.next && Pending(s)[i] !in s.deleted {
      var r := Pending(s)[i];
      CountJoin(s.list, Refs(s.running), r);
      CountIn(Pending(s), r);
      CountIn(s.deleted, r);
    }
  }

  // ---- the operations a callback can use ----

  function Register(s: Timers, t: Timespec): Timers {
    s.(objects := s.objects[s.next := Timer(Align(t), true)], list := s.list + [s.next], next := s.next + 1,
       odd := s.odd || !Timely(Align(t)))
  }

  /** EnableTimer and DisableTimer.  A caller never hands in a deleted timer;
      the model gives such a call no effect. */
  function SetActive(s: Timers, h: Ref, active: bool): Timers {
    if h in s.objects then s.(objects := s.objects[h := s.objects[h].(active := active)]) else s
  }

  lemma RegisterValid(s: Timers, t: Timespec)
    requires Valid(s)
    ensures Valid(Register(s, t))
  {
    var s' := Register(s, t);
    CountIn(s.deleted, s.next);
    forall r: Ref ensures Count(s'.list, r) == Count(s.list, r) + if r == s.next then 1 else 0 {
      CountJoin(s.list, [s.next], r);
    }
    PendingDistinct(s);
    forall i | 0 <= i < |s.running| ensures s.running[i].tmr != s.next {
      assert s.running[i].tmr == Pending(s)[|s.list| + i];
    }
  }

  // ---- the ordered multimap ----

  /** m_tmrset.upper_bound. */
  function UpperBound(entries: seq<Entry>, now: Timespec): (n: nat)
    ensures n <= |entries|
    ensures forall i | 0 <= i < n :: !Before(now, entries[i].key)
    ensures n < |entries| ==> Before(now, entries[n].key)
  {
    if entries == [] || Before(now, entries[0].key) then 0 else 1 + UpperBound(entries[1..], now)
  }

  /** In a sorted multimap upper_bound separates exactly the due entries. */
  lemma UpperBoundIsDue(entries: seq<Entry>, now: Timespec)
    requires Sorted(entries)
    ensures forall i | 0 <= i < |entries| :: i < UpperBound(entries, now) <==> !Before(now, entries[i].key)
  {
  }

  function Insert(entries: seq<Entry>, e: Entry): (r: seq<Entry>)
    ensures |r| == |entries| + 1
  {
    var n := UpperBound(entries, e.key);
    entries[..n] + [e] + entries[n..]
  }

  lemma InsertSorted(entries: seq<Entry>, e: Entry)
    requires Sorted(entries)
    ensures Sorted(Insert(entries, e))
  {
  }

  /** Behind all that expire no later, before all that expire later; the others
      stay in their order. */
  lemma InsertedAt(entries: seq<Entry>, e: Entry) returns (n: nat)
    requires Sorted(entries)
    ensures n <= |entries| && Insert(entries, e)[n] == e
    ensures Insert(entries, e)[..n] == entries[..n] && Insert(entries, e)[n + 1..] == entries[n..]
    ensures forall i | 0 <= i < |entries| :: i < n <==> !Before(e.key, entries[i].key)
  {
    n := UpperBound(entries, e.key);
    UpperBoundIsDue(entries, e.key);
  }

  lemma InsertCount(entries: seq<Entry>, e: Entry, r: Ref)
    ensures Count(Refs(Insert(entries, e)), r) == Count(Refs(entries), r) + if r == e.tmr then 1 else 0
  {
    var n := UpperBound(entries, e.key);
    var before, after := entries[..n], entries[n..];
    assert entries == before + after;
    RefsAppend(before, after);
    RefsAppend(before + [e], after);
    RefsAppend(before, [e]);
    assert Refs([e]) == [e.tmr];
    CountJoin(Refs(before), Refs(after), r);
    CountJoin(Refs(before) + [e.tmr], Refs(after), r);
    CountJoin(Refs(before), [e.tmr], r);
  }

  lemma InsertKeyed(entries: seq<Entry>, e: Entry, i: nat)
    requires i <= |entries|
    ensures Insert(entries, e)[i] == e || Insert(entries, e)[i] in entries
  {
  }

  // ---- the steps of HandleTimers and CompensateTimers ----

  /** Deletion of the n due entries after their callbacks have run. */
  function DeleteDue(s: Timers, n: nat): Timers
    requires n <= |s.running|
  {
    s.(objects := map r | r in s.objects && r !in Refs(s.running[..n]) :: s.objects[r],
       running := s.running[n..],
       deleted := s.deleted + Refs(s.running[..n]))
  }

  lemma DeleteDueCounts(s: Timers, n: nat, r: Ref)
    requires n <= |s.running|
    ensures Count(Refs(s.running), r) == Count(Refs(s.running[..n]), r) + Count(Refs(s.running[n..]), r)
    ensures Count(DeleteDue(s, n).deleted, r) == Count(s.deleted, r) + Count(Refs(s.running[..n]), r)
  {
    var due, rest := s.running[..n], s.running[n..];
    RefsAppend(due, rest);
    assert s.running == due + rest;
    CountJoin(Refs(due), Refs(rest), r);
    CountJoin(s.deleted, Refs(due), r);
  }

  lemma DeleteDueConserved(s: Timers, n: nat)
    requires Conserved(s) && n <= |s.running|
    ensures Conserved(DeleteDue(s, n))
  {
    forall r: Ref ensures Count(Refs(s.running[n..]), r) + Count(DeleteDue(s, n).deleted, r)
                       == Count(Refs(s.running), r) + Count(s.deleted, r) {
      DeleteDueCounts(s, n, r);
    }
  }

  lemma RestNotDue(s: Timers, n: nat, i: nat)
    requires Conserved(s) && n <= i < |s.running|
    ensures s.running[i].tmr !in Refs(s.running[..n])
  {
    var r, rest := s.running[i].tmr, s.running[n..];
    DeleteDueCounts(s, n, r);
    assert Refs(rest)[i - n] == r;
    CountIn(Refs(rest), r);
    CountIn(Refs(s.running[..n]), r);
  }

  lemma DeleteDueValid(s: Timers, n: nat)
    requires Valid(s) && n <= |s.running|
    ensures Valid(DeleteDue(s, n))
  {
    DeleteDueConserved(s, n);
    forall i | n <= i < |s.running| ensures s.running[i].tmr !in Refs(s.running[..n]) {
      RestNotDue(s, n, i);
    }
    DeleteDueRest(s, n);
  }

  lemma DeleteDueRest(s: Timers, n: nat)
    requires Valid(s) && n <= |s.running|
    requires forall i | n <= i < |s.running| :: s.running[i].tmr !in Refs(s.running[..n])
    ensures var s' := DeleteDue(s, n);
      Allocated(s') && Sorted(s'.running) && Keyed(s') && (!s'.odd ==> AllTimely(s'))
  {
  }

  /** One prepared timer enters the set, or is dropped when it is inactive.
      A dropped timer stays allocated, yet nothing will ever fire it. */
  function MoveFirst(s: Timers): Timers
    requires s.list != []
  {
    var r := s.list[0];
    if r in s.objects && s.objects[r].active then
      s.(list := s.list[1..], running := Insert(s.running, Entry(s.objects[r].t, r)))
    else
      s.(list := s.list[1..], dropped := s.dropped + [r])
  }

  function MoveAll(s: Timers): (s': Timers)
    ensures s'.list == [] && s'.objects == s.objects && s'.deleted == s.deleted && s'.next == s.next && s'.odd == s.odd
    ensures s.dropped <= s'.dropped
    decreases |s.list|
  {
    if s.list == [] then s else MoveAll(MoveFirst(s))
  }

  lemma MoveFirstValid(s: Timers)
    requires Valid(s) && s.list != []
    ensures Valid(MoveFirst(s))
  {
    var r, s' := s.list[0], MoveFirst(s);
    assert Pending(s)[0] == r;
    PendingDistinct(s);
    var e := Entry(s.objects[r].t, r);
    forall q: Ref ensures Count(s.list, q) == Count(s'.list, q) + if q == r then 1 else 0 {
      assert s.list == [r] + s'.list;
      CountJoin([r], s'.list, q);
    }
    if s.objects[r].active {
      InsertSorted(s.running, e);
      forall q: Ref ensures Count(Refs(s'.running), q) == Count(Refs(s.running), q) + if q == r then 1 else 0 {
        InsertCount(s.running, e, q);
      }
      forall i | 0 <= i < |s'.running|
        ensures s'.running[i].tmr in s'.objects && s'.objects[s'.running[i].tmr].t == s'.running[i].key
      {
        InsertKeyed(s.running, e, i);
      }
    } else {
      forall q: Ref ensures Count(s'.dropped, q) == Count(s.dropped, q) + if q == r then 1 else 0 {
        CountJoin(s.dropped, [r], q);
      }
    }
  }

  lemma {:induction false} MoveAllValid(s: Timers)
    requires Valid(s)
    ensures Valid(MoveAll(s))
    decreases |s.list|
  {
    if s.list != [] {
      MoveFirstValid(s);
      MoveAllValid(MoveFirst(s));
    }
  }

  /** Which timers the move keeps: the running ones and the active prepared ones. */
  lemma {:induction false} MoveAllKeeps(s: Timers, r: Ref)
    requires Valid(s)
    ensures r in Refs(MoveAll(s).running) <==>
            r in Refs(s.running) || (r in s.list && r in s.objects && s.objects[r].active)
    decreases |s.list|
  {
    if s.list != [] {
      var q, s' := s.list[0], MoveFirst(s);
      MoveFirstValid(s);
      MoveAllKeeps(s', r);
      assert r in s.list <==> r == q || r in s'.list;
      assert Pending(s)[0] == q;
      PendingDistinct(s);
      if s.objects[q].active {
        InsertCount(s.running, Entry(s.objects[q].t, q), r);
        CountIn(Refs(s.running), r);
        CountIn(Refs(s'.running), r);
      }
      forall i | 0 <= i < |s'.list| ensures s'.list[i] != q {
        assert Pending(s)[1 + i] == s'.list[i];
      }
    }
  }

  /** And which it drops: the inactive prepared ones. */
  lemma {:induction false} MoveAllDrops(s: Timers, r: Ref)
    requires Valid(s)
    ensures r in MoveAll(s).dropped <==>
            r in s.dropped || (r in s.list && r in s.objects && !s.objects[r].active)
    decreases |s.list|
  {
    if s.list != [] {
      var q, s' := s.list[0], MoveFirst(s);
      MoveFirstValid(s);
      MoveAllDrops(s', r);
      assert r in s.list <==> r == q || r in s'.list;
      assert Pending(s)[0] == q;
      PendingDistinct(s);
      forall i | 0 <= i < |s'.list| ensures s'.list[i] != q {
        assert Pending(s)[1 + i] == s'.list[i];
      }
    }
  }

  /** CompensateTimers: every pending timer is moved by the jump once, and all
      of them are prepared again. */
  function Compensate(s: Timers, diff: int): Timers {
    var (advance, jump) := Jump(diff);
    s.(objects := map r | r in s.objects ::
         if r in Pending(s) then s.objects[r].(t := Shift(s.objects[r].t, advance, jump)) else s.objects[r],
       list := Pending(s),
       running := [])
  }

  /** Each pending timer is moved by exactly the jump, once, and is prepared
      once; no other timer is touched. */
  lemma CompensateValid(s: Timers, diff: int)
    requires Valid(s) && diff % MSEC_TO_NSEC == 0
    ensures var s' := Compensate(s, diff);
      && Valid(s') && s'.running == []
      && (forall r | r in Pending(s) :: Count(s'.list, r) == 1)
      && (forall r | r in s.objects ::
            r in s'.objects && s'.objects[r].active == s.objects[r].active
            && Nanos(s'.objects[r].t) == Nanos(s.objects[r].t) + if r in Pending(s) then diff else 0)
  {
    forall r: Ref ensures Count(Pending(s), r) == Count(s.list, r) + Count(Refs(s.running), r) {
      CountJoin(s.list, Refs(s.running), r);
    }
    forall r | r in Pending(s) ensures Count(Pending(s), r) == 1 {
      CountIn(Pending(s), r);
    }
  }

  // ---- the sleep until the earliest timer ----

  function FirstActive(s: Timers, i: nat): (n: nat)
    requires i <= |s.running|
    ensures i <= n <= |s.running|
    ensures forall k | i <= k < n :: !IsActive(s, s.running[k].tmr)
    ensures n < |s.running| ==> IsActive(s, s.running[n].tmr)
    decreases |s.running| - i
  {
    if i == |s.running| || IsActive(s, s.running[i].tmr) then i else FirstActive(s, i + 1)
  }

  predicate IsActive(s: Timers, r: Ref) {
    r in s.objects && s.objects[r].active
  }

  /** m_timer: nothing when no timer is active. */
  function NextDelay(s: Timers, now: Timespec): Option<Timespec> {
    var n := FirstActive(s, 0);
    if n < |s.running| then Some(Delay(now, s.running[n].key)) else None
  }

  /** The active running timers can be in time, whatever was registered before. */
  ghost predicate ActiveTimely(s: Timers) {
    forall i | 0 <= i < |s.running| && IsActive(s, s.running[i].tmr) :: Timely(s.running[i].key)
  }

  lemma OddIff(s: Timers, t: Timespec)
    ensures Register(s, t).odd <==> s.odd || t.nsec <= -MSEC_TO_NSEC || t.nsec >= SEC_TO_NSEC + MSEC_TO_NSEC
  {
    RegisteredInTime(t);
  }

  lemma TimelyUnlessOdd(s: Timers)
    requires Valid(s) && !s.odd
    ensures ActiveTimely(s)
  {
  }

  lemma RefsFind(entries: seq<Entry>, r: Ref) returns (i: nat)
    requires r in Refs(entries)
    ensures i < |entries| && entries[i].tmr == r
  {
    i :| i < |Refs(entries)| && Refs(entries)[i] == r;
  }

  lemma RunningKeyed(s: Timers, i: nat)
    requires Keyed(s) && i < |s.running|
    ensures s.running[i].tmr in s.objects && s.objects[s.running[i].tmr].t == s.running[i].key
  {
  }

  lemma FirstIsEarlier(s: Timers, i: nat)
    requires Sorted(s.running) && ActiveTimely(s) && i < |s.running| && IsActive(s, s.running[i].tmr)
    ensures FirstActive(s, 0) <= i
    ensures Nanos(s.running[FirstActive(s, 0)].key) <= Nanos(s.running[i].key)
  {
    var n := FirstActive(s, 0);
    if n < i {
      TimelyOrder(s.running[n].key, s.running[i].key);
    }
  }

  /** The delay belongs to the earliest active timer, and there is none exactly
      when no active timer is pending. */
  lemma NextDelayIsEarliest(s: Timers, now: Timespec)
    requires Valid(s) && ActiveTimely(s) && s.list == [] && Kept(now)
    ensures NextDelay(s, now) == None <==> forall r | r in Pending(s) :: !IsActive(s, r)
    ensures NextDelay(s, now) != None ==>
      exists r | r in Pending(s) && IsActive(s, r) ::
        && NextDelay(s, now) == Some(Delay(now, s.objects[r].t)) && Timely(s.objects[r].t)
        && forall q | q in Pending(s) && IsActive(s, q) :: Nanos(s.objects[r].t) <= Nanos(s.objects[q].t)
  {
    var n := FirstActive(s, 0);
    assert Pending(s) == Refs(s.running);
    forall q | q in Pending(s) && IsActive(s, q)
      ensures n < |s.running| && Nanos(s.running[n].key) <= Nanos(s.objects[q].t)
    {
      var i := RefsFind(s.running, q);
      RunningKeyed(s, i);
      FirstIsEarlier(s, i);
    }
    if n < |s.running| {
      RunningKeyed(s, n);
      assert s.running[n].tmr == Refs(s.running)[n];
    }
  }

  // ---- consequences ----

  /** After a clock jump the next HandleTimers keeps a pending timer if and only
      if it is active.  A timer switched off for a while, which otherwise stays
      in the set and can be switched on again, is lost by the jump. */
  lemma JumpKeepsOnlyActive(s: Timers, diff: int, r: Ref)
    requires Valid(s) && diff % MSEC_TO_NSEC == 0 && r in Pending(s)
    ensures r in Refs(MoveAll(Compensate(s, diff)).running) <==> IsActive(s, r)
  {
    CompensateValid(s, diff);
    MoveAllKeeps(Compensate(s, diff), r);
    PendingDistinct(s);
    assert Compensate(s, diff).list == Pending(s);
  }

  /** Without a jump it stays, active or not. */
  lemma RunningStays(s: Timers, r: Ref)
    requires Valid(s) && r in Refs(s.running)
    ensures r in Refs(MoveAll(s).running)
  {
    MoveAllKeeps(s, r);
  }

  /** The destructor: the prepared timers are deleted, then the running ones. */
  function Destroy(s: Timers): Timers {
    s.(objects := map r | r in s.objects && r !in Pending(s) :: s.objects[r],
       list := [], running := [], deleted := s.deleted + Pending(s))
  }

  /** Over its whole life the multiplexer deletes a timer at most once, and
      exactly those are never deleted that were dropped. */
  lemma DestroyDeletesOnce(s: Timers)
    requires Valid(s)
    ensures Valid(Destroy(s))
    ensures forall r: Ref | r < s.next :: Count(Destroy(s).deleted, r) == if r in s.dropped then 0 else 1
    ensures forall r: Ref :: r in Destroy(s).objects <==> r in s.dropped
  {
    var s' := Destroy(s);
    forall r: Ref
      ensures Count(s'.deleted, r) == Count(s.deleted, r) + Count(s.list, r) + Count(Refs(s.running), r)
    {
      CountJoin(s.deleted, Pending(s), r);
      CountJoin(s.list, Refs(s.running), r);
    }
    forall r: Ref
      ensures r in s'.deleted <==> Count(s'.deleted, r) > 0
      ensures r in s.dropped <==> Count(s.dropped, r) > 0
      ensures r in s'.objects <==> r in s.objects && Count(Pending(s), r) == 0
    {
      CountIn(s'.deleted, r);
      CountIn(s.dropped, r);
      CountIn(Pending(s), r);
    }
    forall r: Ref ensures Count(Pending(s), r) == Count(s.list, r) + Count(Refs(s.running), r) {
      CountJoin(s.list, Refs(s.running), r);
    }
  }
}
