/** The descriptor handlers of the multiplexer, as values: the vector of
    handlers to be looked at in the next round (m_cblist), the multimap of
    installed handlers (m_cbset) and the interest set the kernel keeps for
    epoll.  As in Timers, a CDescriptor* is a number and `delete` is explicit. */
module Descriptors {
  import opened Counting

  type Ref = nat

  /** A word of EPOLL flags, as the set of the bits that are one. */
  type Flags = set<nat>

  const EPOLLIN: Flags := {0}
  const EPOLLOUT: Flags := {2}

  /** Which callback a handler carries: one given by the program, or one of the
      two that serve the internal message queue. */
  datatype Kind = User | QueueReader | QueueWriter

  datatype Descriptor = Descriptor(fd: int, flags: Flags, kind: Kind, deleted: bool)

  datatype Slot = Slot(fd: int, hdlr: Ref)

  /** `clash` records that a handler was registered for a descriptor which
      another handler still served. */
  datatype Descriptors = Descriptors(
    objects: map<Ref, Descriptor>,
    list: seq<Ref>,
    installed: seq<Slot>,
    kernel: map<int, Flags>,
    nfds: int,
    next: Ref,
    freed: seq<Ref>,
    clash: bool)

  const NO_DESCRIPTORS := Descriptors(map[], [], [], map[], -1, 0, [], false)

  // ---- operations ----

  predicate Serves(s: Descriptors, h: Ref, fd: int) {
    h in s.objects && s.objects[h].fd == fd && !s.objects[h].deleted
  }

  function Register(s: Descriptors, flags: Flags, fd: int, kind: Kind): Descriptors {
    if fd < 0 then s
    else s.(objects := s.objects[s.next := Descriptor(fd, flags, kind, false)],
            list := s.list + [s.next],
            next := s.next + 1,
            clash := s.clash || exists h | h in s.objects :: Serves(s, h, fd))
  }

  /** EnableDescriptor and DisableDescriptor: the new flags, and the kernel's
      entry for the descriptor when it has one (EPOLL_CTL_MOD). */
  function SetFlags(s: Descriptors, h: Ref, flags: Flags): Descriptors {
    if h !in s.objects || s.objects[h].deleted then s
    else
      var fd := s.objects[h].fd;
      s.(objects := s.objects[h := s.objects[h].(flags := flags)],
         kernel := if fd in s.kernel then s.kernel[fd := flags] else s.kernel)
  }

  function Enable(s: Descriptors, h: Ref, flags: Flags): Descriptors {
    if h in s.objects then SetFlags(s, h, s.objects[h].flags + flags) else s
  }

  function Disable(s: Descriptors, h: Ref, flags: Flags): Descriptors {
    if h in s.objects then SetFlags(s, h, s.objects[h].flags - flags) else s
  }

  /** Position of a handler in m_cbset (the scan of equal_range). */
  function Find(installed: seq<Slot>, h: Ref): (i: nat)
    ensures i <= |installed|
    ensures i < |installed| ==> installed[i].hdlr == h
    ensures forall k | 0 <= k < i :: installed[k].hdlr != h
  {
    if installed == [] || installed[0].hdlr == h then 0 else 1 + Find(installed[1..], h)
  }

  function Without(installed: seq<Slot>, h: Ref): seq<Slot> {
    var i := Find(installed, h);
    if i < |installed| then installed[..i] + installed[i + 1..] else installed
  }

  function Remove(s: Descriptors, h: Ref): Descriptors {
    if h !in s.objects || s.objects[h].deleted then s
    else
      s.(objects := s.objects[h := s.objects[h].(deleted := true)],
         list := if Find(s.installed, h) < |s.installed| then s.list + [h] else s.list)
  }

  /** One turn of the loop of ActivateDescriptors. */
  function ActivateFirst(s: Descriptors): Descriptors
    requires s.list != [] && s.list[0] in s.objects
  {
    var h := s.list[0];
    var d := s.objects[h];
    var i := Find(s.installed, h);
    if d.deleted then
      s.(list := s.list[1..],
         kernel := s.kernel - {d.fd},
         installed := Without(s.installed, h),
         objects := s.objects - {h},
         freed := s.freed + [h])
    else if i == |s.installed| then
      s.(list := s.list[1..],
         kernel := if d.fd in s.kernel then s.kernel else s.kernel[d.fd := d.flags],
         installed := s.installed + [Slot(d.fd, h)])
    else
      s.(list := s.list[1..],
         kernel := if d.fd in s.kernel then s.kernel[d.fd := d.flags] else s.kernel)
  }

  function ActivateAll(s: Descriptors): (s': Descriptors)
    decreases |s.list|
  {
    if s.list == [] || s.list[0] !in s.objects then s.(nfds := |s.installed|) else ActivateAll(ActivateFirst(s))
  }

  // ---- the life of a handler ----

  function Handlers(installed: seq<Slot>): (r: seq<Ref>)
    ensures |r| == |installed| && forall i | 0 <= i < |r| :: r[i] == installed[i].hdlr
  {
    seq(|installed|, i requires 0 <= i < |installed| => installed[i].hdlr)
  }

  datatype Stage = Unborn | Prepared | Installed | Doomed | Freed

  /** Where handler h is, told by the containers and its deleted flag. */
  ghost predicate At(s: Descriptors, h: Ref, stage: Stage) {
    var l, i, f := Count(s.list, h), Count(Handlers(s.installed), h), Count(s.freed, h);
    match stage
    case Unborn => h >= s.next && h !in s.objects && l == i == f == 0
    case Prepared => h < s.next && h in s.objects && !s.objects[h].deleted && l == 1 && i == f == 0
    case Installed => h < s.next && h in s.objects && !s.objects[h].deleted && i == 1 && l == f == 0
    case Doomed => h < s.next && h in s.objects && s.objects[h].deleted && l == 1 && i <= 1 && f == 0
    case Freed => h < s.next && h !in s.objects && f == 1 && l == i == 0
  }

  ghost predicate Placed(s: Descriptors, h: Ref) {
    At(s, h, Unborn) || At(s, h, Prepared) || At(s, h, Installed) || At(s, h, Doomed) || At(s, h, Freed)
  }

  /** Every handler is at exactly one stage, and slots carry their handler's fd. */
  ghost predicate Valid(s: Descriptors) {
    && (forall h: Ref :: Placed(s, h))
    && forall i | 0 <= i < |s.installed| ::
         s.installed[i].hdlr in s.objects && s.objects[s.installed[i].hdlr].fd == s.installed[i].fd
  }

  lemma CountPush(s: seq<Ref>, h: Ref)
    ensures forall q: Ref :: Count(s + [h], q) == Count(s, q) + if q == h then 1 else 0
  {
  }

  lemma CountPop(s: seq<Ref>)
    requires s != []
    ensures forall q: Ref :: Count(s, q) == Count(s[1..], q) + if q == s[0] then 1 else 0
  {
    forall q: Ref ensures Count(s, q) == Count(s[1..], q) + if q == s[0] then 1 else 0 {
      assert s == [s[0]] + s[1..];
      CountJoin([s[0]], s[1..], q);
    }
  }

  lemma CountCut(s: seq<Ref>, i: nat)
    requires i < |s|
    ensures forall q: Ref :: Count(s, q) == Count(s[..i] + s[i + 1..], q) + if q == s[i] then 1 else 0
  {
    forall q: Ref ensures Count(s, q) == Count(s[..i] + s[i + 1..], q) + if q == s[i] then 1 else 0 {
      assert s == s[..i] + [s[i]] + s[i + 1..];
      CountJoin(s[..i] + [s[i]], s[i + 1..], q);
      CountJoin(s[..i], [s[i]], q);
      CountJoin(s[..i], s[i + 1..], q);
    }
  }

  lemma CountFound(installed: seq<Slot>, h: Ref)
    ensures Find(installed, h) < |installed| <==> Count(Handlers(installed), h) > 0
  {
  }

  /** Every handler but h is where it was. */
  ghost predicate OthersStay(s: Descriptors, s': Descriptors, h: Ref) {
    forall q: Ref, stage | q != h :: At(s', q, stage) <==> At(s, q, stage)
  }

  /** A stage is a matter of these counts and of the object's fate alone. */
  lemma SameStage(s: Descriptors, s': Descriptors, q: Ref)
    requires Count(s'.list, q) == Count(s.list, q) && Count(s'.freed, q) == Count(s.freed, q)
    requires Count(Handlers(s'.installed), q) == Count(Handlers(s.installed), q)
    requires (q >= s'.next <==> q >= s.next) && (q in s'.objects <==> q in s.objects)
    requires q in s.objects ==> s'.objects[q].deleted == s.objects[q].deleted
    ensures forall stage :: At(s', q, stage) <==> At(s, q, stage)
  {
  }

  lemma RegisterStages(s: Descriptors, flags: Flags, fd: int, kind: Kind)
    requires Valid(s)
    ensures OthersStay(s, Register(s, flags, fd, kind), s.next)
    ensures At(Register(s, flags, fd, kind), s.next, if fd < 0 then Unborn else Prepared)
  {
    assert Placed(s, s.next);
    CountPush(s.list, s.next);
    forall q: Ref, stage | q != s.next ensures At(Register(s, flags, fd, kind), q, stage) <==> At(s, q, stage) {
      SameStage(s, Register(s, flags, fd, kind), q);
    }
  }

  /** A registered handler is prepared. */
  lemma RegisterValid(s: Descriptors, flags: Flags, fd: int, kind: Kind)
    requires Valid(s)
    ensures var s' := Register(s, flags, fd, kind);
      && Valid(s') && OthersStay(s, s', s.next)
      && At(s', s.next, if fd < 0 then Unborn else Prepared)
  {
    var s' := Register(s, flags, fd, kind);
    RegisterStages(s, flags, fd, kind);
    assert Placed(s, s.next);
    forall h: Ref ensures Placed(s', h) {
      assert Placed(s, h);
    }
  }

  lemma SetFlagsValid(s: Descriptors, h: Ref, flags: Flags)
    requires Valid(s)
    ensures Valid(SetFlags(s, h, flags))
  {
    forall q: Ref ensures Placed(SetFlags(s, h, flags), q) {
      assert Placed(s, q);
    }
  }

  lemma RemoveStays(s: Descriptors, h: Ref)
    requires Valid(s)
    ensures OthersStay(s, Remove(s, h), h)
  {
    CountPush(s.list, h);
    forall q: Ref, stage | q != h ensures At(Remove(s, h), q, stage) <==> At(s, q, stage) {
      SameStage(s, Remove(s, h), q);
    }
  }

  /** A removed handler is doomed, wherever it was. */
  lemma RemoveDooms(s: Descriptors, h: Ref)
    requires Valid(s) && h in s.objects
    ensures At(Remove(s, h), h, Doomed)
  {
    assert Placed(s, h);
    CountPush(s.list, h);
    CountFound(s.installed, h);
  }

  lemma RemoveValid(s: Descriptors, h: Ref)
    requires Valid(s)
    ensures Valid(Remove(s, h)) && OthersStay(s, Remove(s, h), h)
    ensures h in s.objects ==> At(Remove(s, h), h, Doomed)
  {
    var s' := Remove(s, h);
    RemoveStays(s, h);
    if h in s.objects {
      RemoveDooms(s, h);
    }
    forall q: Ref ensures Placed(s', q) {
      assert Placed(s, q);
    }
  }

  lemma HandlersCut(installed: seq<Slot>, i: nat)
    requires i < |installed|
    ensures Handlers(installed[..i] + installed[i + 1..]) == Handlers(installed)[..i] + Handlers(installed)[i + 1..]
  {
  }

  lemma HeadAllocated(s: Descriptors)
    requires Valid(s) && s.list != []
    ensures s.list[0] in s.objects
    ensures s.objects[s.list[0]].deleted ==> At(s, s.list[0], Doomed)
    ensures !s.objects[s.list[0]].deleted ==> At(s, s.list[0], Prepared)
  {
    CountPop(s.list);
    assert Placed(s, s.list[0]);
  }

  lemma WithoutCount(installed: seq<Slot>, h: Ref)
    requires Count(Handlers(installed), h) <= 1
    ensures forall q: Ref :: Count(Handlers(Without(installed, h)), q) == if q == h then 0 else Count(Handlers(installed), q)
    ensures forall k | 0 <= k < |Without(installed, h)| ::
              Without(installed, h)[k] in installed && Without(installed, h)[k].hdlr != h
  {
    var i, rest := Find(installed, h), Without(installed, h);
    CountFound(installed, h);
    if i < |installed| {
      HandlersCut(installed, i);
      CountCut(Handlers(installed), i);
    }
    forall k | 0 <= k < |rest| ensures rest[k] in installed && rest[k].hdlr != h {
      assert Handlers(rest)[k] == rest[k].hdlr;
      assert rest[k].hdlr == h ==> Count(Handlers(rest), h) > 0;
    }
  }

  lemma ActivateDoomedValid(s: Descriptors)
    requires Valid(s) && s.list != [] && s.list[0] in s.objects && s.objects[s.list[0]].deleted
    ensures Valid(ActivateFirst(s)) && At(ActivateFirst(s), s.list[0], Freed)
  {
    var h, s' := s.list[0], ActivateFirst(s);
    HeadAllocated(s);
    CountPop(s.list);
    CountPush(s.freed, h);
    WithoutCount(s.installed, h);
    assert s'.installed == Without(s.installed, h);
    forall q: Ref ensures Placed(s', q) {
      assert Placed(s, q);
    }
  }

  lemma ActivatePreparedValid(s: Descriptors)
    requires Valid(s) && s.list != [] && s.list[0] in s.objects && !s.objects[s.list[0]].deleted
    ensures Valid(ActivateFirst(s)) && At(ActivateFirst(s), s.list[0], Installed)
    ensures Find(s.installed, s.list[0]) == |s.installed|
  {
    var h, s' := s.list[0], ActivateFirst(s);
    HeadAllocated(s);
    CountPop(s.list);
    CountFound(s.installed, h);
    assert Handlers(s.installed + [Slot(s.objects[h].fd, h)]) == Handlers(s.installed) + [h];
    CountPush(Handlers(s.installed), h);
    forall q: Ref ensures Placed(s', q) {
      assert Placed(s, q);
    }
  }

  lemma ActivateFirstValid(s: Descriptors)
    requires Valid(s) && s.list != []
    ensures s.list[0] in s.objects && Valid(ActivateFirst(s))
  {
    HeadAllocated(s);
    if s.objects[s.list[0]].deleted {
      ActivateDoomedValid(s);
    } else {
      ActivatePreparedValid(s);
    }
  }

  /** ActivateDescriptors ends with an empty list: no handler is prepared or
      doomed any more, so the installed ones are all alive and counted by m_nfds,
      and nothing was freed twice. */
  lemma {:induction false} ActivateAllValid(s: Descriptors)
    requires Valid(s)
    ensures var s' := ActivateAll(s);
      && Valid(s') && s'.list == [] && s'.nfds == |s'.installed|
      && s.freed <= s'.freed && s'.next == s.next && s'.clash == s.clash
      && forall i | 0 <= i < |s'.installed| :: Serves(s', s'.installed[i].hdlr, s'.installed[i].fd)
    decreases |s.list|
  {
    if s.list != [] {
      ActivateFirstValid(s);
      ActivateAllValid(ActivateFirst(s));
    } else {
      var s' := ActivateAll(s);
      forall h: Ref ensures Placed(s', h) {
        assert Placed(s, h);
      }
      forall i | 0 <= i < |s'.installed| ensures Serves(s', s'.installed[i].hdlr, s'.installed[i].fd) {
        assert Placed(s', s'.installed[i].hdlr);
      }
    }
  }

  /** ActivateDescriptors changes no handler, and only removed ones are freed. */
  lemma {:induction false} ActivateAllObjects(s: Descriptors)
    requires Valid(s)
    ensures var s' := ActivateAll(s);
      && (forall h | h in s'.objects :: h in s.objects && s'.objects[h] == s.objects[h])
      && forall h | h in s.objects && !s.objects[h].deleted :: h in s'.objects
    decreases |s.list|
  {
    if s.list != [] {
      ActivateFirstValid(s);
      ActivateAllObjects(ActivateFirst(s));
    }
  }

  /** The destructor: every listed handler is freed and taken out of the set,
      then the rest of the set is freed. */
  function Destroy(s: Descriptors): (s': Descriptors)
    decreases |s.list|
  {
    if s.list == [] then
      s.(installed := [], freed := s.freed + Handlers(s.installed),
         objects := map h | h in s.objects && h !in Handlers(s.installed) :: s.objects[h])
    else
      Destroy(s.(list := s.list[1..], installed := Without(s.installed, s.list[0]),
                 freed := s.freed + [s.list[0]], objects := s.objects - {s.list[0]}))
  }

  lemma DestroyFirstValid(s: Descriptors)
    requires Valid(s) && s.list != []
    ensures Valid(s.(list := s.list[1..], installed := Without(s.installed, s.list[0]),
                     freed := s.freed + [s.list[0]], objects := s.objects - {s.list[0]}))
  {
    var h := s.list[0];
    var s' := s.(list := s.list[1..], installed := Without(s.installed, h), freed := s.freed + [h], objects := s.objects - {h});
    HeadAllocated(s);
    CountPop(s.list);
    CountPush(s.freed, h);
    WithoutCount(s.installed, h);
    forall q: Ref ensures Placed(s', q) {
      assert Placed(s, q);
    }
  }

  /** Over its whole life the multiplexer frees every handler exactly once. */
  lemma {:induction false} DestroyFreesOnce(s: Descriptors)
    requires Valid(s)
    ensures Valid(Destroy(s)) && forall h: Ref | h < s.next :: At(Destroy(s), h, Freed)
    decreases |s.list|
  {
    if s.list != [] {
      DestroyFirstValid(s);
      DestroyFreesOnce(s.(list := s.list[1..], installed := Without(s.installed, s.list[0]),
                          freed := s.freed + [s.list[0]], objects := s.objects - {s.list[0]}));
    } else {
      var s' := Destroy(s);
      assert Handlers(s'.installed) == [];
      forall h: Ref ensures Placed(s', h) && (h < s.next ==> At(s', h, Freed)) {
        assert Placed(s, h);
        CountJoin(s.freed, Handlers(s.installed), h);
      }
    }
  }

  // ---- the kernel's interest set ----

  /** Without a clash: a prepared handler is the last one listed for its
      descriptor, a descriptor has one slot, the kernel knows the flags of every
      live installed handler, and it knows no descriptor without a slot. */
  ghost predicate InStep(s: Descriptors) {
    && (forall i, j | 0 <= i < j < |s.list| ::
          s.list[i] in s.objects && s.list[j] in s.objects && s.objects[s.list[i]].fd == s.objects[s.list[j]].fd
          ==> s.objects[s.list[i]].deleted)
    && OneSlotEach(s.installed)
    && (forall i | 0 <= i < |s.installed| :: LiveInStep(s, s.installed[i]))
    && (forall fd | fd in s.kernel :: exists i :: 0 <= i < |s.installed| && s.installed[i].fd == fd)
  }

  ghost predicate OneSlotEach(installed: seq<Slot>) {
    forall i, j | 0 <= i < j < |installed| :: installed[i].fd != installed[j].fd
  }

  ghost predicate LiveInStep(s: Descriptors, slot: Slot) {
    Serves(s, slot.hdlr, slot.fd) ==>
      && slot.fd in s.kernel && s.kernel[slot.fd] == s.objects[slot.hdlr].flags
      && forall k | 0 <= k < |s.list| && s.list[k] in s.objects :: s.objects[s.list[k]].fd != slot.fd
  }

  /** What epoll_wait must watch: each installed handler's descriptor with its
      flags, and nothing else. */
  ghost predicate Exact(s: Descriptors) {
    && (forall i | 0 <= i < |s.installed| ::
          Serves(s, s.installed[i].hdlr, s.installed[i].fd) && s.installed[i].fd in s.kernel
          && s.kernel[s.installed[i].fd] == s.objects[s.installed[i].hdlr].flags)
    && (forall fd | fd in s.kernel :: exists i :: 0 <= i < |s.installed| && s.installed[i].fd == fd)
    && OneSlotEach(s.installed)
  }

  lemma RegisterInStep(s: Descriptors, flags: Flags, fd: int, kind: Kind)
    requires Valid(s) && InStep(s) && !Register(s, flags, fd, kind).clash
    ensures InStep(Register(s, flags, fd, kind))
  {
    assert Placed(s, s.next);
    if fd >= 0 {
      var s' := Register(s, flags, fd, kind);
      forall i | 0 <= i < |s'.installed| ensures LiveInStep(s', s'.installed[i]) {
        assert LiveInStep(s, s.installed[i]);
      }
      forall i, j | 0 <= i < j < |s'.list| && s'.list[i] in s'.objects && s'.list[j] in s'.objects
          && s'.objects[s'.list[i]].fd == s'.objects[s'.list[j]].fd
        ensures s'.objects[s'.list[i]].deleted
      {
        assert Count(s.list, s.list[i]) > 0;
        assert !Serves(s, s.list[i], fd);
      }
    }
  }

  /** A live handler shares its descriptor with no other live installed one. */
  lemma OtherDescriptor(s: Descriptors, h: Ref, i: nat)
    requires Valid(s) && InStep(s) && h in s.objects && !s.objects[h].deleted
    requires i < |s.installed| && s.installed[i].hdlr != h && Serves(s, s.installed[i].hdlr, s.installed[i].fd)
    ensures s.installed[i].fd != s.objects[h].fd
  {
    assert Placed(s, h);
    assert LiveInStep(s, s.installed[i]);
    if h !in s.list {
      CountFound(s.installed, h);
    }
  }

  lemma SetFlagsInStep(s: Descriptors, h: Ref, flags: Flags)
    requires Valid(s) && InStep(s)
    ensures InStep(SetFlags(s, h, flags))
  {
    var s' := SetFlags(s, h, flags);
    if h in s.objects && !s.objects[h].deleted {
      forall i | 0 <= i < |s'.installed| ensures LiveInStep(s', s'.installed[i]) {
        assert LiveInStep(s, s.installed[i]);
        if s.installed[i].hdlr != h && Serves(s, s.installed[i].hdlr, s.installed[i].fd) {
          OtherDescriptor(s, h, i);
        }
      }
    }
  }

  lemma RemoveInStep(s: Descriptors, h: Ref)
    requires Valid(s) && InStep(s)
    ensures InStep(Remove(s, h))
  {
    var s' := Remove(s, h);
    if h in s.objects && !s.objects[h].deleted {
      var n := Find(s.installed, h);
      if n < |s.installed| {
        assert LiveInStep(s, s.installed[n]);
      }
      forall i | 0 <= i < |s'.installed| ensures LiveInStep(s', s'.installed[i]) {
        assert LiveInStep(s, s.installed[i]);
      }
    }
  }

  lemma WithoutSlots(installed: seq<Slot>, h: Ref)
    requires OneSlotEach(installed)
    ensures OneSlotEach(Without(installed, h))
    ensures forall slot :: slot in Without(installed, h) ==> slot in installed
    ensures forall k | 0 <= k < |installed| && k != Find(installed, h) :: installed[k] in Without(installed, h)
  {
  }

  lemma DoomedLive(s: Descriptors, slot: Slot)
    requires Valid(s) && InStep(s) && s.list != [] && s.list[0] in s.objects && s.objects[s.list[0]].deleted
    requires slot in s.installed
    ensures LiveInStep(ActivateFirst(s), slot)
  {
  }

  lemma DoomedKernel(s: Descriptors, fd: int)
    requires Valid(s) && InStep(s) && s.list != [] && s.list[0] in s.objects && s.objects[s.list[0]].deleted
    requires fd in ActivateFirst(s).kernel
    ensures exists i :: 0 <= i < |ActivateFirst(s).installed| && ActivateFirst(s).installed[i].fd == fd
  {
    var h, s' := s.list[0], ActivateFirst(s);
    WithoutSlots(s.installed, h);
    var k :| 0 <= k < |s.installed| && s.installed[k].fd == fd;
    assert k != Find(s.installed, h);
    assert s.installed[k] in s'.installed;
    var i :| 0 <= i < |s'.installed| && s'.installed[i] == s.installed[k];
    assert s'.installed[i].fd == fd;
  }

  lemma ActivateDoomedInStep(s: Descriptors)
    requires Valid(s) && InStep(s) && s.list != [] && s.list[0] in s.objects && s.objects[s.list[0]].deleted
    ensures InStep(ActivateFirst(s))
  {
    var s' := ActivateFirst(s);
    WithoutSlots(s.installed, s.list[0]);
    forall i | 0 <= i < |s'.installed| ensures LiveInStep(s', s'.installed[i]) {
      DoomedLive(s, s'.installed[i]);
    }
    forall fd | fd in s'.kernel ensures exists i :: 0 <= i < |s'.installed| && s'.installed[i].fd == fd {
      DoomedKernel(s, fd);
    }
    ListInStepTail(s);
  }

  lemma ListInStepTail(s: Descriptors)
    requires Valid(s) && InStep(s) && s.list != [] && s.list[0] in s.objects
    ensures var s' := ActivateFirst(s);
      forall i, j | 0 <= i < j < |s'.list| && s'.list[i] in s'.objects && s'.list[j] in s'.objects
        && s'.objects[s'.list[i]].fd == s'.objects[s'.list[j]].fd :: s'.objects[s'.list[i]].deleted
  {
  }

  /** When a prepared handler's turn comes the kernel does not know its
      descriptor, so EPOLL_CTL_ADD succeeds. */
  lemma AddSucceeds(s: Descriptors)
    requires Valid(s) && InStep(s) && s.list != [] && s.list[0] in s.objects && !s.objects[s.list[0]].deleted
    ensures s.objects[s.list[0]].fd !in s.kernel
    ensures forall i | 0 <= i < |s.installed| :: s.installed[i].fd != s.objects[s.list[0]].fd
  {
    var h := s.list[0];
    forall i | 0 <= i < |s.installed| ensures s.installed[i].fd != s.objects[h].fd {
      assert LiveInStep(s, s.installed[i]);
      var q := s.installed[i].hdlr;
      assert Placed(s, q);
      if s.objects[q].deleted {
        assert Count(s.list, q) == 1;
        var j :| 0 <= j < |s.list| && s.list[j] == q;
        assert j != 0;
      }
    }
  }

  lemma ActivatePreparedInStep(s: Descriptors)
    requires Valid(s) && InStep(s) && s.list != [] && s.list[0] in s.objects && !s.objects[s.list[0]].deleted
    ensures InStep(ActivateFirst(s))
  {
    var h, s' := s.list[0], ActivateFirst(s);
    AddSucceeds(s);
    ActivatePreparedValid(s);
    forall i | 0 <= i < |s'.installed| ensures LiveInStep(s', s'.installed[i]) {
      if i < |s.installed| {
        assert LiveInStep(s, s.installed[i]);
      }
    }
    forall f | f in s'.kernel ensures exists i :: 0 <= i < |s'.installed| && s'.installed[i].fd == f {
      if f == s.objects[h].fd {
        assert s'.installed[|s.installed|].fd == f;
      } else {
        var k :| 0 <= k < |s.installed| && s.installed[k].fd == f;
        assert s'.installed[k].fd == f;
      }
    }
  }

  /** After ActivateDescriptors the kernel watches exactly the installed handlers. */
  lemma {:induction false} ActivateAllExact(s: Descriptors)
    requires Valid(s) && InStep(s)
    ensures InStep(ActivateAll(s)) && Exact(ActivateAll(s))
    decreases |s.list|
  {
    if s.list != [] {
      ActivateFirstValid(s);
      if s.objects[s.list[0]].deleted {
        ActivateDoomedInStep(s);
      } else {
        ActivatePreparedInStep(s);
      }
      ActivateAllExact(ActivateFirst(s));
    } else {
      var s' := ActivateAll(s);
      ActivateAllValid(s);
      forall i | 0 <= i < |s'.installed| ensures LiveInStep(s', s'.installed[i]) {
        assert LiveInStep(s, s.installed[i]);
      }
    }
  }
}
