/** What the kernel watches descriptors for when a handler is registered for a
    descriptor that another one still serves. */
module Interests {
  import opened Counting
  import opened Descriptors

  // ---- what a clash costs ----

  predicate ListedFor(s: Descriptors, k: nat, fd: int) {
    k < |s.list| && s.list[k] in s.objects && s.objects[s.list[k]].fd == fd
  }

  ghost predicate Listed(s: Descriptors, fd: int) {
    exists k: nat :: ListedFor(s, k, fd)
  }

  /** The last handler listed for the descriptor is a removed one. */
  ghost predicate EndsDoomed(s: Descriptors, fd: int) {
    exists k: nat :: ListedFor(s, k, fd) && s.objects[s.list[k]].deleted && forall j: nat | k < j :: !ListedFor(s, j, fd)
  }

  lemma HeadOnce(s: Descriptors, k: nat)
    requires Valid(s) && s.list != [] && 0 < k < |s.list|
    ensures s.list[k] != s.list[0]
  {
    HeadAllocated(s);
    if s.list[k] == s.list[0] {
      CountTwice(s.list, 0, k);
    }
  }

  lemma ListedTail(s: Descriptors, fd: int)
    requires Valid(s) && s.list != [] && s.list[0] in s.objects
    ensures forall k: nat :: ListedFor(ActivateFirst(s), k, fd) <==> ListedFor(s, k + 1, fd)
    ensures ActivateFirst(s).list == s.list[1..]
    ensures forall h | h in s.list[1..] && h in s.objects ::
              h in ActivateFirst(s).objects && ActivateFirst(s).objects[h] == s.objects[h]
  {
    forall k | 0 < k < |s.list| ensures s.list[k] != s.list[0] {
      HeadOnce(s, k);
    }
  }

  lemma EndsDoomedTail(s: Descriptors, fd: int)
    requires Valid(s) && s.list != [] && s.list[0] in s.objects
    ensures Listed(s, fd) <==> s.objects[s.list[0]].fd == fd || Listed(ActivateFirst(s), fd)
    ensures EndsDoomed(s, fd) <==>
            || EndsDoomed(ActivateFirst(s), fd)
            || (s.objects[s.list[0]].fd == fd && s.objects[s.list[0]].deleted && !Listed(ActivateFirst(s), fd))
  {
    var s' := ActivateFirst(s);
    ListedTail(s, fd);
    if Listed(s', fd) {
      var k: nat :| ListedFor(s', k, fd);
      assert ListedFor(s, k + 1, fd);
    }
    if EndsDoomed(s', fd) {
      var k: nat :| ListedFor(s', k, fd) && s'.objects[s'.list[k]].deleted && forall j: nat | k < j :: !ListedFor(s', j, fd);
      forall j: nat | k + 1 < j ensures !ListedFor(s, j, fd) {
        assert !ListedFor(s', j - 1, fd);
      }
      assert ListedFor(s, k + 1, fd);
    }
    if s.objects[s.list[0]].fd == fd {
      assert ListedFor(s, 0, fd);
    }
    if s.objects[s.list[0]].fd == fd && s.objects[s.list[0]].deleted && !Listed(s', fd) {
      forall j: nat | 0 < j ensures !ListedFor(s, j, fd) {
        assert !ListedFor(s', j - 1, fd);
      }
    }
    if Listed(s, fd) {
      var k: nat :| ListedFor(s, k, fd);
      assert k > 0 ==> ListedFor(s', k - 1, fd);
    }
    if EndsDoomed(s, fd) {
      var k: nat :| ListedFor(s, k, fd) && s.objects[s.list[k]].deleted && forall j: nat | k < j :: !ListedFor(s, j, fd);
      forall j: nat | k - 1 < j ensures !ListedFor(s', j, fd) {
        assert !ListedFor(s, j + 1, fd);
      }
      assert k > 0 ==> ListedFor(s', k - 1, fd);
    }
  }

  lemma {:induction false} WatchedAfter(s: Descriptors, fd: int)
    requires Valid(s)
    ensures fd in ActivateAll(s).kernel <==> !EndsDoomed(s, fd) && (fd in s.kernel || Listed(s, fd))
    decreases |s.list|
  {
    if s.list != [] {
      ActivateFirstValid(s);
      if !s.objects[s.list[0]].deleted {
        ActivatePreparedValid(s);
      }
      EndsDoomedTail(s, fd);
      WatchedAfter(ActivateFirst(s), fd);
    }
  }

  lemma {:induction false} ServesAfter(s: Descriptors, h: Ref, fd: int)
    requires Valid(s)
    ensures Serves(ActivateAll(s), h, fd) <==> Serves(s, h, fd)
    decreases |s.list|
  {
    if s.list != [] {
      ActivateFirstValid(s);
      ServesAfter(ActivateFirst(s), h, fd);
    }
  }

  // ---- where the kernel's flags come from ----

  predicate DoomedFor(s: Descriptors, k: nat, fd: int) {
    ListedFor(s, k, fd) && s.objects[s.list[k]].deleted
  }

  predicate Tells(s: Descriptors, h: Ref, fd: int) {
    Serves(s, h, fd) && fd in s.kernel && s.kernel[fd] == s.objects[h].flags
  }

  /** Clash or no clash: what the kernel watches a descriptor for is what some
      live handler asks for, or the removal of a handler for it is under way. */
  ghost predicate Traced(s: Descriptors) {
    forall fd | fd in s.kernel :: (exists h :: Tells(s, h, fd)) || exists k: nat :: DoomedFor(s, k, fd)
  }

  lemma RegisterTraced(s: Descriptors, flags: Flags, fd: int, kind: Kind)
    requires Valid(s) && Traced(s)
    ensures Traced(Register(s, flags, fd, kind))
  {
    var s' := Register(s, flags, fd, kind);
    assert Placed(s, s.next);
    forall f | f in s'.kernel ensures (exists h :: Tells(s', h, f)) || exists k: nat :: DoomedFor(s', k, f) {
      if h :| Tells(s, h, f) {
        assert Tells(s', h, f);
      } else {
        var k: nat :| DoomedFor(s, k, f);
        assert DoomedFor(s', k, f);
      }
    }
  }

  lemma SetFlagsTraced(s: Descriptors, h: Ref, flags: Flags)
    requires Traced(s)
    ensures Traced(SetFlags(s, h, flags))
  {
    var s' := SetFlags(s, h, flags);
    forall f | f in s'.kernel ensures (exists q :: Tells(s', q, f)) || exists k: nat :: DoomedFor(s', k, f) {
      if Serves(s, h, f) {
        assert Tells(s', h, f);
      } else if q :| Tells(s, q, f) {
        assert Tells(s', q, f);
      } else {
        var k: nat :| DoomedFor(s, k, f);
        assert DoomedFor(s', k, f);
      }
    }
  }

  lemma RemovedListed(s: Descriptors, h: Ref, fd: int) returns (k: nat)
    requires Valid(s) && Serves(s, h, fd)
    ensures DoomedFor(Remove(s, h), k, fd)
  {
    RemoveValid(s, h);
    var s' := Remove(s, h);
    assert Count(s'.list, h) == 1;
    k :| 0 <= k < |s'.list| && s'.list[k] == h;
  }

  lemma RemoveTraced(s: Descriptors, h: Ref)
    requires Valid(s) && Traced(s)
    ensures Traced(Remove(s, h))
  {
    var s' := Remove(s, h);
    forall f | f in s'.kernel ensures (exists q :: Tells(s', q, f)) || exists k: nat :: DoomedFor(s', k, f) {
      if Serves(s, h, f) {
        var k := RemovedListed(s, h, f);
      } else if q :| Tells(s, q, f) {
        assert Tells(s', q, f);
      } else {
        var k: nat :| DoomedFor(s, k, f);
        assert DoomedFor(s', k, f);
      }
    }
  }

  lemma CloseTraced(s: Descriptors, fd: int)
    requires Traced(s)
    ensures Traced(s.(kernel := s.kernel - {fd}))
  {
    var s' := s.(kernel := s.kernel - {fd});
    forall f | f in s'.kernel ensures (exists h :: Tells(s', h, f)) || exists k: nat :: DoomedFor(s', k, f) {
      if h :| Tells(s, h, f) {
        assert Tells(s', h, f);
      } else {
        var k: nat :| DoomedFor(s, k, f);
        assert DoomedFor(s', k, f);
      }
    }
  }

  lemma ActivateFirstTraced(s: Descriptors)
    requires Valid(s) && Traced(s) && s.list != [] && s.list[0] in s.objects
    ensures Traced(ActivateFirst(s))
  {
    var h, s' := s.list[0], ActivateFirst(s);
    if !s.objects[h].deleted {
      ActivatePreparedValid(s);
    }
    forall f | f in s'.kernel ensures (exists q :: Tells(s', q, f)) || exists k: nat :: DoomedFor(s', k, f) {
      ListedTail(s, f);
      if f !in s.kernel {
        assert Tells(s', h, f);
      } else if q :| Tells(s, q, f) {
        assert Tells(s', q, f);
      } else {
        var k: nat :| DoomedFor(s, k, f);
        assert DoomedFor(s', k - 1, f);
      }
    }
  }

  lemma {:induction false} ActivateAllTraced(s: Descriptors)
    requires Valid(s) && Traced(s)
    ensures Traced(ActivateAll(s))
    decreases |s.list|
  {
    if s.list != [] {
      ActivateFirstValid(s);
      ActivateFirstTraced(s);
      ActivateAllTraced(ActivateFirst(s));
    } else {
      var s' := ActivateAll(s);
      forall f | f in s'.kernel ensures exists h :: Tells(s', h, f) {
        var h :| Tells(s, h, f);
        assert Tells(s', h, f);
      }
    }
  }

  /** What every operation keeps. */
  ghost predicate Sane(s: Descriptors) {
    Valid(s) && Traced(s) && (!s.clash ==> InStep(s))
  }

  /** The kernel watches every descriptor that has a live handler. */
  ghost predicate AllWatched(s: Descriptors) {
    forall h, fd | Serves(s, h, fd) :: fd in s.kernel
  }

  /** And it watches it for what the handler asks for. */
  ghost predicate AllTold(s: Descriptors) {
    forall h, fd | Serves(s, h, fd) :: Tells(s, h, fd)
  }

  /** A descriptor with a live handler is watched, or about to be, and no removed
      handler is the last one listed for it. */
  ghost predicate AllReached(s: Descriptors) {
    forall h, fd | Serves(s, h, fd) :: !EndsDoomed(s, fd) && (fd in s.kernel || Listed(s, fd))
  }

  /** Live handlers for one descriptor ask for the same. */
  ghost predicate Agreed(s: Descriptors) {
    forall h, q, fd | Serves(s, h, fd) && Serves(s, q, fd) :: s.objects[h].flags == s.objects[q].flags
  }

  lemma WatchedIff(s: Descriptors)
    requires Valid(s)
    ensures AllWatched(ActivateAll(s)) <==> AllReached(s)
  {
    var s' := ActivateAll(s);
    forall h, fd ensures Serves(s', h, fd) <==> Serves(s, h, fd) {
      ServesAfter(s, h, fd);
    }
    forall fd ensures fd in s'.kernel <==> !EndsDoomed(s, fd) && (fd in s.kernel || Listed(s, fd)) {
      WatchedAfter(s, fd);
    }
  }

  /** ActivateDescriptors leaves every live handler with its own flags in the
      kernel, clash or no clash, if and only if its descriptor is reached and
      shared only by handlers with equal flags.  Two things go wrong otherwise:
      the EPOLL_CTL_DEL of a removed handler takes a survivor's interest away,
      and the EPOLL_CTL_ADD of a second handler fails and leaves the first one's
      flags. */
  lemma ToldIff(s: Descriptors)
    requires Valid(s) && Traced(s)
    ensures AllTold(ActivateAll(s)) <==> AllReached(s) && Agreed(s)
  {
    var s' := ActivateAll(s);
    WatchedIff(s);
    ActivateAllTraced(s);
    ActivateAllValid(s);
    ActivateAllObjects(s);
    forall h, fd ensures Serves(s', h, fd) <==> Serves(s, h, fd) {
      ServesAfter(s, h, fd);
    }
    if AllTold(s') {
      forall h, q, fd | Serves(s, h, fd) && Serves(s, q, fd) ensures s.objects[h].flags == s.objects[q].flags {
        assert Tells(s', h, fd) && Tells(s', q, fd);
      }
    }
    if AllWatched(s') && Agreed(s) {
      forall h, fd | Serves(s', h, fd) ensures Tells(s', h, fd) {
        assert fd in s'.kernel;
        var q :| Tells(s', q, fd);
        assert Serves(s, q, fd) && Serves(s, h, fd);
      }
    }
  }

  /** No descriptor with a live handler has a removed one as its last entry. */
  ghost predicate SurvivorsLast(s: Descriptors) {
    forall h, fd | Serves(s, h, fd) :: !EndsDoomed(s, fd)
  }

  /** Where no live installed handler has lost its descriptor so far, that is a
      matter of what m_cblist holds. */
  lemma ToldIffSurvivorsLast(s: Descriptors)
    requires Valid(s) && Traced(s)
    requires forall i | 0 <= i < |s.installed| && Serves(s, s.installed[i].hdlr, s.installed[i].fd) ::
               s.installed[i].fd in s.kernel
    ensures AllTold(ActivateAll(s)) <==> SurvivorsLast(s) && Agreed(s)
  {
    ToldIff(s);
    forall h, fd | Serves(s, h, fd) ensures fd in s.kernel || Listed(s, fd) {
      assert Placed(s, h);
      CountFound(s.installed, h);
      if h in s.list {
        var k :| 0 <= k < |s.list| && s.list[k] == h;
        assert ListedFor(s, k, fd);
      } else {
        assert Serves(s, s.installed[Find(s.installed, h)].hdlr, s.installed[Find(s.installed, h)].fd);
      }
    }
  }

  /** The shortest history of the second kind: handlers for EPOLLIN and EPOLLOUT
      are registered for descriptor 5, none is removed, and the kernel never
      hears of EPOLLOUT. */
  lemma ClashHidesFlags()
    ensures var installed := ActivateAll(Register(NO_DESCRIPTORS, EPOLLIN, 5, User));
      var s := ActivateAll(Register(installed, EPOLLOUT, 5, User));
      && s.clash && Serves(s, 0, 5) && Serves(s, 1, 5)
      && s.objects[1].flags == EPOLLOUT && 5 in s.kernel && s.kernel[5] == EPOLLIN
  {
    var d := Descriptor(5, EPOLLIN, User, false);
    var first := Register(NO_DESCRIPTORS, EPOLLIN, 5, User);
    var installed := ActivateAll(first);
    assert installed == ActivateAll(ActivateFirst(first));
    assert installed.installed == [Slot(5, 0)] && installed.kernel == map[5 := EPOLLIN] && installed.objects == map[0 := d];
    assert Serves(installed, 0, 5);
    var s0 := Register(installed, EPOLLOUT, 5, User);
    assert s0.list == [1] && s0.installed[0].hdlr == 0;
    var s1 := ActivateFirst(s0);
    assert ActivateAll(s0) == ActivateAll(s1);
  }

  /** The shortest history of the first kind: a second handler for descriptor 5 is
      registered, then the first one removed.  After the next round the second
      is installed, and the kernel no longer watches 5. */
  lemma ClashLosesInterest()
    ensures var installed := ActivateAll(Register(NO_DESCRIPTORS, EPOLLIN, 5, User));
      var clashing := Register(installed, EPOLLIN, 5, User);
      var s := ActivateAll(Remove(clashing, 0));
      clashing.clash && Serves(s, 1, 5) && 5 !in s.kernel
  {
    var d := Descriptor(5, EPOLLIN, User, false);
    var first := Register(NO_DESCRIPTORS, EPOLLIN, 5, User);
    var installed := ActivateAll(first);
    assert installed == ActivateAll(ActivateFirst(first));
    assert installed.installed == [Slot(5, 0)] && installed.kernel == map[5 := EPOLLIN] && installed.objects == map[0 := d];
    var clashing := Register(installed, EPOLLIN, 5, User);
    assert Serves(installed, 0, 5);
    var s0 := Remove(clashing, 0);
    assert s0.list == [1, 0] && s0.objects[1] == d && s0.installed[0].hdlr == 0;
    var s1 := ActivateFirst(s0);
    assert s1.list == [0] && s1.installed == [Slot(5, 0), Slot(5, 1)];
    var s2 := ActivateFirst(s1);
    assert ActivateAll(s0) == ActivateAll(s1) == ActivateAll(s2);
  }
}
