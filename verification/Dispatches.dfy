/** Whom a batch of ready descriptors reaches: the handlers of the descriptors
    that were reported, each as often as its descriptor was, in that order. */
module Dispatches {
  import opened Counting
  import opened Multiplexer
  import opened MultiplexerProofs
  import opened MultiplexerRuns
  import D = Descriptors

  /** Installed for one of these descriptors. */
  ghost predicate InstalledFor(installed: seq<D.Slot>, fds: seq<int>, h: D.Ref) {
    exists i :: 0 <= i < |installed| && installed[i].hdlr == h && installed[i].fd in fds
  }

  /** equal_range gives the handlers of one descriptor. */
  lemma {:induction false} EqualRangeOnly(installed: seq<D.Slot>, fd: int, h: D.Ref)
    requires h in EqualRange(installed, fd)
    ensures InstalledFor(installed, [fd], h)
    decreases |installed|
  {
    if installed[0].fd == fd && installed[0].hdlr == h {
      assert installed[0].fd in [fd];
    } else {
      EqualRangeOnly(installed[1..], fd, h);
      var i :| 0 <= i < |installed[1..]| && installed[1..][i].hdlr == h && installed[1..][i].fd in [fd];
      assert installed[i + 1].hdlr == h;
    }
  }

  lemma {:induction false} EqualRangeCount(installed: seq<D.Slot>, fd: int, h: D.Ref)
    ensures Count(EqualRange(installed, fd), h) == Count(installed, D.Slot(fd, h))
    decreases |installed|
  {
    if installed != [] {
      var first := if installed[0].fd == fd then [installed[0].hdlr] else [];
      CountFirst(installed, D.Slot(fd, h));
      CountJoin(first, EqualRange(installed[1..], fd), h);
      EqualRangeCount(installed[1..], fd, h);
    }
  }

  /** In the order in which they were installed. */
  lemma {:induction false} EqualRangeJoin(a: seq<D.Slot>, b: seq<D.Slot>, fd: int)
    ensures EqualRange(a + b, fd) == EqualRange(a, fd) + EqualRange(b, fd)
    decreases |a|
  {
    if a == [] {
      assert a + b == b;
    } else {
      EqualRangeJoin(a[1..], b, fd);
      EqualRangeFirst(a, fd);
      EqualRangeFirst(a + b, fd);
      assert (a + b)[0] == a[0] && (a + b)[1..] == a[1..] + b;
      Associative(First(a, fd), EqualRange(a[1..], fd), EqualRange(b, fd));
    }
  }

  function First(installed: seq<D.Slot>, fd: int): seq<D.Ref>
    requires installed != []
  {
    if installed[0].fd == fd then [installed[0].hdlr] else []
  }

  lemma EqualRangeFirst(installed: seq<D.Slot>, fd: int)
    requires installed != []
    ensures EqualRange(installed, fd) == First(installed, fd) + EqualRange(installed[1..], fd)
  {
  }

  lemma SlotOnce(s: D.Descriptors, i: nat, fd: int)
    requires D.Valid(s) && i < |s.installed|
    ensures Count(s.installed, D.Slot(fd, s.installed[i].hdlr)) == if s.installed[i].fd == fd then 1 else 0
  {
    var h := s.installed[i].hdlr;
    assert D.Placed(s, h);
    D.CountFound(s.installed, h);
    if j :| 0 <= j < |s.installed| && s.installed[j] == D.Slot(fd, h) && j != i {
      assert D.Handlers(s.installed)[i] == D.Handlers(s.installed)[j] == h;
      CountTwice(D.Handlers(s.installed), if i < j then i else j, if i < j then j else i);
    }
    if s.installed[i].fd == fd {
      CountAt(s.installed, i);
    } else {
      assert D.Slot(fd, h) !in s.installed;
    }
  }

  /** What stands at one place only counts once. */
  lemma CountAt(installed: seq<D.Slot>, i: nat)
    requires i < |installed| && forall j | 0 <= j < |installed| && j != i :: installed[j] != installed[i]
    ensures Count(installed, installed[i]) == 1
  {
    var before, rest := installed[..i], installed[i..];
    assert installed == before + rest;
    CountJoin(before, rest, installed[i]);
    CountFirst(rest, installed[i]);
    assert installed[i] !in before && installed[i] !in rest[1..];
  }

  /** The calls between two states. */
  function Called(a: Ctx, b: Ctx): seq<D.Ref>
    requires a.invoked <= b.invoked
  {
    b.invoked[|a.invoked|..]
  }

  lemma CalledJoin(a: Ctx, b: Ctx, c: Ctx, h: D.Ref)
    requires a.invoked <= b.invoked <= c.invoked
    ensures Called(a, c) == Called(a, b) + Called(b, c)
    ensures Count(Called(a, c), h) == Count(Called(a, b), h) + Count(Called(b, c), h)
  {
    assert Called(a, c) == Called(a, b) + Called(b, c);
    CountJoin(Called(a, b), Called(b, c), h);
  }

  // ---- only they ----

  lemma {:induction false} InvokeAllCalls(c: Ctx, hs: seq<D.Ref>, env: Env)
    requires Inv(c) && forall h | h in hs :: h in D.Handlers(c.ds.installed)
    ensures c.invoked <= InvokeAll(c, hs, env).invoked
    ensures forall h | h in Called(c, InvokeAll(c, hs, env)) :: h in hs
    decreases |hs|
  {
    if hs != [] {
      var c1 := Invoke(c, hs[0], env);
      assert hs[0] in hs;
      InvokeInv(c, hs[0], env);
      InvokeAllCalls(c1, hs[1..], env);
      CalledJoin(c, c1, InvokeAll(c, hs, env), hs[0]);
    }
  }

  /** A handler that is called in a batch is installed for a descriptor that was
      reported in it. */
  lemma {:induction false} DispatchCalls(c: Ctx, fds: seq<int>, env: Env, h: D.Ref)
    requires Inv(c)
    ensures c.invoked <= Dispatch(c, fds, env).invoked
    ensures h in Called(c, Dispatch(c, fds, env)) ==> InstalledFor(c.ds.installed, fds, h)
    decreases |fds|
  {
    if fds != [] {
      var c1 := InvokeAll(c, EqualRange(c.ds.installed, fds[0]), env);
      FirstCalls(c, fds[0], env, h);
      DispatchCalls(c1, fds[1..], env, h);
      CalledJoin(c, c1, Dispatch(c, fds, env), h);
      if h in Called(c, c1) {
        MoreReported(c.ds.installed, [fds[0]], fds, h);
      } else if h in Called(c, Dispatch(c, fds, env)) {
        MoreReported(c.ds.installed, fds[1..], fds, h);
      }
    }
  }

  lemma FirstCalls(c: Ctx, fd: int, env: Env, h: D.Ref)
    requires Inv(c)
    ensures var c1 := InvokeAll(c, EqualRange(c.ds.installed, fd), env);
      && Inv(c1) && c1.ds.installed == c.ds.installed && c.invoked <= c1.invoked
      && (h in Called(c, c1) ==> InstalledFor(c.ds.installed, [fd], h))
  {
    var hs := EqualRange(c.ds.installed, fd);
    InvokeAllInv(c, hs, env);
    InvokeAllCalls(c, hs, env);
    if h in hs {
      EqualRangeOnly(c.ds.installed, fd, h);
    }
  }

  lemma MoreReported(installed: seq<D.Slot>, some: seq<int>, fds: seq<int>, h: D.Ref)
    requires InstalledFor(installed, some, h) && forall fd | fd in some :: fd in fds
    ensures InstalledFor(installed, fds, h)
  {
  }

  /** Some of them, in their order. */
  ghost predicate Among(calls: seq<D.Ref>, hs: seq<D.Ref>)
    decreases |hs|
  {
    if hs == [] then calls == []
    else (calls != [] && calls[0] == hs[0] && Among(calls[1..], hs[1..])) || Among(calls, hs[1..])
  }

  /** The handlers of a descriptor are called in the order of their slots. */
  lemma {:induction false} InvokeAllInOrder(c: Ctx, hs: seq<D.Ref>, env: Env)
    requires Inv(c) && forall h | h in hs :: h in D.Handlers(c.ds.installed)
    ensures c.invoked <= InvokeAll(c, hs, env).invoked && Among(Called(c, InvokeAll(c, hs, env)), hs)
    decreases |hs|
  {
    if hs != [] {
      var c1 := Invoke(c, hs[0], env);
      assert hs[0] in hs;
      InvokeInv(c, hs[0], env);
      InvokeAllInOrder(c1, hs[1..], env);
      CalledJoin(c, c1, InvokeAll(c, hs, env), hs[0]);
      if Called(c, c1) != [] {
        assert Called(c, c1) == [hs[0]];
        assert Called(c, InvokeAll(c, hs, env))[1..] == Called(c1, InvokeAll(c, hs, env));
      }
    }
  }

  // ---- as often as reported ----

  ghost predicate LiveIn(ds: D.Descriptors, h: D.Ref) {
    h in ds.objects && !ds.objects[h].deleted
  }

  lemma LiveBefore(a: D.Descriptors, b: D.Descriptors, h: D.Ref)
    requires KeepsDescriptors(a, b) && LiveIn(b, h) && h in a.objects
    ensures LiveIn(a, h)
  {
  }

  lemma InvokeCounts(c: Ctx, q: D.Ref, env: Env, h: D.Ref)
    requires Inv(c) && LiveIn(c.ds, h)
    ensures c.invoked <= Invoke(c, q, env).invoked
    ensures Count(Called(c, Invoke(c, q, env)), h) == if q == h then 1 else 0
  {
    InvokeInv(c, q, env);
    assert Called(c, Invoke(c, q, env)) == if LiveIn(c.ds, q) then [q] else [];
  }

  lemma {:induction false} InvokeAllCounts(c: Ctx, hs: seq<D.Ref>, env: Env, h: D.Ref)
    requires Inv(c) && (forall q | q in hs :: q in D.Handlers(c.ds.installed))
    requires h in c.ds.objects && LiveIn(InvokeAll(c, hs, env).ds, h)
    ensures c.invoked <= InvokeAll(c, hs, env).invoked
    ensures Count(Called(c, InvokeAll(c, hs, env)), h) == Count(hs, h)
    decreases |hs|
  {
    if hs != [] {
      var c1 := Invoke(c, hs[0], env);
      assert hs[0] in hs;
      InvokeInv(c, hs[0], env);
      InvokeAllInv(c, hs, env);
      LiveBefore(c.ds, InvokeAll(c, hs, env).ds, h);
      InvokeCounts(c, hs[0], env, h);
      InvokeAllCounts(c1, hs[1..], env, h);
      CalledJoin(c, c1, InvokeAll(c, hs, env), h);
      CountFirst(hs, h);
    }
  }

  /** The calls for one reported descriptor. */
  lemma FirstCounts(c: Ctx, fd: int, env: Env, i: nat)
    requires Inv(c) && i < |c.ds.installed|
    requires LiveIn(InvokeAll(c, EqualRange(c.ds.installed, fd), env).ds, c.ds.installed[i].hdlr)
    ensures c.invoked <= InvokeAll(c, EqualRange(c.ds.installed, fd), env).invoked
    ensures Count(Called(c, InvokeAll(c, EqualRange(c.ds.installed, fd), env)), c.ds.installed[i].hdlr)
         == if c.ds.installed[i].fd == fd then 1 else 0
  {
    var h := c.ds.installed[i].hdlr;
    InvokeAllCounts(c, EqualRange(c.ds.installed, fd), env, h);
    EqualRangeCount(c.ds.installed, fd, h);
    SlotOnce(c.ds, i, fd);
  }

  /** An installed handler that is not removed by the end of the batch has been
      called exactly as often as its descriptor was reported. */
  lemma {:induction false} CalledAsReported(c: Ctx, fds: seq<int>, env: Env, i: nat)
    requires Inv(c) && i < |c.ds.installed| && LiveIn(Dispatch(c, fds, env).ds, c.ds.installed[i].hdlr)
    ensures c.invoked <= Dispatch(c, fds, env).invoked
    ensures Count(Called(c, Dispatch(c, fds, env)), c.ds.installed[i].hdlr) == Count(fds, c.ds.installed[i].fd)
    decreases |fds|
  {
    if fds != [] {
      var h, c1 := c.ds.installed[i].hdlr, InvokeAll(c, EqualRange(c.ds.installed, fds[0]), env);
      FirstCalls(c, fds[0], env, h);
      InvokeAllInv(c, EqualRange(c.ds.installed, fds[0]), env);
      DispatchInv(c1, fds[1..], env);
      LiveBefore(c1.ds, Dispatch(c, fds, env).ds, h);
      FirstCounts(c, fds[0], env, i);
      CalledAsReported(c1, fds[1..], env, i);
      CalledJoin(c, c1, Dispatch(c, fds, env), h);
      CountFirst(fds, c.ds.installed[i].fd);
    }
  }

  // ---- in the order reported ----

  /** The calls for what was reported first come first. */
  lemma InReportOrder(c: Ctx, before: seq<int>, after: seq<int>, env: Env, i: nat)
    requires Inv(c) && |c.invoked| <= i < |Dispatch(c, before + after, env).invoked|
    ensures c.invoked <= Dispatch(c, before, env).invoked <= Dispatch(c, before + after, env).invoked
    ensures InstalledFor(c.ds.installed, if i < |Dispatch(c, before, env).invoked| then before else after,
                         Dispatch(c, before + after, env).invoked[i])
  {
    var middle := Dispatch(c, before, env);
    DispatchSplit(c, before, after, env);
    DispatchInv(c, before, env);
    if i < |middle.invoked| {
      CallReported(c, before, env, i);
      DispatchCalls(middle, after, env, middle.invoked[i]);
    } else {
      CallReported(middle, after, env, i);
    }
  }

  lemma CallReported(c: Ctx, fds: seq<int>, env: Env, i: nat)
    requires Inv(c) && |c.invoked| <= i < |Dispatch(c, fds, env).invoked|
    ensures c.invoked <= Dispatch(c, fds, env).invoked
    ensures InstalledFor(c.ds.installed, fds, Dispatch(c, fds, env).invoked[i])
  {
    var end := Dispatch(c, fds, env);
    DispatchCalls(c, fds, env, end.invoked[i]);
    assert Called(c, end)[i - |c.invoked|] == end.invoked[i];
  }

  /** Between two epoll_waits a handler is called only if the first of them
      reports its descriptor. */
  lemma CalledInRound(p: Ctx, w: Wake, env: Env, h: D.Ref)
    requires RoundInv(p)
    ensures p.invoked <= Prepare(Resume(p, w, env), env).invoked
    ensures h in Called(p, Prepare(Resume(p, w, env), env))
            ==> w.Ready? && InstalledFor(p.ds.installed, w.fds, h)
  {
    ResumeInv(p, w, env);
    HandleTimersInv(Resume(p, w, env), env);
    match w
    case Ready(fds, cpu, wall) =>
      CheckTimeInv(p, cpu, wall, env);
      DispatchCalls(CheckTime(p, cpu, wall, env), fds, env, h);
    case Interrupted(cpu, wall) =>
      CallInv(p, env);
      CallKeepsFired(p, Call(p, env));
      CheckTimeInv(Call(p, env), cpu, wall, env);
  }
}
