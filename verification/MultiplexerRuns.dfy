/** Whole runs of the main loop: what holds at every epoll_wait, and how far a
    timer can drift from the monotonic clock. */
module MultiplexerRuns {
  import opened Counting
  import opened Options
  import opened Timespecs
  import opened Multiplexer
  import opened MultiplexerProofs
  import T = Timers
  import D = Descriptors
  import I = Interests
  import Q = InternalQueues

  // ---- the start ----

  lemma NewCtxInv()
    ensures RoundInv(NewCtx())
  {
  }

  lemma ClocksInv(c: Ctx, cpu: Timespec, wall: Timespec)
    requires RoundInv(c) && Kept(cpu) && Kept(wall)
    ensures RoundInv(c.(cpu := cpu, wall := wall))
  {
  }

  lemma KeepsDescriptorsTwice(a: D.Descriptors, b: D.Descriptors, c: D.Descriptors)
    requires KeepsDescriptors(a, b) && KeepsDescriptors(b, c)
    ensures KeepsDescriptors(a, c)
  {
  }

  lemma RegisterTwice(s: D.Descriptors, readFd: int, writeFd: int)
    requires I.Sane(s) && readFd >= 0 && writeFd >= 0
    ensures var w := D.Register(D.Register(s, D.EPOLLIN, readFd, D.QueueReader), D.EPOLLOUT, writeFd, D.QueueWriter);
      I.Sane(w) && KeepsDescriptors(s, w)
  {
    var r := D.Register(s, D.EPOLLIN, readFd, D.QueueReader);
    RegisterKeeps(s, D.EPOLLIN, readFd, D.QueueReader);
    RegisterKeeps(r, D.EPOLLOUT, writeFd, D.QueueWriter);
    KeepsDescriptorsTwice(s, r, D.Register(r, D.EPOLLOUT, writeFd, D.QueueWriter));
  }

  lemma QueueDescriptorsKeeps(s: D.Descriptors, readFd: int, writeFd: int)
    requires I.Sane(s) && readFd >= 0 && writeFd >= 0
    ensures var s' := QueueDescriptors(s, readFd, writeFd);
      I.Sane(s') && KeepsDescriptors(s, s')
  {
    var r := D.Register(s, D.EPOLLIN, readFd, D.QueueReader);
    var w := D.Register(r, D.EPOLLOUT, writeFd, D.QueueWriter);
    RegisterTwice(s, readFd, writeFd);
    SetFlagsKeeps(w, r.next, D.EPOLLOUT - D.EPOLLOUT);
    assert QueueDescriptors(s, readFd, writeFd) == D.SetFlags(w, r.next, D.EPOLLOUT - D.EPOLLOUT);
  }

  lemma QueueDescriptorsObjects(s: D.Descriptors, readFd: int, writeFd: int)
    requires D.Valid(s) && readFd >= 0 && writeFd >= 0
    ensures var s' := QueueDescriptors(s, readFd, writeFd);
      && s'.objects == s.objects[s.next := D.Descriptor(readFd, D.EPOLLIN, D.QueueReader, false)]
                       [s.next + 1 := D.Descriptor(writeFd, {}, D.QueueWriter, false)]
      && s.next !in s.objects && s.next + 1 !in s.objects
  {
    assert D.Placed(s, s.next) && D.Placed(s, s.next + 1);
    assert D.EPOLLOUT - D.EPOLLOUT == {};
  }

  lemma CreateQueueInv(c: Ctx, readFd: int, writeFd: int)
    requires RoundInv(c) && c.writer.None? && c.reader.None? && readFd >= 0 && writeFd >= 0
    ensures RoundInv(CreateQueue(c, readFd, writeFd))
  {
    QueueDescriptorsKeeps(c.ds, readFd, writeFd);
    QueueDescriptorsObjects(c.ds, readFd, writeFd);
  }

  lemma ApplyMakesNoQueue(c: Ctx, op: Op)
    requires c.writer.None? && c.reader.None?
    ensures Apply(c, op).writer.None? && Apply(c, op).reader.None?
  {
  }

  lemma {:induction false} ApplyAllMakesNoQueue(c: Ctx, ops: seq<Op>)
    requires c.writer.None? && c.reader.None?
    ensures ApplyAll(c, ops).writer.None? && ApplyAll(c, ops).reader.None?
    decreases |ops|
  {
    if ops != [] {
      ApplyMakesNoQueue(c, ops[0]);
      ApplyAllMakesNoQueue(Apply(c, ops[0]), ops[1..]);
    }
  }

  /** From a fresh context on which any public operations were used before. */
  lemma StartInv(ops: seq<Op>, cpu: Reading, wall: Reading, readFd: int, writeFd: int, env: Env)
    requires readFd >= 0 && writeFd >= 0
    ensures var c := ApplyAll(NewCtx(), ops);
      var c' := Start(c, cpu, wall, readFd, writeFd, env);
      RoundInv(c') && c'.early == |c.mq.accepted|
  {
    NewCtxInv();
    ApplyAllInv(NewCtx(), ops);
    ApplyAllMakesNoQueue(NewCtx(), ops);
    var c := ApplyAll(NewCtx(), ops);
    ClocksInv(c, Align(cpu), Align(wall));
    var c1 := c.(cpu := Align(cpu), wall := Align(wall));
    CreateQueueInv(c1, readFd, writeFd);
    var c2 := CreateQueue(c1, readFd, writeFd);
    CallInv(c2, env);
    CallKeepsFired(c2, Call(c2, env));
  }

  lemma CallKeepsFired(c: Ctx, c': Ctx)
    requires FiredOnce(c) && Keeps(c, c') && c'.fired == c.fired
    ensures FiredOnce(c')
  {
  }

  // ---- one round ----

  /** The handlers of the queue survive ActivateDescriptors. */
  lemma ActivateInv(c: Ctx)
    requires RoundInv(c)
    ensures RoundInv(c.(ds := D.ActivateAll(c.ds)))
  {
    D.ActivateAllValid(c.ds);
    D.ActivateAllObjects(c.ds);
    I.ActivateAllTraced(c.ds);
    if !c.ds.clash {
      D.ActivateAllExact(c.ds);
    }
  }

  lemma PrepareInv(c: Ctx, env: Env)
    requires RoundInv(c)
    ensures RoundInv(Prepare(c, env)) && Prepare(c, env).tm.list == [] && Prepare(c, env).ds.list == []
    ensures Prepare(c, env).ds.nfds == |Prepare(c, env).ds.installed|
  {
    HandleTimersInv(c, env);
    ActivateInv(HandleTimers(c, env));
    D.ActivateAllValid(HandleTimers(c, env).ds);
  }

  lemma ResumeInv(c: Ctx, w: Wake, env: Env)
    requires RoundInv(c)
    ensures RoundInv(Resume(c, w, env))
  {
    match w
    case Ready(fds, cpu, wall) =>
      CheckTimeInv(c, cpu, wall, env);
      var c1 := CheckTime(c, cpu, wall, env);
      DispatchInv(c1, fds, env);
      CallKeepsFired(c1, Dispatch(c1, fds, env));
    case Interrupted(cpu, wall) =>
      CallInv(c, env);
      CallKeepsFired(c, Call(c, env));
      CheckTimeInv(Call(c, env), cpu, wall, env);
  }

  lemma {:induction false} RunInv(c: Ctx, wakes: seq<Wake>, env: Env)
    requires RoundInv(c)
    ensures RoundInv(Run(c, wakes, env))
    decreases |wakes|
  {
    if wakes != [] {
      PrepareInv(c, env);
      ResumeInv(Prepare(c, env), wakes[0], env);
      RunInv(Resume(Prepare(c, env), wakes[0], env), wakes[1..], env);
    }
  }

  // ---- what holds at every epoll_wait ----

  /** No lost wake-up.  Unless a descriptor was registered twice, the kernel
      watches exactly the installed handlers, and it watches the queue's pipe
      for output exactly while messages are pending and one was accepted since
      the pipe was made. */
  ghost predicate WellWatched(c: Ctx) {
    && D.Exact(c.ds)
    && (c.writer.Some? ==>
          && c.writeFd in c.ds.kernel
          && (D.EPOLLOUT <= c.ds.kernel[c.writeFd] <==> c.mq.pending != [] && |c.mq.accepted| > c.early))
  }

  /** Exact sleep.  epollTimer is -1 exactly when no timer is active; otherwise
      it is the time until the earliest active one, in whole milliseconds
      without remainder, or 0 when that one is overdue. */
  ghost predicate SleepsExactly(c: Ctx) {
    if exists r :: r in T.Pending(c.tm) && T.IsActive(c.tm, r) then
      exists r | r in T.Pending(c.tm) && T.IsActive(c.tm, r) ::
        && (forall q | q in T.Pending(c.tm) && T.IsActive(c.tm, q) ::
              Nanos(c.tm.objects[r].t) <= Nanos(c.tm.objects[q].t))
        && EpollTimer(c) * MSEC_TO_NSEC == Wait(c, r)
    else EpollTimer(c) == -1
  }

  function Wait(c: Ctx, r: T.Ref): int
    requires r in c.tm.objects
  {
    var left := Nanos(c.tm.objects[r].t) - Nanos(c.wall);
    if left > 0 then left else 0
  }

  /** Some active timer, unless there is none, expires within the int range of
      epoll_wait. */
  ghost predicate NearEnough(c: Ctx) {
    (exists r :: r in T.Pending(c.tm) && T.IsActive(c.tm, r)) ==>
      exists r | r in T.Pending(c.tm) && T.IsActive(c.tm, r) :: Wait(c, r) < 0x8000_0000 * MSEC_TO_NSEC
  }

  /** A handler that is alive at an epoll_wait has its slot. */
  lemma HasSlot(s: D.Descriptors, h: D.Ref, fd: int) returns (i: nat)
    requires D.Valid(s) && s.list == [] && D.Serves(s, h, fd)
    ensures i < |s.installed| && s.installed[i] == D.Slot(fd, h)
  {
    assert D.Placed(s, h);
    D.CountFound(s.installed, h);
    i := D.Find(s.installed, h);
  }

  lemma ServerInstalled(s: D.Descriptors, h: D.Ref, fd: int)
    requires D.Valid(s) && s.list == [] && D.Exact(s) && D.Serves(s, h, fd)
    ensures fd in s.kernel && s.kernel[fd] == s.objects[h].flags
  {
    var i := HasSlot(s, h, fd);
    assert D.Serves(s, s.installed[i].hdlr, s.installed[i].fd);
  }

  /** The earliest active timer, and the sleep until it. */
  ghost predicate Earliest(c: Ctx, r: T.Ref) {
    && r in T.Pending(c.tm) && T.IsActive(c.tm, r)
    && forall q | q in T.Pending(c.tm) && T.IsActive(c.tm, q) ::
         Nanos(c.tm.objects[r].t) <= Nanos(c.tm.objects[q].t)
  }

  lemma EarliestSleep(c: Ctx, r: T.Ref)
    requires Inv(c) && Earliest(c, r) && Timely(c.tm.objects[r].t)
    requires T.NextDelay(c.tm, c.wall) == Some(Timespecs.Delay(c.wall, c.tm.objects[r].t))
    ensures EpollTimer(c) * MSEC_TO_NSEC == Wait(c, r) <==> Wait(c, r) < 0x8000_0000 * MSEC_TO_NSEC
  {
    SleepIsExact(c.wall, c.tm.objects[r].t);
  }

  lemma EarliestWait(c: Ctx, r: T.Ref, q: T.Ref)
    requires Earliest(c, r) && q in T.Pending(c.tm) && T.IsActive(c.tm, q)
    ensures Wait(c, r) <= Wait(c, q) && (Earliest(c, q) ==> Wait(c, r) == Wait(c, q))
  {
  }

  /** The timeout is exact if and only if the earliest active timer is near
      enough; how far away the others are does not matter. */
  lemma SleepExactIff(c: Ctx)
    requires Inv(c) && c.tm.list == [] && T.ActiveTimely(c.tm)
    ensures SleepsExactly(c) <==> NearEnough(c)
  {
    T.NextDelayIsEarliest(c.tm, c.wall);
    if Multiplexer.Delay(c).Some? {
      var r :| Earliest(c, r) && Timely(c.tm.objects[r].t)
               && T.NextDelay(c.tm, c.wall) == Some(Timespecs.Delay(c.wall, c.tm.objects[r].t));
      EarliestSleep(c, r);
      forall q | q in T.Pending(c.tm) && T.IsActive(c.tm, q)
        ensures Wait(c, r) <= Wait(c, q) && (Earliest(c, q) ==> Wait(c, r) == Wait(c, q))
      {
        EarliestWait(c, r, q);
      }
      SleepsExactlyHere(c, r);
    }
  }

  lemma SleepsExactlyHere(c: Ctx, r: T.Ref)
    requires Earliest(c, r)
    requires forall q | q in T.Pending(c.tm) && T.IsActive(c.tm, q) ::
               Wait(c, r) <= Wait(c, q) && (Earliest(c, q) ==> Wait(c, r) == Wait(c, q))
    ensures SleepsExactly(c) <==> EpollTimer(c) * MSEC_TO_NSEC == Wait(c, r)
    ensures NearEnough(c) <==> Wait(c, r) < 0x8000_0000 * MSEC_TO_NSEC
  {
  }

  /** The main theorem: at every epoll_wait of every run. */
  lemma AtEveryWait(c: Ctx, wakes: seq<Wake>, env: Env)
    requires RoundInv(c)
    ensures var p := Prepare(Run(c, wakes, env), env);
      var before := HandleTimers(Run(c, wakes, env), env).ds;
      && RoundInv(p)
      && (forall h: D.Ref :: D.At(p.ds, h, D.Unborn) || D.At(p.ds, h, D.Installed) || D.At(p.ds, h, D.Freed))
      && p.ds.nfds == |p.ds.installed|
      && (I.AllTold(p.ds) <==> I.AllReached(before) && I.Agreed(before))
      && (!p.ds.clash ==> WellWatched(p))
      && (T.ActiveTimely(p.tm) ==> (SleepsExactly(p) <==> NearEnough(p)))
      && (!p.tm.odd ==> T.ActiveTimely(p.tm))
  {
    RunInv(c, wakes, env);
    var r := Run(c, wakes, env);
    HandleTimersInv(r, env);
    PrepareInv(r, env);
    I.ToldIff(HandleTimers(r, env).ds);
    WaitStages(HandleTimers(r, env));
    var p := Prepare(r, env);
    if !p.ds.clash {
      WaitWatched(HandleTimers(r, env));
    }
    if T.ActiveTimely(p.tm) {
      SleepExactIff(p);
    }
  }

  lemma WaitStages(t: Ctx)
    requires RoundInv(t)
    ensures var p := t.(ds := D.ActivateAll(t.ds));
      && (forall h: D.Ref :: D.At(p.ds, h, D.Unborn) || D.At(p.ds, h, D.Installed) || D.At(p.ds, h, D.Freed))
      && p.ds.nfds == |p.ds.installed| && p.ds.clash == t.ds.clash
  {
    D.ActivateAllValid(t.ds);
    var ds := D.ActivateAll(t.ds);
    forall h: D.Ref ensures D.At(ds, h, D.Unborn) || D.At(ds, h, D.Installed) || D.At(ds, h, D.Freed) {
      assert D.Placed(ds, h);
    }
  }

  lemma WaitWatched(t: Ctx)
    requires RoundInv(t) && !t.ds.clash
    ensures WellWatched(t.(ds := D.ActivateAll(t.ds)))
  {
    var p := t.(ds := D.ActivateAll(t.ds));
    ActivateInv(t);
    D.ActivateAllValid(t.ds);
    D.ActivateAllExact(t.ds);
    if p.writer.Some? {
      ServerInstalled(p.ds, p.writer.value, p.writeFd);
    }
  }

  // ---- no use after removal ----

  /** Removed, whether or not it has been freed since. */
  predicate Removed(ds: D.Descriptors, h: D.Ref) {
    h in ds.freed || (h in ds.objects && ds.objects[h].deleted)
  }

  lemma RemovedNotInvocable(ds: D.Descriptors, h: D.Ref)
    requires D.Valid(ds) && Removed(ds, h)
    ensures !Invocable(ds, h)
  {
    assert D.Placed(ds, h);
  }

  lemma RemovedActivated(ds: D.Descriptors, h: D.Ref)
    requires D.Valid(ds) && Removed(ds, h)
    ensures Removed(D.ActivateAll(ds), h)
  {
    D.ActivateAllValid(ds);
    D.ActivateAllObjects(ds);
    assert D.Placed(ds, h) && D.Placed(D.ActivateAll(ds), h);
  }

  lemma RemovedPrepared(c: Ctx, env: Env, h: D.Ref)
    requires RoundInv(c) && Removed(c.ds, h)
    ensures Removed(Prepare(c, env).ds, h) && Prepare(c, env).invoked == c.invoked
  {
    HandleTimersInv(c, env);
    RemovedActivated(HandleTimers(c, env).ds, h);
  }

  lemma RemovedResumed(c: Ctx, w: Wake, env: Env, h: D.Ref)
    requires RoundInv(c) && Removed(c.ds, h)
    ensures Removed(Resume(c, w, env).ds, h)
    ensures c.invoked <= Resume(c, w, env).invoked && h !in Resume(c, w, env).invoked[|c.invoked|..]
  {
    match w
    case Ready(fds, cpu, wall) =>
      CheckTimeInv(c, cpu, wall, env);
      var c1 := CheckTime(c, cpu, wall, env);
      RemovedNotInvocable(c1.ds, h);
      DispatchInv(c1, fds, env);
    case Interrupted(cpu, wall) =>
      CallInv(c, env);
      CallKeepsFired(c, Call(c, env));
      CheckTimeInv(Call(c, env), cpu, wall, env);
  }

  lemma RemovedRound(c: Ctx, w: Wake, env: Env, h: D.Ref)
    requires RoundInv(c) && Removed(c.ds, h)
    ensures var q := Resume(Prepare(c, env), w, env);
      RoundInv(q) && Removed(q.ds, h) && c.invoked <= q.invoked && h !in q.invoked[|c.invoked|..]
  {
    PrepareInv(c, env);
    RemovedPrepared(c, env, h);
    ResumeInv(Prepare(c, env), w, env);
    RemovedResumed(Prepare(c, env), w, env, h);
  }

  lemma NotInBetween(a: seq<D.Ref>, b: seq<D.Ref>, c: seq<D.Ref>, h: D.Ref)
    requires a <= b && b <= c && h !in b[|a|..] && h !in c[|b|..]
    ensures a <= c && h !in c[|a|..]
  {
    assert c[|a|..] == b[|a|..] + c[|b|..];
  }

  /** A handler that has been removed, or freed, is never called again, however
      the run goes on. */
  lemma {:induction false} RemovedNeverCalled(c: Ctx, wakes: seq<Wake>, env: Env, h: D.Ref)
    requires RoundInv(c) && Removed(c.ds, h)
    ensures c.invoked <= Run(c, wakes, env).invoked && h !in Run(c, wakes, env).invoked[|c.invoked|..]
    decreases |wakes|
  {
    if wakes != [] {
      var q := Resume(Prepare(c, env), wakes[0], env);
      RemovedRound(c, wakes[0], env, h);
      RemovedNeverCalled(q, wakes[1..], env, h);
      NotInBetween(c.invoked, q.invoked, Run(c, wakes, env).invoked, h);
    }
  }

  // ---- timers against the monotonic clock ----

  /** Nothing that is gone comes back, and a timer that stays keeps its expiry. */
  ghost predicate Later(s: T.Timers, s': T.Timers) {
    && s.next <= s'.next && s.deleted <= s'.deleted && s.dropped <= s'.dropped
    && forall r | r in s.objects && r in s'.objects :: s'.objects[r].t == s.objects[r].t
  }

  ghost predicate Gone(s: T.Timers, s': T.Timers) {
    s.next <= s'.next && s.deleted <= s'.deleted && s.dropped <= s'.dropped
  }

  lemma PendingIffNotGone(s: T.Timers, r: T.Ref)
    requires T.Valid(s)
    ensures r in T.Pending(s) <==> r < s.next && r !in s.deleted && r !in s.dropped
    ensures r in T.Pending(s) ==> r in s.objects
  {
    CountJoin(s.list, T.Refs(s.running), r);
    T.CountIn(T.Pending(s), r);
    T.CountIn(s.deleted, r);
    T.CountIn(s.dropped, r);
  }

  /** What is pending at the end was pending all along. */
  lemma PendingBefore(s: T.Timers, s': T.Timers, r: T.Ref)
    requires T.Valid(s) && T.Valid(s') && Gone(s, s') && r < s.next && r in T.Pending(s')
    ensures r in T.Pending(s)
  {
    PendingIffNotGone(s, r);
    PendingIffNotGone(s', r);
  }

  lemma HandleTimersLater(c: Ctx, env: Env)
    requires RoundInv(c)
    ensures Later(c.tm, HandleTimers(c, env).tm)
  {
    var n := T.UpperBound(c.tm.running, c.wall);
    FireAllInv(c, c.tm.running[..n], env);
    HandleTimersInv(c, env);
  }

  function Remaining(c: Ctx, r: T.Ref): int
    requires r in c.tm.objects
  {
    Nanos(c.tm.objects[r].t) - Nanos(c.wall)
  }

  /** The part of the clocks' disagreement that a step leaves uncorrected. */
  function Uncorrected(c: Ctx, cpu: Reading, wall: Reading): (d: int)
    ensures -SEC_TO_NSEC <= d <= SEC_TO_NSEC
  {
    var diff := Skew(c, cpu, wall);
    if diff > SEC_TO_NSEC || diff < -SEC_TO_NSEC then 0 else diff
  }

  /** One CheckTimeValidity: the time a pending timer has left shrinks by the
      monotonic time elapsed and, when the clocks disagree by at most a second,
      by their disagreement. */
  lemma CheckTimeDrift(c: Ctx, cpu: Reading, wall: Reading, env: Env, r: T.Ref)
    requires RoundInv(c) && r in T.Pending(c.tm)
    ensures var c' := CheckTime(c, cpu, wall, env);
      && r in c.tm.objects && r in c'.tm.objects && Gone(c.tm, c'.tm)
      && Remaining(c', r) == Remaining(c, r) - (Nanos(c'.cpu) - Nanos(c.cpu)) - Uncorrected(c, cpu, wall)
  {
    PendingIffNotGone(c.tm, r);
    var diff := Skew(c, cpu, wall);
    SkewAligned(c, cpu, wall);
    var c1 := c.(cpu := Align(cpu), wall := Align(wall));
    ClocksInv(c, Align(cpu), Align(wall));
    if diff > SEC_TO_NSEC || diff < -SEC_TO_NSEC {
      CompensateInv(c1, diff);
      var c2 := c1.(tm := T.Compensate(c1.tm, diff));
      CallInv(c2, env);
      var (advance, jump) := Jump(diff);
      assert c2.tm.objects[r].t == Shift(c.tm.objects[r].t, advance, jump);
    }
  }

  lemma CheckTimeGone(c: Ctx, cpu: Reading, wall: Reading, env: Env)
    requires RoundInv(c)
    ensures Gone(c.tm, CheckTime(c, cpu, wall, env).tm)
  {
    var diff := Skew(c, cpu, wall);
    SkewAligned(c, cpu, wall);
    var c1 := c.(cpu := Align(cpu), wall := Align(wall));
    ClocksInv(c, Align(cpu), Align(wall));
    if diff > SEC_TO_NSEC || diff < -SEC_TO_NSEC {
      CompensateInv(c1, diff);
      CallInv(c1.(tm := T.Compensate(c1.tm, diff)), env);
    }
  }

  lemma ResumeGone(c: Ctx, w: Wake, env: Env)
    requires RoundInv(c)
    ensures Gone(c.tm, Resume(c, w, env).tm)
  {
    match w
    case Ready(fds, cpu, wall) =>
      CheckTimeInv(c, cpu, wall, env);
      CheckTimeGone(c, cpu, wall, env);
      DispatchInv(CheckTime(c, cpu, wall, env), fds, env);
    case Interrupted(cpu, wall) =>
      CallInv(c, env);
      CallKeepsFired(c, Call(c, env));
      CheckTimeGone(Call(c, env), cpu, wall, env);
  }

  lemma ResumeDrift(c: Ctx, w: Wake, env: Env, r: T.Ref)
    requires RoundInv(c) && r in T.Pending(c.tm) && r in T.Pending(Resume(c, w, env).tm)
    ensures var c' := Resume(c, w, env);
      && r in c.tm.objects && r in c'.tm.objects
      && Remaining(c', r) == Remaining(c, r) - (Nanos(c'.cpu) - Nanos(c.cpu)) - Uncorrected(c, w.cpu, w.wall)
  {
    PendingIffNotGone(c.tm, r);
    match w
    case Ready(fds, cpu, wall) =>
      CheckTimeInv(c, cpu, wall, env);
      CheckTimeDrift(c, cpu, wall, env, r);
      DispatchInv(CheckTime(c, cpu, wall, env), fds, env);
    case Interrupted(cpu, wall) =>
      CallInv(c, env);
      var c1 := Call(c, env);
      CallKeepsFired(c, c1);
      CheckTimeGone(c1, cpu, wall, env);
      CheckTimeInv(c1, cpu, wall, env);
      PendingBefore(c1.tm, CheckTime(c1, cpu, wall, env).tm, r);
      CheckTimeDrift(c1, cpu, wall, env, r);
  }

  /** What a run leaves uncorrected in all. */
  function Deviation(c: Ctx, wakes: seq<Wake>, env: Env): (d: int)
    ensures -|wakes| * SEC_TO_NSEC <= d <= |wakes| * SEC_TO_NSEC
    decreases |wakes|
  {
    if wakes == [] then 0
    else
      var p := Prepare(c, env);
      Uncorrected(p, wakes[0].cpu, wakes[0].wall) + Deviation(Resume(p, wakes[0], env), wakes[1..], env)
  }

  lemma PrepareLater(c: Ctx, env: Env)
    requires RoundInv(c)
    ensures Later(c.tm, Prepare(c, env).tm) && Prepare(c, env).cpu == c.cpu && Prepare(c, env).wall == c.wall
  {
    HandleTimersLater(c, env);
    HandleTimersInv(c, env);
  }

  lemma {:induction false} RunGone(c: Ctx, wakes: seq<Wake>, env: Env)
    requires RoundInv(c)
    ensures Gone(c.tm, Run(c, wakes, env).tm)
    decreases |wakes|
  {
    if wakes != [] {
      var p := Prepare(c, env);
      PrepareInv(c, env);
      PrepareLater(c, env);
      ResumeInv(p, wakes[0], env);
      ResumeGone(p, wakes[0], env);
      RunGone(Resume(p, wakes[0], env), wakes[1..], env);
    }
  }

  /** Clock jumps over a whole run: a timer pending from the beginning to the
      end of n rounds has counted down the monotonic time that passed, up to the
      sum of the uncorrected disagreements, which is at most n seconds. */
  lemma {:induction false} RunDrift(c: Ctx, wakes: seq<Wake>, env: Env, r: T.Ref)
    requires RoundInv(c) && r < c.tm.next && r in T.Pending(Run(c, wakes, env).tm)
    ensures var c' := Run(c, wakes, env);
      && r in T.Pending(c.tm) && r in c.tm.objects && r in c'.tm.objects
      && Remaining(c', r) == Remaining(c, r) - (Nanos(c'.cpu) - Nanos(c.cpu)) - Deviation(c, wakes, env)
      && -|wakes| * SEC_TO_NSEC <= Deviation(c, wakes, env) <= |wakes| * SEC_TO_NSEC
    decreases |wakes|
  {
    RunGone(c, wakes, env);
    RunInv(c, wakes, env);
    PendingBefore(c.tm, Run(c, wakes, env).tm, r);
    PendingIffNotGone(c.tm, r);
    if wakes != [] {
      var p := Prepare(c, env);
      PrepareInv(c, env);
      PrepareLater(c, env);
      var q := Resume(p, wakes[0], env);
      ResumeInv(p, wakes[0], env);
      ResumeGone(p, wakes[0], env);
      RunDrift(q, wakes[1..], env, r);
      PendingBefore(p.tm, q.tm, r);
      PendingIffNotGone(p.tm, r);
      ResumeDrift(p, wakes[0], env, r);
    }
  }

  /** There is nothing more to wait for. */
  ghost predicate Done(c: Ctx) {
    c.quit || (c.ds.installed == [] && forall r | r in T.Pending(c.tm) :: !T.IsActive(c.tm, r))
  }

  lemma DoneIff(p: Ctx)
    requires p.tm.list == [] && p.ds.nfds == |p.ds.installed|
    ensures Ends(p) <==> Done(p)
  {
    assert T.Pending(p.tm) == T.Refs(p.tm.running);
    var n := T.FirstActive(p.tm, 0);
    if n < |p.tm.running| {
      assert T.Refs(p.tm.running)[n] == p.tm.running[n].tmr;
    } else {
      forall r | r in T.Pending(p.tm) ensures !T.IsActive(p.tm, r) {
        var i := T.RefsFind(p.tm.running, r);
      }
    }
  }

  /** The loop stops at one of the epoll_waits that AtEveryWait speaks of. */
  lemma {:induction false} LoopStopsAtAWait(c: Ctx, wakes: seq<Wake>, env: Env) returns (n: nat)
    ensures n <= |wakes| && Loop(c, wakes, env) == Prepare(Run(c, wakes[..n], env), env)
    ensures forall k | 0 <= k < n :: !Ends(Prepare(Run(c, wakes[..k], env), env))
    ensures n < |wakes| ==> Ends(Prepare(Run(c, wakes[..n], env), env))
    decreases |wakes|
  {
    var p := Prepare(c, env);
    assert Run(c, wakes[..0], env) == c;
    if Ends(p) || wakes == [] {
      n := 0;
    } else {
      n := LoopStopsAtAWait(Resume(p, wakes[0], env), wakes[1..], env);
      n := n + 1;
      RunFirst(c, wakes, env, n);
      forall k | 0 <= k < n ensures !Ends(Prepare(Run(c, wakes[..k], env), env)) {
        if k > 0 {
          RunFirst(c, wakes, env, k);
        }
      }
    }
  }

  lemma RunFirst(c: Ctx, wakes: seq<Wake>, env: Env, k: nat)
    requires 0 < k <= |wakes|
    ensures Run(c, wakes[..k], env) == Run(Resume(Prepare(c, env), wakes[0], env), wakes[1..][..k - 1], env)
  {
    assert wakes[..k][0] == wakes[0] && wakes[..k][1..] == wakes[1..][..k - 1];
  }

  /** It goes on as long as a handler is installed or an active timer pending, and
      m_quit is not set; and it stops as soon as that is not so. */
  lemma LoopStopsFirst(c: Ctx, wakes: seq<Wake>, env: Env) returns (n: nat)
    requires RoundInv(c)
    ensures n <= |wakes| && Loop(c, wakes, env) == Prepare(Run(c, wakes[..n], env), env)
    ensures forall k | 0 <= k < n :: !Done(Prepare(Run(c, wakes[..k], env), env))
    ensures n < |wakes| ==> Done(Prepare(Run(c, wakes[..n], env), env))
  {
    n := LoopStopsAtAWait(c, wakes, env);
    forall k | 0 <= k <= |wakes|
      ensures Ends(Prepare(Run(c, wakes[..k], env), env)) <==> Done(Prepare(Run(c, wakes[..k], env), env))
    {
      RunInv(c, wakes[..k], env);
      PrepareInv(Run(c, wakes[..k], env), env);
      DoneIff(Prepare(Run(c, wakes[..k], env), env));
    }
  }
}
