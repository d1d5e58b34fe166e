/** What every run of the main loop keeps, for all callbacks and all wake-ups. */
module MultiplexerProofs {
  import opened Options
  import opened Timespecs
  import opened Multiplexer
  import T = Timers
  import D = Descriptors
  import I = Interests
  import Q = InternalQueues

  // ---- the invariant ----

  ghost predicate Hook(c: Ctx, h: Option<D.Ref>, fd: int, kind: D.Kind) {
    if h.Some? then
      h.value in c.ds.objects && c.ds.objects[h.value].kind == kind && D.Serves(c.ds, h.value, fd)
    else fd <= 0
  }

  ghost predicate Hooks(c: Ctx) {
    && Hook(c, c.reader, c.readFd, D.QueueReader)
    && Hook(c, c.writer, c.writeFd, D.QueueWriter)
    && forall h | h in c.ds.objects && c.ds.objects[h].kind == D.QueueWriter && !c.ds.objects[h].deleted ::
         c.writer == Some(h)
  }

  /** The write handler asks for EPOLLOUT exactly while messages are pending and
      one was accepted after the handler was made. */
  ghost predicate Asks(c: Ctx) {
    c.writer.Some? && c.writer.value in c.ds.objects ==>
      (D.EPOLLOUT <= c.ds.objects[c.writer.value].flags <==> c.mq.pending != [] && |c.mq.accepted| > c.early)
  }

  ghost predicate InvButAsks(c: Ctx) {
    && T.Valid(c.tm) && Kept(c.cpu) && Kept(c.wall)
    && I.Sane(c.ds) && Q.Fifo(c.mq) && c.early <= |c.mq.accepted| && Hooks(c)
  }

  ghost predicate Inv(c: Ctx) {
    InvButAsks(c) && Asks(c)
  }

  // ---- what a callback cannot change ----

  ghost predicate KeepsTimers(s: T.Timers, s': T.Timers) {
    && s'.running == s.running && s'.deleted == s.deleted && s'.dropped == s.dropped
    && s.next <= s'.next && s.list <= s'.list && (s.odd ==> s'.odd)
    && forall r | r in s.objects :: r in s'.objects && s'.objects[r].t == s.objects[r].t
  }

  ghost predicate KeepsDescriptors(s: D.Descriptors, s': D.Descriptors) {
    && s'.installed == s.installed && s'.freed == s.freed && s'.nfds == s.nfds
    && s.next <= s'.next && (s.clash ==> s'.clash)
    && forall h | h in s.objects ::
         h in s'.objects && s'.objects[h].fd == s.objects[h].fd && s'.objects[h].kind == s.objects[h].kind
         && (s.objects[h].deleted ==> s'.objects[h].deleted)
  }

  /** Only the loop makes the queue's handlers; a callback can stop them. */
  ghost predicate KeepsQueue(c: Ctx, c': Ctx) {
    && c'.early == c.early && c.mq.accepted <= c'.mq.accepted && c.mq.written <= c'.mq.written
    && (c'.writer == c.writer || c'.writer.None?) && c.calls <= c'.calls
  }

  ghost predicate Keeps(c: Ctx, c': Ctx) {
    && KeepsTimers(c.tm, c'.tm) && KeepsDescriptors(c.ds, c'.ds) && KeepsQueue(c, c')
    && c'.cpu == c.cpu && c'.wall == c.wall && (c.quit ==> c'.quit)
  }

  // ---- one operation ----

  lemma SetActiveKeeps(s: T.Timers, r: T.Ref, active: bool)
    requires T.Valid(s)
    ensures T.Valid(T.SetActive(s, r, active)) && KeepsTimers(s, T.SetActive(s, r, active))
  {
  }

  lemma RegisterTimerKeeps(s: T.Timers, t: Timespec)
    requires T.Valid(s)
    ensures T.Valid(T.Register(s, t)) && KeepsTimers(s, T.Register(s, t))
  {
    T.RegisterValid(s, t);
  }

  lemma SetFlagsKeeps(s: D.Descriptors, h: D.Ref, flags: D.Flags)
    requires I.Sane(s)
    ensures var s' := D.SetFlags(s, h, flags); I.Sane(s') && KeepsDescriptors(s, s') && s'.clash == s.clash
  {
    D.SetFlagsValid(s, h, flags);
    I.SetFlagsTraced(s, h, flags);
    if !s.clash {
      D.SetFlagsInStep(s, h, flags);
    }
  }

  lemma RemoveKeeps(s: D.Descriptors, h: D.Ref)
    requires I.Sane(s)
    ensures var s' := D.Remove(s, h); I.Sane(s') && KeepsDescriptors(s, s') && s'.clash == s.clash
  {
    D.RemoveValid(s, h);
    I.RemoveTraced(s, h);
    if !s.clash {
      D.RemoveInStep(s, h);
    }
  }

  lemma RegisterKeeps(s: D.Descriptors, flags: D.Flags, fd: int, kind: D.Kind)
    requires I.Sane(s)
    ensures var s' := D.Register(s, flags, fd, kind);
      && I.Sane(s') && KeepsDescriptors(s, s')
      && (s'.objects.Keys == if fd < 0 then s.objects.Keys else s.objects.Keys + {s.next})
      && forall h | h in s.objects :: s'.objects[h] == s.objects[h]
  {
    D.RegisterValid(s, flags, fd, kind);
    I.RegisterTraced(s, flags, fd, kind);
    assert D.Placed(s, s.next);
    if !D.Register(s, flags, fd, kind).clash {
      D.RegisterInStep(s, flags, fd, kind);
    }
  }

  /** The queue's own handlers are left alone. */
  ghost predicate SamePrivate(s: D.Descriptors, s': D.Descriptors) {
    && (forall h | h in s.objects && s.objects[h].kind != D.User :: h in s'.objects && s'.objects[h] == s.objects[h])
    && (forall h | h in s'.objects && s'.objects[h].kind != D.User :: h in s.objects)
  }

  lemma DescriptorsInv(c: Ctx, ds: D.Descriptors)
    requires Inv(c) && I.Sane(ds)
    requires KeepsDescriptors(c.ds, ds) && SamePrivate(c.ds, ds)
    ensures Inv(c.(ds := ds)) && Keeps(c, c.(ds := ds))
  {
  }

  lemma WriterFlagsInv(c: Ctx, q: Q.Queue, flags: D.Flags)
    requires InvButAsks(c) && Q.Fifo(q) && c.writer.Some? && |q.accepted| >= c.early
    requires D.EPOLLOUT <= flags <==> q.pending != [] && |q.accepted| > c.early
    ensures var c' := c.(mq := q, ds := D.SetFlags(c.ds, c.writer.value, flags));
      Inv(c') && KeepsDescriptors(c.ds, c'.ds)
  {
    SetFlagsKeeps(c.ds, c.writer.value, flags);
  }

  lemma EnableWriterInv(c: Ctx, q: Q.Queue)
    requires InvButAsks(c) && Q.Fifo(q) && q.pending != [] && |q.accepted| > c.early
    ensures var c' := EnableWriter(c.(mq := q)); Inv(c') && KeepsDescriptors(c.ds, c'.ds)
  {
    if c.writer.Some? {
      var flags := c.ds.objects[c.writer.value].flags;
      WriterFlagsInv(c, q, flags + D.EPOLLOUT);
    }
  }

  lemma SendInv(c: Ctx, m: Q.Message, memory: bool)
    requires Inv(c)
    ensures Inv(SendMessage(c, m, memory)) && Keeps(c, SendMessage(c, m, memory))
  {
    var (q, ok) := Q.Send(c.mq, m, memory);
    if ok {
      EnableWriterInv(c, q);
    }
  }

  /** Closing a descriptor that no live handler serves. */
  lemma CloseInStep(s: D.Descriptors, fd: int)
    requires D.InStep(s) && forall h :: !D.Serves(s, h, fd)
    ensures D.InStep(s.(kernel := s.kernel - {fd}))
  {
    var s' := s.(kernel := s.kernel - {fd});
    forall i | 0 <= i < |s'.installed| ensures D.LiveInStep(s', s'.installed[i]) {
      assert D.LiveInStep(s, s.installed[i]);
      assert !D.Serves(s, s.installed[i].hdlr, fd);
    }
  }

  lemma CloseKeeps(s: D.Descriptors, fd: int)
    requires I.Sane(s) && (!s.clash ==> forall h :: !D.Serves(s, h, fd))
    ensures I.Sane(s.(kernel := s.kernel - {fd}))
  {
    var s' := s.(kernel := s.kernel - {fd});
    forall h: D.Ref ensures D.Placed(s', h) {
      assert D.Placed(s, h);
    }
    I.CloseTraced(s, fd);
    if !s.clash {
      CloseInStep(s, fd);
    }
  }

  /** Two live handlers never serve one descriptor. */
  lemma OneServer(s: D.Descriptors, h: D.Ref, q: D.Ref, fd: int)
    requires D.Valid(s) && D.InStep(s) && D.Serves(s, h, fd) && D.Serves(s, q, fd)
    ensures h == q
  {
    if h != q {
      assert D.Placed(s, h) && D.Placed(s, q);
      D.CountFound(s.installed, h);
      D.CountFound(s.installed, q);
      if h !in s.list {
        D.OtherDescriptor(s, q, D.Find(s.installed, h));
      } else if q !in s.list {
        D.OtherDescriptor(s, h, D.Find(s.installed, q));
      }
    }
  }

  /** Registering for a descriptor is a clash exactly while a live handler serves
      it: not any more once that one is removed, even in the same round. */
  lemma ClashIff(s: D.Descriptors, h: D.Ref, flags: D.Flags, fd: int)
    requires D.Valid(s) && D.InStep(s) && !s.clash && fd >= 0
    ensures D.Register(s, flags, fd, D.User).clash <==> exists q :: D.Serves(s, q, fd)
    ensures D.Serves(s, h, fd) ==> !D.Register(D.Remove(s, h), flags, fd, D.User).clash
  {
    if D.Serves(s, h, fd) {
      forall q ensures !D.Serves(D.Remove(s, h), q, fd) {
        if D.Serves(s, q, fd) {
          OneServer(s, h, q, fd);
        }
      }
    }
  }

  lemma UnhookKeeps(s: D.Descriptors, h: Option<D.Ref>, fd: int)
    requires I.Sane(s)
    requires if h.Some? then D.Serves(s, h.value, fd) else fd <= 0
    ensures var s' := Unhook(s, h, fd);
      I.Sane(s') && KeepsDescriptors(s, s') && s'.clash == s.clash
    ensures forall q :: q in Unhook(s, h, fd).objects <==> q in s.objects
    ensures forall q | q in s.objects && h != Some(q) :: Unhook(s, h, fd).objects[q] == s.objects[q]
    ensures h.Some? ==> Unhook(s, h, fd).objects[h.value].deleted
  {
    if h.Some? {
      RemoveKeeps(s, h.value);
      var s' := D.Remove(s, h.value);
      if fd > 0 {
        forall q ensures !s.clash ==> !D.Serves(s', q, fd) {
          if !s.clash && D.Serves(s', q, fd) {
            OneServer(s, h.value, q, fd);
          }
        }
        CloseKeeps(s', fd);
      }
    }
  }

  lemma StopInv(c: Ctx)
    requires Inv(c)
    ensures Inv(StopQueue(c)) && Keeps(c, StopQueue(c))
  {
    var ds := Unhook(c.ds, c.reader, c.readFd);
    UnhookKeeps(c.ds, c.reader, c.readFd);
    UnhookKeeps(ds, c.writer, c.writeFd);
  }

  lemma TimerOpInv(c: Ctx, tm: T.Timers)
    requires Inv(c) && T.Valid(tm) && KeepsTimers(c.tm, tm)
    ensures Inv(c.(tm := tm)) && Keeps(c, c.(tm := tm))
  {
  }

  lemma RegisterDescriptorInv(c: Ctx, flags: D.Flags, fd: int)
    requires Inv(c)
    ensures var c' := c.(ds := D.Register(c.ds, flags, fd, D.User)); Inv(c') && Keeps(c, c')
  {
    RegisterKeeps(c.ds, flags, fd, D.User);
    DescriptorsInv(c, D.Register(c.ds, flags, fd, D.User));
  }

  lemma SetUserFlagsInv(c: Ctx, h: D.Ref, flags: D.Flags)
    requires Inv(c) && Reachable(c, h)
    ensures var c' := c.(ds := D.SetFlags(c.ds, h, flags)); Inv(c') && Keeps(c, c')
  {
    SetFlagsKeeps(c.ds, h, flags);
    DescriptorsInv(c, D.SetFlags(c.ds, h, flags));
  }

  lemma RemoveUserInv(c: Ctx, h: D.Ref)
    requires Inv(c) && Reachable(c, h)
    ensures var c' := c.(ds := D.Remove(c.ds, h)); Inv(c') && Keeps(c, c')
  {
    RemoveKeeps(c.ds, h);
    DescriptorsInv(c, D.Remove(c.ds, h));
  }

  lemma QuitInv(c: Ctx)
    requires Inv(c)
    ensures Inv(c.(quit := true)) && Keeps(c, c.(quit := true))
  {
  }

  lemma ApplyTimerInv(c: Ctx, op: Op)
    requires Inv(c) && (op.RegisterTimer? || op.EnableTimer? || op.DisableTimer?)
    ensures Inv(Apply(c, op)) && Keeps(c, Apply(c, op))
  {
    match op
    case RegisterTimer(t) =>
      RegisterTimerKeeps(c.tm, t);
      TimerOpInv(c, T.Register(c.tm, t));
    case EnableTimer(r) =>
      SetActiveKeeps(c.tm, r, true);
      TimerOpInv(c, T.SetActive(c.tm, r, true));
    case DisableTimer(r) =>
      SetActiveKeeps(c.tm, r, false);
      TimerOpInv(c, T.SetActive(c.tm, r, false));
  }

  lemma EnableUserInv(c: Ctx, h: D.Ref, flags: D.Flags)
    requires Inv(c)
    ensures var c' := Apply(c, EnableDescriptor(h, flags)); Inv(c') && Keeps(c, c')
  {
    if Reachable(c, h) {
      SetUserFlagsInv(c, h, c.ds.objects[h].flags + flags);
      assert Apply(c, EnableDescriptor(h, flags)) == c.(ds := D.SetFlags(c.ds, h, c.ds.objects[h].flags + flags));
    }
  }

  lemma DisableUserInv(c: Ctx, h: D.Ref, flags: D.Flags)
    requires Inv(c)
    ensures var c' := Apply(c, DisableDescriptor(h, flags)); Inv(c') && Keeps(c, c')
  {
    if Reachable(c, h) {
      SetUserFlagsInv(c, h, c.ds.objects[h].flags - flags);
      assert Apply(c, DisableDescriptor(h, flags)) == c.(ds := D.SetFlags(c.ds, h, c.ds.objects[h].flags - flags));
    }
  }

  lemma RemoveHandlerInv(c: Ctx, h: D.Ref)
    requires Inv(c)
    ensures var c' := Apply(c, RemoveDescriptor(h)); Inv(c') && Keeps(c, c')
  {
    if Reachable(c, h) {
      RemoveUserInv(c, h);
      assert Apply(c, RemoveDescriptor(h)) == c.(ds := D.Remove(c.ds, h));
    }
  }

  /** Every public operation keeps the invariant, and none touches the running
      timers, the installed handlers or the history of the round. */
  lemma ApplyInv(c: Ctx, op: Op)
    requires Inv(c)
    ensures Inv(Apply(c, op)) && Keeps(c, Apply(c, op))
  {
    if op.RegisterTimer? || op.EnableTimer? || op.DisableTimer? {
      ApplyTimerInv(c, op);
    } else if op.EnableDescriptor? {
      EnableUserInv(c, op.handler, op.flags);
    } else if op.DisableDescriptor? {
      DisableUserInv(c, op.handler, op.flags);
    } else if op.RemoveDescriptor? {
      RemoveHandlerInv(c, op.handler);
    } else if op.RegisterDescriptor? {
      RegisterDescriptorInv(c, op.flags, op.fd);
    } else if op.MQSend? {
      SendInv(c, op.m, op.memory);
    } else if op.StopMQ? {
      StopInv(c);
    } else {
      QuitInv(c);
    }
  }

  lemma ApplyHistory(c: Ctx, op: Op)
    ensures Apply(c, op).fired == c.fired && Apply(c, op).invoked == c.invoked
  {
  }

  lemma KeepsTransitive(a: Ctx, b: Ctx, c: Ctx)
    requires Keeps(a, b) && Keeps(b, c)
    ensures Keeps(a, c)
  {
  }

  lemma {:induction false} ApplyAllInv(c: Ctx, ops: seq<Op>)
    requires Inv(c)
    ensures var c' := ApplyAll(c, ops); Inv(c') && Keeps(c, c') && c'.fired == c.fired && c'.invoked == c.invoked
    decreases |ops|
  {
    if ops != [] {
      ApplyInv(c, ops[0]);
      ApplyHistory(c, ops[0]);
      ApplyAllInv(Apply(c, ops[0]), ops[1..]);
      KeepsTransitive(c, Apply(c, ops[0]), ApplyAll(c, ops));
    }
  }

  lemma CallInv(c: Ctx, env: Env)
    requires Inv(c)
    ensures var c' := Call(c, env); Inv(c') && Keeps(c, c') && c'.fired == c.fired && c'.invoked == c.invoked
  {
    var c1 := c.(calls := c.calls + 1);
    ApplyAllInv(c1, env.script(c.calls));
    KeepsTransitive(c, c1, Call(c, env));
  }

  // ---- timers ----

  /** The callbacks run are a selection from the due entries, in their order. */
  ghost predicate Picks(fired: seq<Firing>, due: seq<T.Entry>, now: Timespec) {
    if due == [] then fired == []
    else
      || (fired != [] && fired[0] == Firing(due[0].tmr, due[0].key, now) && Picks(fired[1..], due[1..], now))
      || Picks(fired, due[1..], now)
  }

  lemma {:induction false} PickAt(fired: seq<Firing>, due: seq<T.Entry>, now: Timespec, i: nat) returns (k: nat)
    requires Picks(fired, due, now) && i < |fired|
    ensures k < |due| && fired[i] == Firing(due[k].tmr, due[k].key, now)
    decreases |due|
  {
    if fired[0] == Firing(due[0].tmr, due[0].key, now) && Picks(fired[1..], due[1..], now) {
      if i == 0 {
        return 0;
      }
      k := PickAt(fired[1..], due[1..], now, i - 1);
    } else {
      k := PickAt(fired, due[1..], now, i);
    }
    k := k + 1;
  }

  lemma {:induction false} PickOrder(fired: seq<Firing>, due: seq<T.Entry>, now: Timespec, i: nat, j: nat)
      returns (k: nat, l: nat)
    requires Picks(fired, due, now) && i < j < |fired|
    ensures k < l < |due|
    ensures fired[i] == Firing(due[k].tmr, due[k].key, now) && fired[j] == Firing(due[l].tmr, due[l].key, now)
    decreases |due|
  {
    if fired[0] == Firing(due[0].tmr, due[0].key, now) && Picks(fired[1..], due[1..], now) {
      if i == 0 {
        l := PickAt(fired[1..], due[1..], now, j - 1);
        return 0, l + 1;
      }
      k, l := PickOrder(fired[1..], due[1..], now, i - 1, j - 1);
    } else {
      k, l := PickOrder(fired, due[1..], now, i, j);
    }
    k, l := k + 1, l + 1;
  }

  lemma FireInv(c: Ctx, e: T.Entry, env: Env)
    requires Inv(c)
    ensures var c' := Fire(c, e, env);
      && Inv(c') && Keeps(c, c') && c'.invoked == c.invoked
      && c'.fired == if T.IsActive(c.tm, e.tmr) then c.fired + [Firing(e.tmr, e.key, c.wall)] else c.fired
  {
    if T.IsActive(c.tm, e.tmr) {
      SetActiveKeeps(c.tm, e.tmr, false);
      TimerOpInv(c, T.SetActive(c.tm, e.tmr, false));
      var c1 := c.(tm := T.SetActive(c.tm, e.tmr, false), fired := c.fired + [Firing(e.tmr, e.key, c.wall)]);
      CallInv(c1, env);
      KeepsTransitive(c, c1, Call(c1, env));
    }
  }

  lemma {:induction false} FireAllInv(c: Ctx, due: seq<T.Entry>, env: Env)
    requires Inv(c)
    ensures var c' := FireAll(c, due, env);
      && Inv(c') && Keeps(c, c') && c'.invoked == c.invoked
      && c.fired <= c'.fired && Picks(c'.fired[|c.fired|..], due, c.wall)
    decreases |due|
  {
    if due != [] {
      var c1 := Fire(c, due[0], env);
      FireInv(c, due[0], env);
      FireAllInv(c1, due[1..], env);
      var c' := FireAll(c1, due[1..], env);
      KeepsTransitive(c, c1, c');
      if T.IsActive(c.tm, due[0].tmr) {
        assert c'.fired[|c.fired|..][1..] == c'.fired[|c1.fired|..];
      }
    }
  }

  /** Every timer callback ever run belongs to a timer that is deleted by now,
      ran no earlier than its expiry, and ran once. */
  ghost predicate FiredOnce(c: Ctx) {
    && (forall i | 0 <= i < |c.fired| :: c.fired[i].tmr in c.tm.deleted && !Before(c.fired[i].now, c.fired[i].key))
    && forall i, j | 0 <= i < j < |c.fired| :: c.fired[i].tmr != c.fired[j].tmr
  }

  ghost predicate RoundInv(c: Ctx) {
    Inv(c) && FiredOnce(c)
  }

  lemma RunningDistinct(tm: T.Timers, i: nat, j: nat)
    requires T.Valid(tm) && i < j < |tm.running|
    ensures tm.running[i].tmr != tm.running[j].tmr
  {
    T.PendingDistinct(tm);
    assert T.Pending(tm)[|tm.list| + i] == tm.running[i].tmr;
    assert T.Pending(tm)[|tm.list| + j] == tm.running[j].tmr;
  }

  lemma RunningNotDeleted(tm: T.Timers, i: nat)
    requires T.Valid(tm) && i < |tm.running|
    ensures tm.running[i].tmr !in tm.deleted
  {
  }

  lemma {:induction false} FiredWasDue(c: Ctx, n: nat, fired: seq<Firing>, i: nat)
    requires Inv(c) && n == T.UpperBound(c.tm.running, c.wall)
    requires Picks(fired, c.tm.running[..n], c.wall) && i < |fired|
    ensures fired[i].tmr in T.Refs(c.tm.running[..n]) && fired[i].tmr !in c.tm.deleted
    ensures !Before(fired[i].now, fired[i].key)
  {
    var k := PickAt(fired, c.tm.running[..n], c.wall, i);
    RunningNotDeleted(c.tm, k);
    assert T.Refs(c.tm.running[..n])[k] == fired[i].tmr;
  }

  lemma {:induction false} FiredApart(c: Ctx, n: nat, fired: seq<Firing>, i: nat, j: nat)
    requires Inv(c) && n == T.UpperBound(c.tm.running, c.wall)
    requires Picks(fired, c.tm.running[..n], c.wall) && i < j < |fired|
    ensures fired[i].tmr != fired[j].tmr
  {
    var k, l := PickOrder(fired, c.tm.running[..n], c.wall, i, j);
    RunningDistinct(c.tm, k, l);
  }

  lemma {:induction false} FiredOnceStep(c: Ctx, n: nat, fired: seq<Firing>)
    requires Inv(c) && n == T.UpperBound(c.tm.running, c.wall)
    requires Picks(fired, c.tm.running[..n], c.wall)
    ensures forall i | 0 <= i < |fired| ::
              fired[i].tmr in T.Refs(c.tm.running[..n]) && fired[i].tmr !in c.tm.deleted
              && !Before(fired[i].now, fired[i].key)
    ensures forall i, j | 0 <= i < j < |fired| :: fired[i].tmr != fired[j].tmr
  {
    forall i | 0 <= i < |fired|
      ensures fired[i].tmr in T.Refs(c.tm.running[..n]) && fired[i].tmr !in c.tm.deleted
      ensures !Before(fired[i].now, fired[i].key)
    {
      FiredWasDue(c, n, fired, i);
    }
    forall i, j | 0 <= i < j < |fired| ensures fired[i].tmr != fired[j].tmr {
      FiredApart(c, n, fired, i, j);
    }
  }

  /** HandleTimers: the callbacks run are a selection from the entries due at
      entry, in order of expiry; exactly the due timers are deleted, whatever
      the callbacks did; and nothing in the whole history fired twice or early. */
  lemma HandleTimersInv(c: Ctx, env: Env)
    requires RoundInv(c)
    ensures var c' := HandleTimers(c, env);
      var due := c.tm.running[..T.UpperBound(c.tm.running, c.wall)];
      && RoundInv(c') && KeepsDescriptors(c.ds, c'.ds) && KeepsQueue(c, c') && c'.invoked == c.invoked
      && c'.cpu == c.cpu && c'.wall == c.wall
      && c'.tm.list == [] && c.fired <= c'.fired
      && Picks(c'.fired[|c.fired|..], due, c.wall)
      && c'.tm.deleted == c.tm.deleted + T.Refs(due)
  {
    var n := T.UpperBound(c.tm.running, c.wall);
    var due := c.tm.running[..n];
    var c1 := FireAll(c, due, env);
    FireAllInv(c, due, env);
    T.DeleteDueValid(c1.tm, n);
    T.MoveAllValid(T.DeleteDue(c1.tm, n));
    var c' := HandleTimers(c, env);
    FiredOnceStep(c, n, c'.fired[|c.fired|..]);
    FiredOnceJoin(c, c');
  }

  lemma FiredOnceJoin(c: Ctx, c': Ctx)
    requires FiredOnce(c) && c.fired <= c'.fired && c.tm.deleted <= c'.tm.deleted
    requires var fired := c'.fired[|c.fired|..];
      && (forall i | 0 <= i < |fired| :: fired[i].tmr in c'.tm.deleted && !Before(fired[i].now, fired[i].key))
      && (forall i | 0 <= i < |fired| :: fired[i].tmr !in c.tm.deleted)
      && forall i, j | 0 <= i < j < |fired| :: fired[i].tmr != fired[j].tmr
    ensures FiredOnce(c')
  {
    var m, fired := |c.fired|, c'.fired[|c.fired|..];
    assert forall i | m <= i < |c'.fired| :: c'.fired[i] == fired[i - m];
    assert forall i | 0 <= i < m :: c'.fired[i] == c.fired[i];
  }

  // ---- which of the due timers fire ----

  ghost predicate HasFired(fired: seq<Firing>, r: T.Ref) {
    exists i :: 0 <= i < |fired| && fired[i].tmr == r
  }

  lemma FireAllPicksOnly(c: Ctx, due: seq<T.Entry>, env: Env, r: T.Ref)
    requires Inv(c) && forall k | 0 <= k < |due| :: due[k].tmr != r
    ensures c.fired <= FireAll(c, due, env).fired
    ensures !HasFired(FireAll(c, due, env).fired[|c.fired|..], r)
  {
    FireAllInv(c, due, env);
    var fired := FireAll(c, due, env).fired[|c.fired|..];
    if HasFired(fired, r) {
      var i :| 0 <= i < |fired| && fired[i].tmr == r;
      var k := PickAt(fired, due, c.wall, i);
    }
  }

  lemma {:induction false} FireAllSplit(c: Ctx, a: seq<T.Entry>, b: seq<T.Entry>, env: Env)
    ensures FireAll(c, a + b, env) == FireAll(FireAll(c, a, env), b, env)
    decreases |a|
  {
    if a == [] {
      assert a + b == b;
    } else {
      assert (a + b)[0] == a[0] && (a + b)[1..] == a[1..] + b;
      FireAllSplit(Fire(c, a[0], env), a[1..], b, env);
    }
  }

  lemma HasFiredJoin(a: seq<Firing>, b: seq<Firing>, r: T.Ref)
    ensures HasFired(a + b, r) <==> HasFired(a, r) || HasFired(b, r)
  {
    if i :| 0 <= i < |a| && a[i].tmr == r {
      assert (a + b)[i].tmr == r;
    }
    if i :| 0 <= i < |b| && b[i].tmr == r {
      assert (a + b)[|a| + i].tmr == r;
    }
  }

  /** Between two states: what fired in between, in two parts. */
  lemma FiredParts(a: Ctx, b: Ctx, c: Ctx, r: T.Ref)
    requires a.fired <= b.fired && b.fired <= c.fired
    ensures a.fired <= c.fired
    ensures HasFired(c.fired[|a.fired|..], r)
            <==> HasFired(b.fired[|a.fired|..], r) || HasFired(c.fired[|b.fired|..], r)
  {
    assert c.fired[|a.fired|..] == b.fired[|a.fired|..] + c.fired[|b.fired|..];
    HasFiredJoin(b.fired[|a.fired|..], c.fired[|b.fired|..], r);
  }

  lemma FireFires(c: Ctx, e: T.Entry, env: Env)
    requires Inv(c)
    ensures c.fired <= Fire(c, e, env).fired
    ensures HasFired(Fire(c, e, env).fired[|c.fired|..], e.tmr) <==> T.IsActive(c.tm, e.tmr)
  {
    FireInv(c, e, env);
    if T.IsActive(c.tm, e.tmr) {
      assert Fire(c, e, env).fired[|c.fired|..][0].tmr == e.tmr;
    }
  }

  lemma FireAllFires(c: Ctx, before: seq<T.Entry>, e: T.Entry, after: seq<T.Entry>, env: Env)
    requires Inv(c)
    requires (forall i | 0 <= i < |before| :: before[i].tmr != e.tmr) && forall i | 0 <= i < |after| :: after[i].tmr != e.tmr
    ensures c.fired <= FireAll(c, before + ([e] + after), env).fired
    ensures HasFired(FireAll(c, before + ([e] + after), env).fired[|c.fired|..], e.tmr)
            <==> T.IsActive(FireAll(c, before, env).tm, e.tmr)
  {
    FireAllSplit(c, before, [e] + after, env);
    var reached := FireAll(c, before, env);
    var passed := Fire(reached, e, env);
    assert ([e] + after)[1..] == after;
    var end := FireAll(passed, after, env);
    FireAllInv(c, before, env);
    FireInv(reached, e, env);
    FireAllPicksOnly(c, before, env, e.tmr);
    FireFires(reached, e, env);
    FireAllPicksOnly(passed, after, env, e.tmr);
    FiredParts(reached, passed, end, e.tmr);
    FiredParts(c, reached, end, e.tmr);
  }

  /** For any callbacks: a due timer fires in this HandleTimers if and only if it
      is active when it is reached, after the callbacks of those before it. */
  lemma DueFiresIffActive(c: Ctx, env: Env, k: nat)
    requires RoundInv(c) && k < T.UpperBound(c.tm.running, c.wall)
    ensures c.fired <= HandleTimers(c, env).fired
    ensures HasFired(HandleTimers(c, env).fired[|c.fired|..], c.tm.running[k].tmr)
            <==> T.IsActive(FireAll(c, c.tm.running[..k], env).tm, c.tm.running[k].tmr)
  {
    var n := T.UpperBound(c.tm.running, c.wall);
    var before, e, after := c.tm.running[..k], c.tm.running[k], c.tm.running[k + 1..n];
    assert c.tm.running[..n] == before + ([e] + after);
    forall i | 0 <= i < |before| ensures before[i].tmr != e.tmr {
      RunningDistinct(c.tm, i, k);
    }
    forall i | 0 <= i < |after| ensures after[i].tmr != e.tmr {
      RunningDistinct(c.tm, k, k + 1 + i);
    }
    FireAllFires(c, before, e, after, env);
    HandleTimersInv(c, env);
  }

  lemma {:induction false} PickedInOrder(c: Ctx, n: nat, fired: seq<Firing>, i: nat, j: nat)
    requires Inv(c) && n <= |c.tm.running| && Picks(fired, c.tm.running[..n], c.wall) && i < j < |fired|
    ensures !Before(fired[j].key, fired[i].key)
  {
    var k, l := PickOrder(fired, c.tm.running[..n], c.wall, i, j);
    assert !Before(c.tm.running[l].key, c.tm.running[k].key);
  }

  /** The callback belongs to a timer known before, whose expiry has come: by the
      order of the set always, and in real time if the expiry is one that can be
      in time. */
  ghost predicate OnTime(c: Ctx, f: Firing) {
    && f.now == c.wall && f.tmr in c.tm.objects && f.key == c.tm.objects[f.tmr].t
    && !Before(c.wall, f.key) && (Timely(f.key) ==> Nanos(f.key) <= Nanos(c.wall))
  }

  lemma {:induction false} PickedOnTime(c: Ctx, fired: seq<Firing>, i: nat)
    requires Inv(c) && Picks(fired, c.tm.running[..T.UpperBound(c.tm.running, c.wall)], c.wall) && i < |fired|
    ensures OnTime(c, fired[i])
  {
    var k := PickAt(fired, c.tm.running[..T.UpperBound(c.tm.running, c.wall)], c.wall, i);
    OrderIsTime(fired[i].key);
  }

  /** The callbacks of one HandleTimers run in nondecreasing order of expiry, and
      none before its time. */
  lemma FiredInOrder(c: Ctx, env: Env)
    requires RoundInv(c)
    ensures c.fired <= HandleTimers(c, env).fired
    ensures var fired := HandleTimers(c, env).fired[|c.fired|..];
      && (forall i, j | 0 <= i < j < |fired| :: !Before(fired[j].key, fired[i].key))
      && forall i | 0 <= i < |fired| :: OnTime(c, fired[i])
  {
    HandleTimersInv(c, env);
    var fired := HandleTimers(c, env).fired[|c.fired|..];
    forall i, j | 0 <= i < j < |fired| ensures !Before(fired[j].key, fired[i].key) {
      PickedInOrder(c, T.UpperBound(c.tm.running, c.wall), fired, i, j);
    }
    forall i | 0 <= i < |fired| ensures OnTime(c, fired[i]) {
      PickedOnTime(c, fired, i);
    }
  }

  // ---- descriptors ----

  /** The handlers a batch may invoke: installed when it began, and not removed. */
  ghost predicate Invocable(ds: D.Descriptors, h: D.Ref) {
    h in D.Handlers(ds.installed) && h in ds.objects && !ds.objects[h].deleted
  }

  /** The callbacks run between two states. */
  ghost predicate InvokesOnly(c: Ctx, c': Ctx) {
    && c.invoked <= c'.invoked
    && forall i | |c.invoked| <= i < |c'.invoked| :: Invocable(c.ds, c'.invoked[i])
  }

  lemma QueueInv(c: Ctx, q: Q.Queue)
    requires Inv(c) && Q.Fifo(q) && q.accepted == c.mq.accepted && (q.pending == [] <==> c.mq.pending == [])
    ensures Inv(c.(mq := q))
  {
  }

  lemma DrainedInv(c: Ctx, h: D.Ref, q: Q.Queue)
    requires Inv(c) && c.writer == Some(h) && Q.Fifo(q) && q.accepted == c.mq.accepted && q.pending == []
    ensures var c' := c.(mq := q, ds := D.Disable(c.ds, h, D.EPOLLOUT)); Inv(c') && KeepsDescriptors(c.ds, c'.ds)
  {
    WriterFlagsInv(c, q, c.ds.objects[h].flags - D.EPOLLOUT);
  }

  lemma WriteQueueInv(c: Ctx, h: D.Ref, room: nat)
    requires Inv(c) && c.writer == Some(h)
    ensures Inv(WriteQueue(c, h, room)) && KeepsDescriptors(c.ds, WriteQueue(c, h, room).ds)
  {
    var q := Q.Drain(c.mq, room);
    if q.pending == [] {
      DrainedInv(c, h, q);
      assert WriteQueue(c, h, room) == c.(mq := q, ds := D.Disable(c.ds, h, D.EPOLLOUT));
    } else {
      QueueInv(c, q);
      assert WriteQueue(c, h, room) == c.(mq := q);
    }
  }

  lemma WriteQueueKeeps(c: Ctx, h: D.Ref, room: nat)
    requires KeepsDescriptors(c.ds, WriteQueue(c, h, room).ds)
    ensures var c' := WriteQueue(c, h, room); Keeps(c, c') && c'.fired == c.fired && c'.invoked == c.invoked
  {
  }

  lemma HistoryInv(c: Ctx, invoked: seq<D.Ref>, calls: nat)
    requires Inv(c) && c.calls <= calls
    ensures var c' := c.(invoked := invoked, calls := calls); Inv(c') && Keeps(c, c') && c'.writer == c.writer
  {
  }

  lemma InvokeWriterInv(c: Ctx, h: D.Ref, env: Env)
    requires Inv(c) && h in c.ds.objects && !c.ds.objects[h].deleted && c.ds.objects[h].kind == D.QueueWriter
    ensures Inv(Invoke(c, h, env)) && Keeps(c, Invoke(c, h, env))
    ensures Invoke(c, h, env).fired == c.fired && Invoke(c, h, env).invoked == c.invoked + [h]
  {
    var c1 := c.(invoked := c.invoked + [h], calls := c.calls + 1);
    var c' := WriteQueue(c1, h, env.pipe(c.calls));
    assert c.writer == Some(h);
    assert Invoke(c, h, env) == c';
    HistoryInv(c, c.invoked + [h], c.calls + 1);
    WriteQueueInv(c1, h, env.pipe(c.calls));
    WriteQueueKeeps(c1, h, env.pipe(c.calls));
    KeepsTransitive(c, c1, c');
  }

  lemma InvokeCallInv(c: Ctx, h: D.Ref, env: Env)
    requires Inv(c) && h in c.ds.objects && !c.ds.objects[h].deleted && c.ds.objects[h].kind != D.QueueWriter
    ensures var c' := Invoke(c, h, env); Inv(c') && Keeps(c, c') && c'.fired == c.fired && c'.invoked == c.invoked + [h]
  {
    var c1 := c.(invoked := c.invoked + [h]);
    CallInv(c1, env);
    KeepsTransitive(c, c1, Call(c1, env));
  }

  lemma InvokeInv(c: Ctx, h: D.Ref, env: Env)
    requires Inv(c)
    ensures var c' := Invoke(c, h, env);
      && Inv(c') && Keeps(c, c') && c'.fired == c.fired
      && c'.invoked == if h in c.ds.objects && !c.ds.objects[h].deleted then c.invoked + [h] else c.invoked
  {
    if h in c.ds.objects && !c.ds.objects[h].deleted {
      if c.ds.objects[h].kind == D.QueueWriter {
        InvokeWriterInv(c, h, env);
      } else {
        InvokeCallInv(c, h, env);
      }
    } else {
      assert Invoke(c, h, env) == c;
    }
  }

  lemma InvokesMore(a: Ctx, b: Ctx, c: Ctx)
    requires D.Valid(a.ds) && Keeps(a, b) && InvokesOnly(a, b) && InvokesOnly(b, c)
    ensures InvokesOnly(a, c)
  {
  }

  lemma {:induction false} InvokeAllInv(c: Ctx, hs: seq<D.Ref>, env: Env)
    requires Inv(c) && forall h | h in hs :: h in D.Handlers(c.ds.installed)
    ensures var c' := InvokeAll(c, hs, env);
      Inv(c') && Keeps(c, c') && c'.fired == c.fired && InvokesOnly(c, c')
    decreases |hs|
  {
    if hs != [] {
      var c1 := Invoke(c, hs[0], env);
      assert hs[0] in hs;
      InvokeInv(c, hs[0], env);
      InvokeAllInv(c1, hs[1..], env);
      KeepsTransitive(c, c1, InvokeAll(c, hs, env));
      InvokesMore(c, c1, InvokeAll(c, hs, env));
    }
  }

  /** HandleDescriptors, for any callbacks: m_cbset stays as it is, and only
      handlers are called that were installed and not removed at the beginning.
      As every suffix of a batch is a batch, a handler removed within it is not
      called any more, and one registered within it is not called at all. */
  lemma {:induction false} DispatchInv(c: Ctx, fds: seq<int>, env: Env)
    requires Inv(c)
    ensures var c' := Dispatch(c, fds, env);
      Inv(c') && Keeps(c, c') && c'.fired == c.fired && InvokesOnly(c, c')
    decreases |fds|
  {
    if fds != [] {
      var hs := EqualRange(c.ds.installed, fds[0]);
      var c1 := InvokeAll(c, hs, env);
      InvokeAllInv(c, hs, env);
      DispatchInv(c1, fds[1..], env);
      KeepsTransitive(c, c1, Dispatch(c, fds, env));
      InvokesMore(c, c1, Dispatch(c, fds, env));
    }
  }

  lemma {:induction false} DispatchSplit(c: Ctx, before: seq<int>, after: seq<int>, env: Env)
    ensures Dispatch(c, before + after, env) == Dispatch(Dispatch(c, before, env), after, env)
    decreases |before|
  {
    if before == [] {
      assert before + after == after;
    } else {
      assert (before + after)[0] == before[0] && (before + after)[1..] == before[1..] + after;
      DispatchSplit(InvokeAll(c, EqualRange(c.ds.installed, before[0]), env), before[1..], after, env);
    }
  }

  /** A handler that has been removed, or not been installed, by the middle of a
      batch is not called in the rest of it. */
  lemma RemovedNeverInvoked(c: Ctx, before: seq<int>, after: seq<int>, env: Env, h: D.Ref)
    requires Inv(c) && !Invocable(Dispatch(c, before, env).ds, h)
    ensures var middle, end := Dispatch(c, before, env), Dispatch(c, before + after, env);
      middle.invoked <= end.invoked && h !in end.invoked[|middle.invoked|..]
  {
    DispatchInv(c, before, env);
    var middle := Dispatch(c, before, env);
    DispatchInv(middle, after, env);
    DispatchSplit(c, before, after, env);
    var end := Dispatch(c, before + after, env);
    var rest := end.invoked[|middle.invoked|..];
    forall i | 0 <= i < |rest| ensures rest[i] != h {
      assert Invocable(middle.ds, end.invoked[|middle.invoked| + i]);
    }
  }

  // ---- clocks ----

  lemma WholeMillis(t: Timespec)
    requires Kept(t)
    ensures Nanos(t) == (t.sec * 1000 + t.nsec / MSEC_TO_NSEC) * MSEC_TO_NSEC
  {
  }

  lemma SkewAligned(c: Ctx, cpu: Reading, wall: Reading)
    requires Kept(c.cpu) && Kept(c.wall)
    ensures Skew(c, cpu, wall) % MSEC_TO_NSEC == 0
  {
    var cpuStop, wallStop := Align(cpu), Align(wall);
    WholeMillis(c.cpu);
    WholeMillis(c.wall);
    WholeMillis(cpuStop);
    WholeMillis(wallStop);
    Multiple(wallStop.sec * 1000 + wallStop.nsec / MSEC_TO_NSEC - (c.wall.sec * 1000 + c.wall.nsec / MSEC_TO_NSEC)
             - (cpuStop.sec * 1000 + cpuStop.nsec / MSEC_TO_NSEC) + (c.cpu.sec * 1000 + c.cpu.nsec / MSEC_TO_NSEC));
  }

  lemma Multiple(k: int)
    ensures (k * MSEC_TO_NSEC) % MSEC_TO_NSEC == 0
  {
  }

  lemma CompensateInv(c: Ctx, diff: int)
    requires RoundInv(c) && diff % MSEC_TO_NSEC == 0
    ensures RoundInv(c.(tm := T.Compensate(c.tm, diff)))
  {
  }

  lemma CheckTimeInv(c: Ctx, cpu: Reading, wall: Reading, env: Env)
    requires RoundInv(c)
    ensures var c' := CheckTime(c, cpu, wall, env);
      && RoundInv(c') && KeepsDescriptors(c.ds, c'.ds) && KeepsQueue(c, c')
      && c'.fired == c.fired && c'.invoked == c.invoked
      && c'.cpu == Align(cpu) && c'.wall == Align(wall)
  {
    var diff := Skew(c, cpu, wall);
    SkewAligned(c, cpu, wall);
    var c1 := c.(cpu := Align(cpu), wall := Align(wall));
    assert RoundInv(c1);
    if diff > SEC_TO_NSEC || diff < -SEC_TO_NSEC {
      CompensateInv(c1, diff);
      CallInv(c1.(tm := T.Compensate(c1.tm, diff)), env);
    }
  }
}
