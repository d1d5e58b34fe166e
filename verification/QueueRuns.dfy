/** What the internal queue owes to those who send: when a message waits without
    the loop knowing of it, and when it is sure to have been written. */
module QueueRuns {
  import opened Options
  import opened Multiplexer
  import opened MultiplexerProofs
  import opened MultiplexerRuns
  import D = Descriptors
  import Q = InternalQueues

  // ---- messages the loop does not know of ----

  /** The write handler asks for EPOLLOUT exactly while messages are pending. */
  ghost predicate Awake(c: Ctx) {
    c.writer.Some? && c.writer.value in c.ds.objects ==>
      (D.EPOLLOUT <= c.ds.objects[c.writer.value].flags <==> c.mq.pending != [])
  }

  lemma AwakeIff(c: Ctx)
    requires Inv(c)
    ensures Awake(c) <==> c.writer.None? || c.mq.pending == [] || |c.mq.accepted| > c.early
  {
  }

  /** CreateInternalMQ leaves the write handler in step with the queue if and
      only if nothing was sent before. */
  lemma CreateQueueAwakeIff(c: Ctx, readFd: int, writeFd: int)
    requires RoundInv(c) && c.writer.None? && c.reader.None? && readFd >= 0 && writeFd >= 0
    ensures Awake(CreateQueue(c, readFd, writeFd)) <==> c.mq.pending == []
  {
    CreateQueueInv(c, readFd, writeFd);
    AwakeIff(CreateQueue(c, readFd, writeFd));
  }

  lemma ApplyWritesNothing(c: Ctx, op: Op)
    ensures Apply(c, op).mq.written == c.mq.written && c.mq.pending <= Apply(c, op).mq.pending
  {
  }

  /** Operations write nothing to the pipe. */
  lemma {:induction false} ApplyAllWritesNothing(c: Ctx, ops: seq<Op>)
    ensures ApplyAll(c, ops).mq.written == c.mq.written && c.mq.pending <= ApplyAll(c, ops).mq.pending
    decreases |ops|
  {
    if ops != [] {
      ApplyWritesNothing(c, ops[0]);
      ApplyAllWritesNothing(Apply(c, ops[0]), ops[1..]);
    }
  }

  /** Messages sent before CreateInternalMQ wait, unasked for, through all
      operations until the next one is accepted, or the queue is stopped. */
  lemma WakesIff(c: Ctx, ops: seq<Op>)
    requires Inv(c) && !Awake(c)
    ensures var c' := ApplyAll(c, ops);
      Awake(c') <==> c'.mq.accepted != c.mq.accepted || c'.writer.None?
  {
    ApplyAllInv(c, ops);
    ApplyAllWritesNothing(c, ops);
    AwakeIff(c);
    AwakeIff(ApplyAll(c, ops));
  }

  lemma QueueTwice(a: Ctx, b: Ctx, c: Ctx)
    requires KeepsQueue(a, b) && KeepsQueue(b, c)
    ensures KeepsQueue(a, c)
  {
  }

  lemma PrepareKeepsQueue(c: Ctx, env: Env)
    requires RoundInv(c)
    ensures RoundInv(Prepare(c, env)) && KeepsQueue(c, Prepare(c, env))
  {
    HandleTimersInv(c, env);
    PrepareInv(c, env);
  }

  lemma ResumeKeepsQueue(c: Ctx, w: Wake, env: Env)
    requires RoundInv(c)
    ensures RoundInv(Resume(c, w, env)) && KeepsQueue(c, Resume(c, w, env))
  {
    ResumeInv(c, w, env);
    match w
    case Ready(fds, cpu, wall) =>
      CheckTimeInv(c, cpu, wall, env);
      var c1 := CheckTime(c, cpu, wall, env);
      DispatchInv(c1, fds, env);
      QueueTwice(c, c1, Dispatch(c1, fds, env));
    case Interrupted(cpu, wall) =>
      CallInv(c, env);
      var c1 := Call(c, env);
      CallKeepsFired(c, c1);
      CheckTimeInv(c1, cpu, wall, env);
      QueueTwice(c, c1, CheckTime(c1, cpu, wall, env));
  }

  lemma {:induction false} RunKeepsQueue(c: Ctx, wakes: seq<Wake>, env: Env)
    requires RoundInv(c)
    ensures RoundInv(Run(c, wakes, env)) && KeepsQueue(c, Run(c, wakes, env))
    decreases |wakes|
  {
    if wakes != [] {
      var p := Prepare(c, env);
      var q := Resume(p, wakes[0], env);
      PrepareKeepsQueue(c, env);
      ResumeKeepsQueue(p, wakes[0], env);
      RunKeepsQueue(q, wakes[1..], env);
      QueueTwice(c, p, q);
      QueueTwice(c, q, Run(c, wakes, env));
    }
  }

  /** And so they do over whole runs: at an epoll_wait, however many rounds
      later, the queue is awake if and only if a further message was accepted,
      the queue was stopped, or all was written when the pipe was reported
      without being asked for. */
  lemma WokenIff(c: Ctx, wakes: seq<Wake>, env: Env)
    requires RoundInv(c) && !Awake(c)
    ensures var p := Prepare(Run(c, wakes, env), env);
      Awake(p) <==> p.mq.accepted != c.mq.accepted || p.writer.None? || p.mq.pending == []
  {
    var r := Run(c, wakes, env);
    RunKeepsQueue(c, wakes, env);
    PrepareKeepsQueue(r, env);
    QueueTwice(c, r, Prepare(r, env));
    AwakeIff(c);
    AwakeIff(Prepare(r, env));
  }

  // ---- messages that are written ----

  lemma {:induction false} EqualRangeHas(installed: seq<D.Slot>, i: nat)
    requires i < |installed|
    ensures installed[i].hdlr in EqualRange(installed, installed[i].fd)
    decreases |installed|
  {
    if i > 0 {
      EqualRangeHas(installed[1..], i - 1);
    }
  }

  /** In all calls up to `end` the pipe has room for whatever is pending, and no
      message is empty. */
  ghost predicate Flows(c: Ctx, end: Ctx, env: Env) {
    && (forall n | c.calls <= n < end.calls :: env.pipe(n) >= |end.mq.accepted|)
    && forall m | m in end.mq.accepted :: m != []
  }

  lemma PendingAccepted(q: Q.Queue, accepted: seq<Q.Message>)
    requires Q.Fifo(q) && q.accepted <= accepted
    ensures |q.pending| <= |accepted| && forall m | m in q.pending :: m in accepted
  {
    assert forall i | 0 <= i < |q.pending| :: q.pending[i] == accepted[|q.written| + i];
  }

  lemma WriterWritesAll(c: Ctx, h: D.Ref, env: Env, end: Ctx)
    requires Inv(c) && c.writer == Some(h)
    requires KeepsQueue(Invoke(c, h, env), end) && Flows(c, end, env)
    ensures c.mq.accepted <= Invoke(c, h, env).mq.written
  {
    InvokeInv(c, h, env);
    PendingAccepted(c.mq, end.mq.accepted);
    Q.DrainEmptiesIff(c.mq, env.pipe(c.calls));
  }

  lemma {:induction false} InvokeAllWrites(c: Ctx, hs: seq<D.Ref>, env: Env, h: D.Ref, end: Ctx)
    requires Inv(c) && h in hs && forall q | q in hs :: q in D.Handlers(c.ds.installed)
    requires KeepsQueue(InvokeAll(c, hs, env), end) && end.writer == Some(h) && c.writer == Some(h) && Flows(c, end, env)
    ensures c.mq.accepted <= InvokeAll(c, hs, env).mq.written
    decreases |hs|
  {
    assert hs[0] in hs;
    var c1 := Invoke(c, hs[0], env);
    InvokeInv(c, hs[0], env);
    InvokeAllInv(c1, hs[1..], env);
    QueueTwice(c1, InvokeAll(c, hs, env), end);
    if hs[0] == h {
      WriterWritesAll(c, h, env, end);
    } else {
      InvokeAllWrites(c1, hs[1..], env, h, end);
    }
  }

  lemma {:induction false} DispatchWrites(c: Ctx, fds: seq<int>, env: Env, i: nat)
    requires Inv(c) && c.writer.Some? && i < |c.ds.installed| && c.ds.installed[i] == D.Slot(c.writeFd, c.writer.value)
    requires c.writeFd in fds && Dispatch(c, fds, env).writer == c.writer && Flows(c, Dispatch(c, fds, env), env)
    ensures c.mq.accepted <= Dispatch(c, fds, env).mq.written
    decreases |fds|
  {
    var end := Dispatch(c, fds, env);
    var hs := EqualRange(c.ds.installed, fds[0]);
    var c1 := InvokeAll(c, hs, env);
    InvokeAllInv(c, hs, env);
    DispatchInv(c1, fds[1..], env);
    if fds[0] == c.writeFd {
      EqualRangeHas(c.ds.installed, i);
      InvokeAllWrites(c, hs, env, c.writer.value, end);
    } else {
      DispatchWrites(c1, fds[1..], env, i);
    }
  }

  /** Every message accepted before an epoll_wait has been written when the
      batch that reports the pipe is over, unless the queue is stopped in it, an
      empty message is in the way or the pipe is full.  That the kernel watches
      the pipe is part of AtEveryWait. */
  lemma ReportedIsWritten(p: Ctx, w: Wake, env: Env)
    requires RoundInv(p) && p.ds.list == [] && p.writer.Some? && w.Ready? && p.writeFd in w.fds
    requires Resume(p, w, env).writer == p.writer && Flows(p, Resume(p, w, env), env)
    ensures p.mq.accepted <= Resume(p, w, env).mq.written
  {
    var i := HasSlot(p.ds, p.writer.value, p.writeFd);
    CheckTimeInv(p, w.cpu, w.wall, env);
    var c1 := CheckTime(p, w.cpu, w.wall, env);
    DispatchInv(c1, w.fds, env);
    DispatchWrites(c1, w.fds, env, i);
  }
}
