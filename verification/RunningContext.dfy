/** The multiplexer itself, in the form the program gives it: an object whose
    methods update its containers in place.  Every method is proved to do what
    the corresponding function of Multiplexer says. */
module RunningContexts {
  import opened Counting
  import opened Options
  import opened Timespecs
  import opened Multiplexer
  import opened MultiplexerProofs
  import T = Timers
  import D = Descriptors
  import Q = InternalQueues
  import Callbacks
  import Runs = MultiplexerRuns

  lemma StopChanges(c: Ctx)
    ensures StopQueue(c) == c.(ds := StopQueue(c).ds, reader := None, writer := None, readFd := -1, writeFd := -1)
  {
  }

  lemma DescriptorOpChanges(c: Ctx, op: Op)
    requires op.RegisterDescriptor? || op.EnableDescriptor? || op.DisableDescriptor? || op.RemoveDescriptor?
    ensures Apply(c, op) == c.(ds := Apply(c, op).ds)
  {
  }

  lemma WriterInvoked(c: Ctx, h: D.Ref, env: Env)
    requires h in c.ds.objects && !c.ds.objects[h].deleted && c.ds.objects[h].kind == D.QueueWriter
    ensures Invoke(c, h, env) == WriteQueue(c.(invoked := c.invoked + [h], calls := c.calls + 1), h, env.pipe(c.calls))
  {
  }

  lemma StopValid(c: Ctx)
    requires Inv(c)
    ensures D.Valid(StopQueue(c).ds) && T.Valid(c.tm)
  {
    StopInv(c);
  }

  lemma {:induction false} DestroyKeepsCount(s: D.Descriptors)
    ensures D.Destroy(s).next == s.next
    decreases |s.list|
  {
    if s.list != [] {
      DestroyKeepsCount(s.(list := s.list[1..], installed := D.Without(s.installed, s.list[0]),
                           freed := s.freed + [s.list[0]], objects := s.objects - {s.list[0]}));
    }
  }

  /** The timers after those of a list have been moved by a jump. */
  function Shifted(timers: map<T.Ref, T.Timer>, done: seq<T.Ref>, advance: bool, jump: Timespec): map<T.Ref, T.Timer> {
    map r | r in timers :: if r in done then timers[r].(t := Shift(timers[r].t, advance, jump)) else timers[r]
  }

  predicate Distinct(s: seq<T.Ref>) {
    forall j, k | 0 <= j < k < |s| :: s[j] != s[k]
  }

  lemma DistinctParts(s: seq<T.Ref>, t: seq<T.Ref>)
    requires Distinct(s + t)
    ensures Distinct(s) && Distinct(t) && forall r | r in s :: r !in t
  {
    assert forall i | 0 <= i < |s| :: (s + t)[i] == s[i];
    assert forall i | 0 <= i < |t| :: (s + t)[|s| + i] == t[i];
  }

  lemma ShiftedTwice(timers: map<T.Ref, T.Timer>, s: seq<T.Ref>, t: seq<T.Ref>, advance: bool, jump: Timespec)
    requires forall r | r in s :: r !in t
    ensures Shifted(Shifted(timers, s, advance, jump), t, advance, jump) == Shifted(timers, s + t, advance, jump)
  {
  }

  lemma ShiftNext(timers: map<T.Ref, T.Timer>, all: seq<T.Ref>, i: nat, advance: bool, jump: Timespec)
    requires i < |all| && Distinct(all)
    ensures var before, r := Shifted(timers, all[..i], advance, jump), all[i];
      Shifted(timers, all[..i + 1], advance, jump)
      == if r in before then before[r := before[r].(t := Shift(before[r].t, advance, jump))] else before
  {
  }

  class StatmRunningContext {
    // the CTimer objects on the heap, and how many were made
    var timers: map<T.Ref, T.Timer>
    var timerCount: nat
    var m_tmrlist: seq<T.Ref>
    var m_tmrset: seq<T.Entry>
    // the CDescriptor objects on the heap, and how many were made
    var descriptors: map<D.Ref, D.Descriptor>
    var descriptorCount: nat
    var m_cblist: seq<D.Ref>
    var m_cbset: seq<D.Slot>
    var m_nfds: int
    // the kernel's epoll set
    var kernel: map<int, D.Flags>
    const mq: Q.InternalQueue
    var m_mqReadHandler: Option<D.Ref>
    var m_mqWriteHandler: Option<D.Ref>
    var m_mqid0: int
    var m_mqid1: int
    var m_cpuTime: Timespec
    var m_realTime: Timespec
    var m_quit: bool
    var calls: nat
    // history
    ghost var deletedTimers: seq<T.Ref>
    ghost var droppedTimers: seq<T.Ref>
    ghost var oddTime: bool
    ghost var freedDescriptors: seq<D.Ref>
    ghost var clash: bool
    ghost var fired: seq<Firing>
    ghost var invoked: seq<D.Ref>
    ghost var early: nat

    ghost function Tm(): T.Timers
      reads this
    {
      T.Timers(timers, m_tmrlist, m_tmrset, timerCount, deletedTimers, droppedTimers, oddTime)
    }

    ghost function Ds(): D.Descriptors
      reads this
    {
      D.Descriptors(descriptors, m_cblist, m_cbset, kernel, m_nfds, descriptorCount, freedDescriptors, clash)
    }

    /** The value of the whole object. */
    ghost function C(): Ctx
      reads this, mq
    {
      Ctx(Tm(), Ds(), mq.queue, m_mqReadHandler, m_mqWriteHandler, m_mqid0, m_mqid1,
          m_cpuTime, m_realTime, m_quit, calls, fired, invoked, early)
    }

    ghost predicate Valid()
      reads this, mq, mq.m_mqBuffer
    {
      mq.Valid() && Inv(C())
    }

    constructor ()
      ensures mq.Valid() && fresh(mq) && fresh(mq.m_mqBuffer) && C() == NewCtx()
    {
      timers, timerCount, m_tmrlist, m_tmrset := map[], 0, [], [];
      descriptors, descriptorCount, m_cblist, m_cbset, m_nfds, kernel := map[], 0, [], [], -1, map[];
      mq := new Q.InternalQueue();
      m_mqReadHandler, m_mqWriteHandler, m_mqid0, m_mqid1 := None, None, 0, 0;
      m_cpuTime, m_realTime, m_quit, calls := Timespec(0, 0), Timespec(0, 0), false, 0;
      deletedTimers, droppedTimers, oddTime, freedDescriptors, clash := [], [], false, [], false;
      fired, invoked, early := [], [], 0;
    }

    // ---- timers ----

    method RegisterTimer(t: Timespec) returns (tmr: T.Ref)
      modifies this`timers, this`m_tmrlist, this`timerCount, this`oddTime
      ensures Tm() == T.Register(old(Tm()), t) && tmr == old(timerCount)
    {
      tmr := timerCount;
      timers := timers[tmr := T.Timer(Align(t), true)];
      m_tmrlist := m_tmrlist + [tmr];
      timerCount := timerCount + 1;
      oddTime := oddTime || !Timely(Align(t));
    }

    method SetTimerActive(tmr: T.Ref, active: bool)
      modifies this`timers
      ensures Tm() == T.SetActive(old(Tm()), tmr, active)
    {
      if tmr in timers {
        timers := timers[tmr := timers[tmr].(active := active)];
      }
    }

    // ---- descriptors ----

    method RegisterDescriptor(flags: D.Flags, fd: int, kind: D.Kind) returns (hdlr: Option<D.Ref>)
      modifies this`descriptors, this`m_cblist, this`descriptorCount, this`clash
      ensures Ds() == D.Register(old(Ds()), flags, fd, kind)
      ensures hdlr == if fd < 0 then None else Some(old(descriptorCount))
    {
      if fd < 0 {
        return None;
      }
      clash := clash || exists h | h in descriptors :: D.Serves(Ds(), h, fd);
      descriptors := descriptors[descriptorCount := D.Descriptor(fd, flags, kind, false)];
      m_cblist := m_cblist + [descriptorCount];
      hdlr := Some(descriptorCount);
      descriptorCount := descriptorCount + 1;
    }

    method SetFlags(hdlr: D.Ref, flags: D.Flags)
      requires hdlr in descriptors && !descriptors[hdlr].deleted
      modifies this`descriptors, this`kernel
      ensures Ds() == D.SetFlags(old(Ds()), hdlr, flags)
    {
      var fd := descriptors[hdlr].fd;
      descriptors := descriptors[hdlr := descriptors[hdlr].(flags := flags)];
      if fd in kernel {
        kernel := kernel[fd := flags];
      }
    }

    method EnableDescriptor(hdlr: D.Ref, flags: D.Flags)
      modifies this`descriptors, this`kernel
      ensures Ds() == D.Enable(old(Ds()), hdlr, flags)
    {
      if hdlr in descriptors && !descriptors[hdlr].deleted {
        SetFlags(hdlr, descriptors[hdlr].flags + flags);
      }
    }

    method DisableDescriptor(hdlr: D.Ref, flags: D.Flags)
      modifies this`descriptors, this`kernel
      ensures Ds() == D.Disable(old(Ds()), hdlr, flags)
    {
      if hdlr in descriptors && !descriptors[hdlr].deleted {
        SetFlags(hdlr, descriptors[hdlr].flags - flags);
      }
    }

    method RemoveDescriptor(hdlr: D.Ref)
      modifies this`descriptors, this`m_cblist
      ensures Ds() == D.Remove(old(Ds()), hdlr)
    {
      if hdlr !in descriptors || descriptors[hdlr].deleted {
        return;
      }
      descriptors := descriptors[hdlr := descriptors[hdlr].(deleted := true)];
      var sit := FindSlot(hdlr);
      if sit != |m_cbset| {
        m_cblist := m_cblist + [hdlr];
      }
    }

    /** The scan for a handler's slot. */
    method FindSlot(hdlr: D.Ref) returns (sit: nat)
      ensures sit == D.Find(m_cbset, hdlr)
    {
      sit := 0;
      while sit < |m_cbset| && m_cbset[sit].hdlr != hdlr
        invariant sit <= |m_cbset| && D.Find(m_cbset, hdlr) == sit + D.Find(m_cbset[sit..], hdlr)
      {
        sit := sit + 1;
      }
    }

    // ---- the internal queue ----

    /** EnableDescriptor, without effect as long as there is no write handler. */
    method EnableWriter()
      modifies this`descriptors, this`kernel
      ensures C() == Multiplexer.EnableWriter(old(C()))
    {
      if m_mqWriteHandler.Some? {
        ghost var c := C();
        EnableDescriptor(m_mqWriteHandler.value, D.EPOLLOUT);
        assert C() == c.(ds := D.Enable(c.ds, m_mqWriteHandler.value, D.EPOLLOUT));
      }
    }

    method MQSend(m: Q.Message, memory: bool) returns (ok: bool)
      requires mq.Valid()
      modifies this`descriptors, this`kernel, mq, mq.m_mqBuffer
      ensures mq.Valid() && (mq.m_mqBuffer == old(mq.m_mqBuffer) || fresh(mq.m_mqBuffer))
      ensures C() == SendMessage(old(C()), m, memory)
    {
      ghost var c := C();
      ok := mq.MQSend(m, memory);
      assert C() == c.(mq := mq.queue);
      if ok {
        EnableWriter();
      }
    }

    /** Removal of one of the queue's two handlers, and close of its descriptor. */
    method Unhook(hdlr: Option<D.Ref>, fd: int)
      modifies this`descriptors, this`m_cblist, this`kernel
      ensures Ds() == Multiplexer.Unhook(old(Ds()), hdlr, fd)
    {
      if hdlr.Some? {
        RemoveDescriptor(hdlr.value);
      }
      if fd > 0 {
        kernel := kernel - {fd};
      }
    }

    method StopMQ()
      modifies this`descriptors, this`m_cblist, this`kernel
      modifies this`m_mqReadHandler, this`m_mqWriteHandler, this`m_mqid0, this`m_mqid1
      ensures Ds() == StopQueue(old(C())).ds
      ensures m_mqReadHandler == m_mqWriteHandler == None && m_mqid0 == m_mqid1 == -1
    {
      Unhook(m_mqReadHandler, m_mqid0);
      ghost var ds := Ds();
      Unhook(m_mqWriteHandler, m_mqid1);
      assert Ds() == Multiplexer.Unhook(ds, old(m_mqWriteHandler), old(m_mqid1));
      m_mqReadHandler, m_mqWriteHandler, m_mqid0, m_mqid1 := None, None, -1, -1;
    }

    // ---- callbacks ----

    method PerformTimer(op: Op)
      requires op.RegisterTimer? || op.EnableTimer? || op.DisableTimer?
      modifies this`timers, this`m_tmrlist, this`timerCount, this`oddTime
      ensures C() == Apply(old(C()), op)
    {
      match op
      case RegisterTimer(t) => var tmr := RegisterTimer(t);
      case EnableTimer(tmr) => SetTimerActive(tmr, true);
      case DisableTimer(tmr) => SetTimerActive(tmr, false);
    }

    method PerformOnHandler(op: Op)
      requires op.EnableDescriptor? || op.DisableDescriptor? || op.RemoveDescriptor?
      modifies this`descriptors, this`m_cblist, this`kernel
      ensures Ds() == Apply(old(C()), op).ds
    {
      if op.handler in descriptors && descriptors[op.handler].kind == D.User {
        match op
        case EnableDescriptor(h, flags) => EnableDescriptor(h, flags);
        case DisableDescriptor(h, flags) => DisableDescriptor(h, flags);
        case RemoveDescriptor(h) => RemoveDescriptor(h);
      }
    }

    method PerformDescriptor(op: Op)
      requires op.RegisterDescriptor? || op.EnableDescriptor? || op.DisableDescriptor? || op.RemoveDescriptor?
      modifies this`descriptors, this`m_cblist, this`kernel, this`descriptorCount, this`clash
      ensures Ds() == Apply(old(C()), op).ds
    {
      if op.RegisterDescriptor? {
        var hdlr := RegisterDescriptor(op.flags, op.fd, D.User);
      } else {
        PerformOnHandler(op);
      }
    }

    method PerformStop()
      modifies this
      ensures C() == StopQueue(old(C()))
    {
      ghost var c := C();
      StopMQ();
      StopChanges(c);
      assert C() == c.(ds := Ds(), reader := None, writer := None, readFd := -1, writeFd := -1);
    }

    method PerformOther(op: Op)
      requires mq.Valid() && (op.MQSend? || op.StopMQ? || op.Quit?)
      modifies this, mq, mq.m_mqBuffer
      ensures mq.Valid() && (mq.m_mqBuffer == old(mq.m_mqBuffer) || fresh(mq.m_mqBuffer))
      ensures C() == Apply(old(C()), op)
    {
      if op.MQSend? {
        var ok := MQSend(op.m, op.memory);
      } else if op.StopMQ? {
        PerformStop();
      } else {
        m_quit := true;
      }
    }

    method PerformHandlerOp(op: Op)
      requires op.RegisterDescriptor? || op.EnableDescriptor? || op.DisableDescriptor? || op.RemoveDescriptor?
      modifies this`descriptors, this`m_cblist, this`kernel, this`descriptorCount, this`clash
      ensures C() == Apply(old(C()), op)
    {
      ghost var c := C();
      PerformDescriptor(op);
      DescriptorOpChanges(c, op);
    }

    method Perform(op: Op)
      requires mq.Valid()
      modifies this, mq, mq.m_mqBuffer
      ensures mq.Valid() && (mq.m_mqBuffer == old(mq.m_mqBuffer) || fresh(mq.m_mqBuffer))
      ensures C() == Apply(old(C()), op)
    {
      if op.RegisterTimer? || op.EnableTimer? || op.DisableTimer? {
        PerformTimer(op);
      } else if op.RegisterDescriptor? || op.EnableDescriptor? || op.DisableDescriptor? || op.RemoveDescriptor? {
        PerformHandlerOp(op);
      } else {
        PerformOther(op);
      }
    }

    method CarryOut(ops: seq<Op>)
      requires mq.Valid()
      modifies this, mq, mq.m_mqBuffer
      ensures mq.Valid() && (mq.m_mqBuffer == old(mq.m_mqBuffer) || fresh(mq.m_mqBuffer))
      ensures C() == ApplyAll(old(C()), ops)
    {
      var i := 0;
      while i < |ops|
        invariant 0 <= i <= |ops| && mq.Valid() && (mq.m_mqBuffer == old(mq.m_mqBuffer) || fresh(mq.m_mqBuffer))
        invariant ApplyAll(C(), ops[i..]) == ApplyAll(old(C()), ops)
      {
        assert ops[i..][0] == ops[i] && ops[i..][1..] == ops[i + 1..];
        Perform(ops[i]);
        i := i + 1;
      }
    }

    method CallBack(env: Env)
      requires mq.Valid()
      modifies this, mq, mq.m_mqBuffer
      ensures mq.Valid() && (mq.m_mqBuffer == old(mq.m_mqBuffer) || fresh(mq.m_mqBuffer))
      ensures C() == Call(old(C()), env)
    {
      ghost var c := C();
      var ops := env.script(calls);
      calls := calls + 1;
      assert C() == c.(calls := c.calls + 1);
      CarryOut(ops);
    }

    /** A callback: all its operations are carried out, in their order. */
    method RunCallback(env: Env)
      requires mq.Valid()
      modifies this, mq, mq.m_mqBuffer
      ensures mq.Valid() && (mq.m_mqBuffer == old(mq.m_mqBuffer) || fresh(mq.m_mqBuffer))
      ensures C() == Call(old(C()), env)
      ensures Callbacks.Carried(old(C()), C(), env.script(old(calls)))
    {
      Callbacks.CallCarries(C(), env);
      CallBack(env);
    }

    // ---- HandleTimers ----

    /** The first loop: callbacks of the due timers. */
    method FireDue(env: Env) returns (ub: nat)
      requires Valid()
      modifies this, mq, mq.m_mqBuffer
      ensures Valid() && (mq.m_mqBuffer == old(mq.m_mqBuffer) || fresh(mq.m_mqBuffer))
      ensures ub == T.UpperBound(old(m_tmrset), old(m_realTime)) && ub <= |m_tmrset|
      ensures C() == FireAll(old(C()), old(m_tmrset)[..ub], env)
    {
      ub := T.UpperBound(m_tmrset, m_realTime);
      ghost var due := m_tmrset[..ub];
      var it := 0;
      while it < ub
        invariant 0 <= it <= ub && Valid() && (mq.m_mqBuffer == old(mq.m_mqBuffer) || fresh(mq.m_mqBuffer))
        invariant m_tmrset == old(m_tmrset) && m_realTime == old(m_realTime)
        invariant FireAll(C(), due[it..], env) == FireAll(old(C()), due, env)
      {
        FireInv(C(), m_tmrset[it], env);
        assert due[it..][0] == m_tmrset[it] && due[it..][1..] == due[it + 1..];
        FireOne(it, env);
        it := it + 1;
      }
    }

    method FireOne(it: nat, env: Env)
      requires mq.Valid() && it < |m_tmrset|
      modifies this, mq, mq.m_mqBuffer
      ensures mq.Valid() && (mq.m_mqBuffer == old(mq.m_mqBuffer) || fresh(mq.m_mqBuffer))
      ensures C() == Fire(old(C()), old(m_tmrset)[it], env)
    {
      var tmr := m_tmrset[it].tmr;
      if tmr in timers && timers[tmr].active {
        ghost var c, firing := C(), Firing(tmr, m_tmrset[it].key, m_realTime);
        fired := fired + [firing];
        SetTimerActive(tmr, false);
        assert C() == c.(tm := T.SetActive(c.tm, tmr, false), fired := c.fired + [firing]);
        RunCallback(env);
      }
    }

    /** The second loop: the due timers are deleted and leave the set. */
    method DeleteDue(ub: nat)
      requires ub <= |m_tmrset|
      modifies this`timers, this`m_tmrset, this`deletedTimers
      ensures Tm() == T.DeleteDue(old(Tm()), ub)
    {
      var it := 0;
      while it < ub
        invariant 0 <= it <= ub && m_tmrset == old(m_tmrset)
        invariant timers == map r | r in old(timers) && r !in T.Refs(m_tmrset[..it]) :: old(timers)[r]
        invariant deletedTimers == old(deletedTimers) + T.Refs(m_tmrset[..it])
      {
        timers := timers - {m_tmrset[it].tmr};
        deletedTimers := deletedTimers + [m_tmrset[it].tmr];
        assert T.Refs(m_tmrset[..it + 1]) == T.Refs(m_tmrset[..it]) + [m_tmrset[it].tmr];
        it := it + 1;
      }
      m_tmrset := m_tmrset[ub..];
    }

    /** The third loop: the prepared timers enter the set. */
    method MoveTimers()
      modifies this`m_tmrlist, this`m_tmrset, this`droppedTimers
      ensures Tm() == T.MoveAll(old(Tm()))
    {
      var li := 0;
      while li < |m_tmrlist|
        invariant 0 <= li <= |m_tmrlist|
        invariant T.MoveAll(Tm().(list := m_tmrlist[li..])) == T.MoveAll(old(Tm()))
      {
        var tmr := m_tmrlist[li];
        ghost var before := Tm().(list := m_tmrlist[li..]);
        if tmr in timers && timers[tmr].active {
          m_tmrset := T.Insert(m_tmrset, T.Entry(timers[tmr].t, tmr));
        } else {
          droppedTimers := droppedTimers + [tmr];
        }
        assert Tm().(list := m_tmrlist[li + 1..]) == T.MoveFirst(before);
        li := li + 1;
      }
      m_tmrlist := [];
    }

    /** The tail: the first active timer decides the sleep. */
    method ComputeTimer() returns (tp: Option<Timespec>)
      ensures tp == T.NextDelay(Tm(), m_realTime)
    {
      var it := 0;
      while it < |m_tmrset| && !(m_tmrset[it].tmr in timers && timers[m_tmrset[it].tmr].active)
        invariant it <= |m_tmrset| && T.FirstActive(Tm(), it) == T.FirstActive(Tm(), 0)
      {
        it := it + 1;
      }
      if it == |m_tmrset| {
        return None;
      }
      tp := Some(Timespecs.Delay(m_realTime, m_tmrset[it].key));
    }

    method FinishTimers(ub: nat)
      requires ub <= |m_tmrset|
      modifies this`timers, this`m_tmrlist, this`m_tmrset, this`deletedTimers, this`droppedTimers
      ensures Tm() == T.MoveAll(T.DeleteDue(old(Tm()), ub))
    {
      DeleteDue(ub);
      MoveTimers();
    }

    method RunTimers(env: Env)
      requires Valid()
      modifies this, mq, mq.m_mqBuffer
      ensures mq.Valid() && (mq.m_mqBuffer == old(mq.m_mqBuffer) || fresh(mq.m_mqBuffer))
      ensures C() == Multiplexer.HandleTimers(old(C()), env)
    {
      var ub := FireDue(env);
      ghost var c := C();
      FinishTimers(ub);
      assert C() == c.(tm := T.MoveAll(T.DeleteDue(c.tm, ub)));
    }

    method HandleTimers(env: Env) returns (tp: Option<Timespec>)
      requires Valid() && FiredOnce(C())
      modifies this, mq, mq.m_mqBuffer
      ensures Valid() && FiredOnce(C()) && (mq.m_mqBuffer == old(mq.m_mqBuffer) || fresh(mq.m_mqBuffer))
      ensures C() == Multiplexer.HandleTimers(old(C()), env) && tp == Multiplexer.Delay(C())
    {
      HandleTimersInv(C(), env);
      RunTimers(env);
      tp := ComputeTimer();
    }

    // ---- CheckTimeValidity ----

    /** The loop over the prepared timers. */
    method ShiftPrepared(advance: bool, td: Timespec)
      requires Distinct(m_tmrlist)
      modifies this`timers
      ensures timers == Shifted(old(timers), m_tmrlist, advance, td)
    {
      var i := 0;
      while i < |m_tmrlist|
        invariant 0 <= i <= |m_tmrlist|
        invariant timers == Shifted(old(timers), m_tmrlist[..i], advance, td)
      {
        ShiftNext(old(timers), m_tmrlist, i, advance, td);
        var tmr := m_tmrlist[i];
        if tmr in timers {
          timers := timers[tmr := timers[tmr].(t := Shift(timers[tmr].t, advance, td))];
        }
        i := i + 1;
      }
      assert m_tmrlist[..i] == m_tmrlist;
    }

    /** The loop over the running timers, which become prepared ones. */
    method ShiftRunning(advance: bool, td: Timespec)
      requires Distinct(T.Refs(m_tmrset))
      modifies this`timers, this`m_tmrlist
      ensures timers == Shifted(old(timers), T.Refs(m_tmrset), advance, td)
      ensures m_tmrlist == old(m_tmrlist) + T.Refs(m_tmrset)
    {
      ghost var running := T.Refs(m_tmrset);
      var i := 0;
      while i < |m_tmrset|
        invariant 0 <= i <= |m_tmrset| && m_tmrlist == old(m_tmrlist) + running[..i]
        invariant timers == Shifted(old(timers), running[..i], advance, td)
      {
        ShiftNext(old(timers), running, i, advance, td);
        var tmr := m_tmrset[i].tmr;
        if tmr in timers {
          timers := timers[tmr := timers[tmr].(t := Shift(timers[tmr].t, advance, td))];
        }
        m_tmrlist := m_tmrlist + [tmr];
        i := i + 1;
      }
      assert running[..i] == running;
    }

    method CompensateTimers(timeDiff: int)
      requires Distinct(T.Pending(Tm()))
      modifies this`timers, this`m_tmrlist, this`m_tmrset
      ensures Tm() == T.Compensate(old(Tm()), timeDiff)
    {
      var (advance, td) := Jump(timeDiff);
      DistinctParts(m_tmrlist, T.Refs(m_tmrset));
      ShiftPrepared(advance, td);
      ShiftRunning(advance, td);
      ShiftedTwice(old(timers), old(m_tmrlist), T.Refs(m_tmrset), advance, td);
      m_tmrset := [];
    }

    method ClockJump(diff: int, env: Env)
      requires mq.Valid() && Distinct(T.Pending(Tm()))
      modifies this, mq, mq.m_mqBuffer
      ensures mq.Valid() && (mq.m_mqBuffer == old(mq.m_mqBuffer) || fresh(mq.m_mqBuffer))
      ensures C() == Call(old(C()).(tm := T.Compensate(old(Tm()), diff)), env)
    {
      ghost var c := C();
      CompensateTimers(diff);
      assert C() == c.(tm := T.Compensate(c.tm, diff));
      RunCallback(env);
    }

    method CheckClocks(cpu: Reading, wall: Reading, env: Env)
      requires mq.Valid() && Distinct(T.Pending(Tm()))
      modifies this, mq, mq.m_mqBuffer
      ensures mq.Valid() && (mq.m_mqBuffer == old(mq.m_mqBuffer) || fresh(mq.m_mqBuffer))
      ensures C() == CheckTime(old(C()), cpu, wall, env)
    {
      var cpuTimeStop, realTimeStop := Align(cpu), Align(wall);
      var diff := Disagreement(m_cpuTime, m_realTime, cpuTimeStop, realTimeStop);
      m_cpuTime, m_realTime := cpuTimeStop, realTimeStop;
      if diff > SEC_TO_NSEC || diff < -SEC_TO_NSEC {
        ClockJump(diff, env);
      }
    }

    method CheckTimeValidity(cpu: Reading, wall: Reading, env: Env)
      requires Valid() && FiredOnce(C())
      modifies this, mq, mq.m_mqBuffer
      ensures Valid() && FiredOnce(C()) && (mq.m_mqBuffer == old(mq.m_mqBuffer) || fresh(mq.m_mqBuffer))
      ensures C() == CheckTime(old(C()), cpu, wall, env)
    {
      CheckTimeInv(C(), cpu, wall, env);
      T.PendingDistinct(Tm());
      CheckClocks(cpu, wall, env);
    }

    // ---- descriptors ----

    method ActivateDescriptors()
      requires D.Valid(Ds())
      modifies this`descriptors, this`m_cblist, this`m_cbset, this`kernel, this`m_nfds, this`freedDescriptors
      ensures Ds() == D.ActivateAll(old(Ds()))
    {
      var it := 0;
      while it < |m_cblist|
        invariant 0 <= it <= |m_cblist| && D.Valid(Ds().(list := m_cblist[it..]))
        invariant D.ActivateAll(Ds().(list := m_cblist[it..])) == D.ActivateAll(old(Ds()))
      {
        ghost var before := Ds().(list := m_cblist[it..]);
        D.ActivateFirstValid(before);
        ActivateOne(m_cblist[it]);
        it := it + 1;
        assert Ds().(list := m_cblist[it..]) == D.ActivateFirst(before);
      }
      m_cblist := [];
      m_nfds := |m_cbset|;
    }

    method ActivateOne(hdlr: D.Ref)
      requires hdlr in descriptors
      modifies this`descriptors, this`m_cbset, this`kernel, this`freedDescriptors
      ensures Ds() == D.ActivateFirst(old(Ds()).(list := [hdlr])).(list := m_cblist)
    {
      var fd, flags := descriptors[hdlr].fd, descriptors[hdlr].flags;
      var sit := FindSlot(hdlr);
      if descriptors[hdlr].deleted {
        kernel := kernel - {fd};
        if sit != |m_cbset| {
          m_cbset := m_cbset[..sit] + m_cbset[sit + 1..];
        }
        descriptors := descriptors - {hdlr};
        freedDescriptors := freedDescriptors + [hdlr];
      } else if sit == |m_cbset| {
        if fd !in kernel {
          kernel := kernel[fd := flags];
        }
        m_cbset := m_cbset + [D.Slot(fd, hdlr)];
      } else if fd in kernel {
        kernel := kernel[fd := flags];
      }
    }

    /** The write handler of the internal queue. */
    method WriteInternalMessageQueue(hdlr: D.Ref, room: nat)
      requires mq.Valid()
      modifies this`descriptors, this`kernel, mq
      ensures mq.Valid() && mq.m_mqBuffer == old(mq.m_mqBuffer)
      ensures C() == WriteQueue(old(C()), hdlr, room)
    {
      ghost var c := C();
      var disable := mq.WriteInternalMessageQueue(room);
      if disable {
        DisableDescriptor(hdlr, D.EPOLLOUT);
        assert C() == c.(mq := mq.queue, ds := D.Disable(c.ds, hdlr, D.EPOLLOUT));
      } else {
        assert C() == c.(mq := mq.queue);
      }
    }

    method LogCall(hdlr: D.Ref)
      modifies this`invoked, this`calls
      ensures C() == old(C()).(invoked := old(invoked) + [hdlr], calls := old(calls) + 1)
    {
      invoked := invoked + [hdlr];
      calls := calls + 1;
    }

    method InvokeWriter(hdlr: D.Ref, env: Env)
      requires mq.Valid() && hdlr in descriptors && !descriptors[hdlr].deleted && descriptors[hdlr].kind == D.QueueWriter
      modifies this, mq
      ensures mq.Valid() && mq.m_mqBuffer == old(mq.m_mqBuffer)
      ensures C() == Invoke(old(C()), hdlr, env)
    {
      WriterInvoked(C(), hdlr, env);
      var room := env.pipe(calls);
      LogCall(hdlr);
      WriteInternalMessageQueue(hdlr, room);
    }

    method InvokeHandler(hdlr: D.Ref, env: Env)
      requires mq.Valid()
      modifies this, mq, mq.m_mqBuffer
      ensures mq.Valid() && (mq.m_mqBuffer == old(mq.m_mqBuffer) || fresh(mq.m_mqBuffer))
      ensures C() == Invoke(old(C()), hdlr, env)
    {
      if hdlr in descriptors && !descriptors[hdlr].deleted {
        if descriptors[hdlr].kind == D.QueueWriter {
          InvokeWriter(hdlr, env);
        } else {
          invoked := invoked + [hdlr];
          RunCallback(env);
        }
      }
    }

    method HandleDescriptor(fd: int, env: Env)
      requires Valid()
      modifies this, mq, mq.m_mqBuffer
      ensures Valid() && (mq.m_mqBuffer == old(mq.m_mqBuffer) || fresh(mq.m_mqBuffer))
      ensures C() == InvokeAll(old(C()), EqualRange(old(m_cbset), fd), env)
    {
      var er := EqualRange(m_cbset, fd);
      var it := 0;
      while it < |er|
        invariant 0 <= it <= |er| && Valid() && (mq.m_mqBuffer == old(mq.m_mqBuffer) || fresh(mq.m_mqBuffer))
        invariant InvokeAll(C(), er[it..], env) == InvokeAll(old(C()), er, env)
      {
        assert er[it..][0] == er[it] && er[it..][1..] == er[it + 1..];
        InvokeInv(C(), er[it], env);
        InvokeHandler(er[it], env);
        it := it + 1;
      }
    }

    method HandleDescriptors(fds: seq<int>, env: Env)
      requires Valid()
      modifies this, mq, mq.m_mqBuffer
      ensures Valid() && (mq.m_mqBuffer == old(mq.m_mqBuffer) || fresh(mq.m_mqBuffer))
      ensures C() == Dispatch(old(C()), fds, env)
    {
      var i := 0;
      while i < |fds|
        invariant 0 <= i <= |fds| && Valid() && (mq.m_mqBuffer == old(mq.m_mqBuffer) || fresh(mq.m_mqBuffer))
        invariant Dispatch(C(), fds[i..], env) == Dispatch(old(C()), fds, env)
      {
        assert fds[i..][0] == fds[i] && fds[i..][1..] == fds[i + 1..];
        HandleDescriptor(fds[i], env);
        i := i + 1;
      }
    }

    // ---- the main loop ----

    method HookWriter(writeFd: int)
      requires writeFd >= 0
      modifies this`descriptors, this`m_cblist, this`descriptorCount, this`clash, this`kernel, this`m_mqWriteHandler
      ensures Ds() == D.Disable(D.Register(old(Ds()), D.EPOLLOUT, writeFd, D.QueueWriter), old(descriptorCount), D.EPOLLOUT)
      ensures m_mqWriteHandler == Some(old(descriptorCount))
    {
      var hdlr := RegisterDescriptor(D.EPOLLOUT, writeFd, D.QueueWriter);
      m_mqWriteHandler := hdlr;
      DisableDescriptor(hdlr.value, D.EPOLLOUT);
    }

    method CreateInternalMQ(readFd: int, writeFd: int)
      requires readFd >= 0 && writeFd >= 0
      modifies this`descriptors, this`m_cblist, this`descriptorCount, this`clash, this`kernel
      modifies this`m_mqReadHandler, this`m_mqWriteHandler, this`m_mqid0, this`m_mqid1, this`early
      ensures Ds() == QueueDescriptors(old(Ds()), readFd, writeFd)
      ensures m_mqReadHandler == Some(old(descriptorCount)) && m_mqWriteHandler == Some(old(descriptorCount) + 1)
      ensures m_mqid0 == readFd && m_mqid1 == writeFd && early == |mq.queue.accepted|
    {
      m_mqid0, m_mqid1 := readFd, writeFd;
      m_mqReadHandler := RegisterDescriptor(D.EPOLLIN, readFd, D.QueueReader);
      ghost var ds := Ds();
      HookWriter(writeFd);
      assert Ds() == D.Disable(D.Register(ds, D.EPOLLOUT, writeFd, D.QueueWriter), ds.next, D.EPOLLOUT);
      early := |mq.queue.accepted|;
    }

    method ReadClocks(cpu: Reading, wall: Reading)
      modifies this`m_cpuTime, this`m_realTime
      ensures C() == old(C()).(cpu := Align(cpu), wall := Align(wall))
    {
      m_cpuTime, m_realTime := Align(cpu), Align(wall);
    }

    method CreateQueueNow(readFd: int, writeFd: int)
      requires readFd >= 0 && writeFd >= 0
      modifies this
      ensures C() == CreateQueue(old(C()), readFd, writeFd)
    {
      ghost var c := C();
      CreateInternalMQ(readFd, writeFd);
      assert C() == c.(ds := Ds(), reader := Some(c.ds.next), writer := Some(c.ds.next + 1),
                       readFd := readFd, writeFd := writeFd, early := |c.mq.accepted|);
    }

    /** MainLoop up to the loop, given the clocks and a new pipe. */
    method Start(cpu: Reading, wall: Reading, readFd: int, writeFd: int, env: Env)
      requires mq.Valid() && readFd >= 0 && writeFd >= 0
      modifies this, mq, mq.m_mqBuffer
      ensures mq.Valid() && (mq.m_mqBuffer == old(mq.m_mqBuffer) || fresh(mq.m_mqBuffer))
      ensures C() == Multiplexer.Start(old(C()), cpu, wall, readFd, writeFd, env)
    {
      ReadClocks(cpu, wall);
      CreateQueueNow(readFd, writeFd);
      RunCallback(env);
    }

    method Sleep(w: Wake, env: Env)
      requires Valid() && FiredOnce(C())
      modifies this, mq, mq.m_mqBuffer
      ensures Valid() && FiredOnce(C()) && (mq.m_mqBuffer == old(mq.m_mqBuffer) || fresh(mq.m_mqBuffer))
      ensures C() == Resume(old(C()), w, env)
    {
      Runs.ResumeInv(C(), w, env);
      match w
      case Ready(fds, cpu, wall) =>
        CheckTimeValidity(cpu, wall, env);
        HandleDescriptors(fds, env);
      case Interrupted(cpu, wall) =>
        ghost var c := C();
        CallInv(c, env);
        Runs.CallKeepsFired(c, Call(c, env));
        RunCallback(env);
        CheckTimeValidity(cpu, wall, env);
    }

    method ActivateRound()
      requires Valid()
      modifies this`descriptors, this`m_cblist, this`m_cbset, this`kernel, this`m_nfds, this`freedDescriptors
      ensures C() == old(C()).(ds := D.ActivateAll(old(Ds())))
    {
      ghost var c := C();
      ActivateDescriptors();
      assert C() == c.(ds := D.ActivateAll(c.ds));
    }

    method Round(env: Env) returns (tp: Option<Timespec>)
      requires Valid() && FiredOnce(C())
      modifies this, mq, mq.m_mqBuffer
      ensures Valid() && FiredOnce(C()) && (mq.m_mqBuffer == old(mq.m_mqBuffer) || fresh(mq.m_mqBuffer))
      ensures C() == Prepare(old(C()), env) && tp == Multiplexer.Delay(C())
      ensures m_tmrlist == [] && m_nfds == |m_cbset|
    {
      Runs.PrepareInv(C(), env);
      tp := HandleTimers(env);
      ActivateRound();
    }

    /** The loop of MainLoop, woken up as told; the result is the timeout of the
        last epoll_wait, if the loop still sleeps there. */
    method MainLoop(wakes: seq<Wake>, env: Env) returns (epollTimer: Option<int>)
      requires Valid() && FiredOnce(C())
      modifies this, mq, mq.m_mqBuffer
      ensures Valid() && FiredOnce(C())
      ensures C() == Loop(old(C()), wakes, env)
      ensures epollTimer == if Ends(C()) then None else Some(EpollTimer(C()))
      ensures epollTimer.None? <==> m_quit || (m_cbset == [] && forall r | r in T.Pending(Tm()) :: !T.IsActive(Tm(), r))
    {
      var n := 0;
      while true
        invariant 0 <= n <= |wakes| && Valid() && FiredOnce(C())
        invariant mq.m_mqBuffer == old(mq.m_mqBuffer) || fresh(mq.m_mqBuffer)
        invariant Loop(C(), wakes[n..], env) == Loop(old(C()), wakes, env)
        decreases |wakes| - n
      {
        var tp := Round(env);
        Runs.DoneIff(C());
        if m_quit || (m_nfds <= 0 && tp.None?) {
          return None;
        }
        var timeout := if tp.None? then -1 else EpollMillis(tp.value);
        if n == |wakes| {
          return Some(timeout);
        }
        assert wakes[n..][0] == wakes[n] && wakes[n..][1..] == wakes[n + 1..];
        Sleep(wakes[n], env);
        n := n + 1;
      }
    }

    // ---- the destructor ----

    method DestroyDescriptors()
      requires D.Valid(Ds())
      modifies this`descriptors, this`m_cblist, this`m_cbset, this`freedDescriptors
      ensures Ds() == D.Destroy(old(Ds()))
    {
      var i := 0;
      while i < |m_cblist|
        invariant 0 <= i <= |m_cblist|
        invariant D.Destroy(Ds().(list := m_cblist[i..])) == D.Destroy(old(Ds()))
      {
        FreeListed(m_cblist[i]);
        i := i + 1;
      }
      m_cblist := [];
      FreeInstalled();
    }

    method FreeListed(hdlr: D.Ref)
      modifies this`descriptors, this`m_cbset, this`freedDescriptors
      ensures m_cbset == D.Without(old(m_cbset), hdlr)
      ensures descriptors == old(descriptors) - {hdlr} && freedDescriptors == old(freedDescriptors) + [hdlr]
    {
      var ci := FindSlot(hdlr);
      if ci != |m_cbset| {
        m_cbset := m_cbset[..ci] + m_cbset[ci + 1..];
      }
      descriptors := descriptors - {hdlr};
      freedDescriptors := freedDescriptors + [hdlr];
    }

    method FreeInstalled()
      modifies this`descriptors, this`m_cbset, this`freedDescriptors
      ensures descriptors == map h | h in old(descriptors) && h !in D.Handlers(old(m_cbset)) :: old(descriptors)[h]
      ensures freedDescriptors == old(freedDescriptors) + D.Handlers(old(m_cbset)) && m_cbset == []
    {
      ghost var handlers := D.Handlers(m_cbset);
      var i := 0;
      while i < |m_cbset|
        invariant 0 <= i <= |m_cbset| && m_cbset == old(m_cbset)
        invariant descriptors == map h | h in old(descriptors) && h !in handlers[..i] :: old(descriptors)[h]
        invariant freedDescriptors == old(freedDescriptors) + handlers[..i]
      {
        descriptors := descriptors - {m_cbset[i].hdlr};
        freedDescriptors := freedDescriptors + [m_cbset[i].hdlr];
        assert handlers[..i + 1] == handlers[..i] + [m_cbset[i].hdlr];
        i := i + 1;
      }
      assert handlers[..i] == handlers;
      m_cbset := [];
    }

    method DeletePrepared()
      modifies this`timers, this`m_tmrlist, this`deletedTimers
      ensures timers == map r | r in old(timers) && r !in old(m_tmrlist) :: old(timers)[r]
      ensures deletedTimers == old(deletedTimers) + old(m_tmrlist) && m_tmrlist == []
    {
      var i := 0;
      while i < |m_tmrlist|
        invariant 0 <= i <= |m_tmrlist| && m_tmrlist == old(m_tmrlist)
        invariant timers == map r | r in old(timers) && r !in m_tmrlist[..i] :: old(timers)[r]
        invariant deletedTimers == old(deletedTimers) + m_tmrlist[..i]
      {
        assert m_tmrlist[..i + 1] == m_tmrlist[..i] + [m_tmrlist[i]];
        timers := timers - {m_tmrlist[i]};
        deletedTimers := deletedTimers + [m_tmrlist[i]];
        i := i + 1;
      }
      assert m_tmrlist[..i] == m_tmrlist;
      m_tmrlist := [];
    }

    method DestroyTimers()
      modifies this`timers, this`m_tmrlist, this`m_tmrset, this`deletedTimers
      ensures Tm() == T.Destroy(old(Tm()))
    {
      DeletePrepared();
      assert m_tmrset[..|m_tmrset|] == m_tmrset;
      DeleteDue(|m_tmrset|);
    }

    method StopForGood()
      requires Valid()
      modifies this`descriptors, this`m_cblist, this`kernel
      modifies this`m_mqReadHandler, this`m_mqWriteHandler, this`m_mqid0, this`m_mqid1
      ensures D.Valid(Ds()) && T.Valid(Tm())
    {
      StopValid(C());
      StopMQ();
    }

    /** ~StatmRunningContext: every handler is freed exactly once, and every
        timer deleted exactly once unless it was dropped. */
    method Destroy()
      requires Valid()
      modifies this
      ensures forall h: D.Ref | h < descriptorCount :: D.At(Ds(), h, D.Freed)
      ensures forall r: T.Ref | r < timerCount :: Count(deletedTimers, r) == if r in droppedTimers then 0 else 1
      ensures descriptorCount == old(descriptorCount) && timerCount == old(timerCount)
    {
      StopForGood();
      DestroyAllDescriptors();
      ghost var ds := Ds();
      DestroyAllTimers();
      assert Ds() == ds;
    }

    method DestroyAllTimers()
      requires T.Valid(Tm())
      modifies this`timers, this`m_tmrlist, this`m_tmrset, this`deletedTimers
      ensures forall r: T.Ref | r < timerCount :: Count(deletedTimers, r) == if r in droppedTimers then 0 else 1
    {
      T.DestroyDeletesOnce(Tm());
      DestroyTimers();
    }

    method DestroyAllDescriptors()
      requires D.Valid(Ds())
      modifies this`descriptors, this`m_cblist, this`m_cbset, this`freedDescriptors
      ensures forall h: D.Ref | h < descriptorCount :: D.At(Ds(), h, D.Freed)
    {
      D.DestroyFreesOnce(Ds());
      ghost var ds := Ds();
      DestroyDescriptors();
      DestroyKeepsCount(ds);
    }
  }
}
