/** What a callback does: the operations it is made of are carried out, all of
    them and in their order.  What they ask for is read off the list of
    operations from its end; the program carries them out from its beginning. */
module Callbacks {
  import opened Options
  import opened Timespecs
  import opened Multiplexer
  import opened MultiplexerProofs
  import T = Timers
  import D = Descriptors
  import Q = InternalQueues
  import Runs = MultiplexerRuns

  function Front(ops: seq<Op>): seq<Op>
    requires ops != []
  {
    ops[..|ops| - 1]
  }

  function Last(ops: seq<Op>): Op
    requires ops != []
  {
    ops[|ops| - 1]
  }

  lemma InFront(ops: seq<Op>, op: Op)
    requires ops != []
    ensures op in ops <==> op in Front(ops) || op == Last(ops)
  {
    assert ops == Front(ops) + [Last(ops)];
  }

  lemma {:induction false} ApplyAllLast(c: Ctx, ops: seq<Op>)
    requires ops != []
    ensures ApplyAll(c, ops) == Apply(ApplyAll(c, Front(ops)), Last(ops))
    decreases |ops|
  {
    if |ops| == 1 {
      assert ops[1..] == [] && Front(ops) == [];
    } else {
      assert Front(ops)[0] == ops[0] && Front(ops)[1..] == Front(ops[1..]) && Last(ops[1..]) == Last(ops);
      ApplyAllLast(Apply(c, ops[0]), ops[1..]);
    }
  }

  // ---- what is asked for ----

  /** The times of the timers registered. */
  function Registrations(ops: seq<Op>): seq<Timespec>
    decreases |ops|
  {
    if ops == [] then []
    else if Last(ops).RegisterTimer? then Registrations(Front(ops)) + [Last(ops).t]
    else Registrations(Front(ops))
  }

  /** What the last EnableTimer or DisableTimer for it makes of a timer. */
  function Toggled(ops: seq<Op>, r: T.Ref, was: bool): bool
    decreases |ops|
  {
    if ops == [] then was
    else if Last(ops) == EnableTimer(r) then true
    else if Last(ops) == DisableTimer(r) then false
    else Toggled(Front(ops), r, was)
  }

  datatype Birth = Birth(flags: D.Flags, fd: int)

  /** The handlers registered for a descriptor that is none below 0. */
  function Births(ops: seq<Op>): seq<Birth>
    decreases |ops|
  {
    if ops == [] then []
    else if Last(ops).RegisterDescriptor? && Last(ops).fd >= 0 then
      Births(Front(ops)) + [Birth(Last(ops).flags, Last(ops).fd)]
    else Births(Front(ops))
  }

  /** What the last EnableDescriptor or DisableDescriptor that names the bit makes
      of it. */
  function Asked(ops: seq<Op>, h: D.Ref, bit: nat, was: bool): bool
    decreases |ops|
  {
    if ops == [] then was
    else if Last(ops).EnableDescriptor? && Last(ops).handler == h && bit in Last(ops).flags then true
    else if Last(ops).DisableDescriptor? && Last(ops).handler == h && bit in Last(ops).flags then false
    else Asked(Front(ops), h, bit, was)
  }

  /** The messages accepted: all that memory was found for, others where there was
      room, in the order they were sent. */
  ghost predicate Takes(accepted: seq<Q.Message>, ops: seq<Op>)
    decreases |ops|
  {
    if ops == [] then accepted == []
    else if Last(ops).MQSend? then
      || (accepted != [] && accepted[|accepted| - 1] == Last(ops).m && Takes(accepted[..|accepted| - 1], Front(ops)))
      || (!Last(ops).memory && Takes(accepted, Front(ops)))
    else Takes(accepted, Front(ops))
  }

  // ---- what is done ----

  /** New timers are prepared, active, with the time they were registered for; the
      others differ in their activity alone. */
  ghost predicate TimersDid(s: T.Timers, s': T.Timers, ops: seq<Op>) {
    var ts := Registrations(ops);
    && s'.running == s.running && s'.next == s.next + |ts|
    && |s'.list| == |s.list| + |ts| && s.list <= s'.list
    && (forall i | 0 <= i < |ts| :: NewTimer(s', |s.list| + i, s.next + i, Align(ts[i]), DisableTimer(s.next + i) in ops))
    && (forall r | r in s.objects ::
          r in s'.objects && s'.objects[r] == T.Timer(s.objects[r].t, Toggled(ops, r, s.objects[r].active)))
  }

  ghost predicate NewTimer(s: T.Timers, at: nat, r: T.Ref, t: Timespec, disabled: bool) {
    at < |s.list| && s.list[at] == r && r in s.objects && s.objects[r].t == t && (!disabled ==> s.objects[r].active)
  }

  predicate Touches(op: Op, h: D.Ref) {
    (op.EnableDescriptor? || op.DisableDescriptor? || op.RemoveDescriptor?) && op.handler == h
  }

  ghost predicate NewHandler(s: D.Descriptors, h: D.Ref, b: Birth, ops: seq<Op>) {
    && h in s.objects && s.objects[h].fd == b.fd && s.objects[h].kind == D.User && h in s.list
    && ((forall op | op in ops :: !Touches(op, h)) ==> s.objects[h] == D.Descriptor(b.fd, b.flags, D.User, false))
  }

  ghost predicate OldHandler(d: D.Descriptor, d': D.Descriptor, h: D.Ref, ops: seq<Op>) {
    && d'.fd == d.fd && d'.kind == d.kind
    && (d'.deleted <==> RemoveDescriptor(h) in ops)
    && (!d'.deleted ==> forall bit: nat :: bit in d'.flags <==> Asked(ops, h, bit, bit in d.flags))
  }

  /** New handlers are prepared; the program's own among the others are deleted if
      a removal is asked for, and have the flags last asked for if not. */
  ghost predicate DescriptorsDid(s: D.Descriptors, s': D.Descriptors, ops: seq<Op>) {
    var bs := Births(ops);
    && s'.installed == s.installed && s'.next == s.next + |bs|
    && (forall i | 0 <= i < |bs| :: NewHandler(s', s.next + i, bs[i], ops))
    && (forall h | h in s.objects && s.objects[h].kind == D.User && !s.objects[h].deleted ::
          h in s'.objects && OldHandler(s.objects[h], s'.objects[h], h, ops))
  }

  /** Removed, and its descriptor closed. */
  ghost predicate Stopped(s: D.Descriptors, h: Option<D.Ref>, fd: int) {
    h.Some? ==> h.value in s.objects && s.objects[h.value].deleted && (fd > 0 ==> fd !in s.kernel)
  }

  ghost predicate MessagesDid(q: Q.Queue, q': Q.Queue, ops: seq<Op>) {
    q.accepted <= q'.accepted && q'.written == q.written && Takes(q'.accepted[|q.accepted|..], ops)
  }

  /** The queue's handlers and descriptors. */
  ghost predicate EndsDid(c: Ctx, c': Ctx, stopped: bool) {
    if stopped then
      && c'.reader.None? && c'.writer.None? && c'.readFd == -1 && c'.writeFd == -1
      && Stopped(c'.ds, c.reader, c.readFd) && Stopped(c'.ds, c.writer, c.writeFd)
    else
      c'.reader == c.reader && c'.writer == c.writer && c'.readFd == c.readFd && c'.writeFd == c.writeFd
  }

  ghost predicate QueueDid(c: Ctx, c': Ctx, ops: seq<Op>) {
    MessagesDid(c.mq, c'.mq, ops) && EndsDid(c, c', StopMQ in ops)
  }

  ghost predicate Did(c: Ctx, c': Ctx, ops: seq<Op>) {
    && TimersDid(c.tm, c'.tm, ops) && DescriptorsDid(c.ds, c'.ds, ops) && QueueDid(c, c', ops)
    && (c'.quit <==> c.quit || Quit in ops)
  }

  // ---- one operation more ----

  lemma AllInFront(ops: seq<Op>)
    requires ops != []
    ensures forall op :: op in ops <==> op in Front(ops) || op == Last(ops)
  {
    forall op ensures op in ops <==> op in Front(ops) || op == Last(ops) {
      InFront(ops, op);
    }
  }

  lemma TimersStay(s: T.Timers, m: T.Timers, ops: seq<Op>)
    requires ops != [] && TimersDid(s, m, Front(ops))
    requires !Last(ops).RegisterTimer? && !Last(ops).EnableTimer? && !Last(ops).DisableTimer?
    ensures TimersDid(s, m, ops)
  {
    AllInFront(ops);
  }

  lemma TimersToggle(s: T.Timers, m: T.Timers, ops: seq<Op>, r: T.Ref, active: bool)
    requires T.Valid(s) && T.Valid(m) && ops != [] && TimersDid(s, m, Front(ops))
    requires Last(ops) == if active then EnableTimer(r) else DisableTimer(r)
    ensures TimersDid(s, T.SetActive(m, r, active), ops)
  {
    AllInFront(ops);
    var m', ts := T.SetActive(m, r, active), Registrations(ops);
    forall i | 0 <= i < |ts|
      ensures NewTimer(m', |s.list| + i, s.next + i, Align(ts[i]), DisableTimer(s.next + i) in ops)
    {
      NewToggled(m, ops, r, active, |s.list| + i, s.next + i, Align(ts[i]));
    }
    forall q | q in s.objects
      ensures q in m'.objects && m'.objects[q] == T.Timer(s.objects[q].t, Toggled(ops, q, s.objects[q].active))
    {
    }
  }

  lemma NewToggled(m: T.Timers, ops: seq<Op>, r: T.Ref, active: bool, at: nat, q: T.Ref, t: Timespec)
    requires ops != [] && Last(ops) == if active then EnableTimer(r) else DisableTimer(r)
    requires NewTimer(m, at, q, t, DisableTimer(q) in Front(ops))
    ensures NewTimer(T.SetActive(m, r, active), at, q, t, DisableTimer(q) in ops)
  {
    InFront(ops, DisableTimer(q));
  }

  lemma TimersRegister(s: T.Timers, m: T.Timers, ops: seq<Op>)
    requires T.Valid(s) && T.Valid(m) && ops != [] && TimersDid(s, m, Front(ops)) && Last(ops).RegisterTimer?
    ensures TimersDid(s, T.Register(m, Last(ops).t), ops)
  {
    AllInFront(ops);
    var m', ts := T.Register(m, Last(ops).t), Registrations(Front(ops));
    assert m.next !in m.objects;
    forall i | 0 <= i < |ts| + 1
      ensures NewTimer(m', |s.list| + i, s.next + i, Align((ts + [Last(ops).t])[i]), DisableTimer(s.next + i) in ops)
    {
      if i < |ts| {
        assert NewTimer(m, |s.list| + i, s.next + i, Align(ts[i]), DisableTimer(s.next + i) in Front(ops));
      }
    }
  }

  lemma TimersStep(s: T.Timers, m: Ctx, ops: seq<Op>)
    requires T.Valid(s) && T.Valid(m.tm) && ops != [] && TimersDid(s, m.tm, Front(ops))
    ensures TimersDid(s, Apply(m, Last(ops)).tm, ops)
  {
    match Last(ops)
    case RegisterTimer(t) => TimersRegister(s, m.tm, ops);
    case EnableTimer(r) => TimersToggle(s, m.tm, ops, r, true);
    case DisableTimer(r) => TimersToggle(s, m.tm, ops, r, false);
    case _ => TimersStay(s, m.tm, ops);
  }

  lemma {:induction false} TimersDo(c: Ctx, ops: seq<Op>)
    requires Inv(c)
    ensures TimersDid(c.tm, ApplyAll(c, ops).tm, ops)
    decreases |ops|
  {
    if ops != [] {
      TimersDo(c, Front(ops));
      ApplyAllInv(c, Front(ops));
      ApplyAllLast(c, ops);
      TimersStep(c.tm, ApplyAll(c, Front(ops)), ops);
    }
  }

  /** Nothing that the program's own handlers could notice. */
  ghost predicate SameForUsers(m: D.Descriptors, m': D.Descriptors) {
    && m'.installed == m.installed && m'.next == m.next && m.list <= m'.list
    && forall h | h in m.objects && m.objects[h].kind == D.User :: h in m'.objects && m'.objects[h] == m.objects[h]
  }

  lemma HandlersStay(s: D.Descriptors, m: D.Descriptors, m': D.Descriptors, ops: seq<Op>)
    requires ops != [] && DescriptorsDid(s, m, Front(ops)) && SameForUsers(m, m')
    requires !Last(ops).RegisterDescriptor? || Last(ops).fd < 0
    requires forall h | h in m.objects && m.objects[h].kind == D.User :: !Touches(Last(ops), h)
    ensures DescriptorsDid(s, m', ops)
  {
    AllInFront(ops);
    var bs := Births(ops);
    forall i | 0 <= i < |bs| ensures NewHandler(m', s.next + i, bs[i], ops) {
      assert NewHandler(m, s.next + i, bs[i], Front(ops));
    }
    forall h | h in s.objects && s.objects[h].kind == D.User && !s.objects[h].deleted
      ensures h in m'.objects && OldHandler(s.objects[h], m'.objects[h], h, ops)
    {
      assert OldHandler(s.objects[h], m.objects[h], h, Front(ops));
    }
  }

  /** One handler is new. */
  ghost predicate OneNew(m: D.Descriptors, m': D.Descriptors, b: Birth) {
    && m'.installed == m.installed && m'.next == m.next + 1 && m'.list == m.list + [m.next]
    && m.next !in m.objects && m'.objects == m.objects[m.next := D.Descriptor(b.fd, b.flags, D.User, false)]
  }

  lemma RegisterIsNew(s: D.Descriptors, b: Birth)
    requires D.Valid(s) && b.fd >= 0
    ensures OneNew(s, D.Register(s, b.flags, b.fd, D.User), b)
  {
    assert D.Placed(s, s.next);
  }

  lemma NewStill(m: D.Descriptors, m': D.Descriptors, b: Birth, h: D.Ref, was: Birth, ops: seq<Op>)
    requires ops != [] && OneNew(m, m', b) && NewHandler(m, h, was, Front(ops))
    ensures NewHandler(m', h, was, ops)
  {
    AllInFront(ops);
  }

  lemma HandlersRegister(s: D.Descriptors, m: D.Descriptors, m': D.Descriptors, ops: seq<Op>)
    requires ops != [] && DescriptorsDid(s, m, Front(ops)) && Last(ops).RegisterDescriptor? && Last(ops).fd >= 0
    requires OneNew(m, m', Birth(Last(ops).flags, Last(ops).fd))
    ensures DescriptorsDid(s, m', ops)
  {
    InFrontRemoval(ops);
    var b, before := Birth(Last(ops).flags, Last(ops).fd), Births(Front(ops));
    forall i | 0 <= i < |before| + 1 ensures NewHandler(m', s.next + i, (before + [b])[i], ops) {
      if i < |before| {
        NewStill(m, m', b, s.next + i, before[i], ops);
      }
    }
    forall h | h in s.objects && s.objects[h].kind == D.User && !s.objects[h].deleted
      ensures h in m'.objects && OldHandler(s.objects[h], m'.objects[h], h, ops)
    {
      assert OldHandler(s.objects[h], m.objects[h], h, Front(ops));
    }
  }

  lemma InFrontRemoval(ops: seq<Op>)
    requires ops != [] && !Last(ops).RemoveDescriptor?
    ensures forall h :: RemoveDescriptor(h) in ops <==> RemoveDescriptor(h) in Front(ops)
  {
    AllInFront(ops);
  }

  /** One handler is changed. */
  ghost predicate OnlyOne(m: D.Descriptors, m': D.Descriptors, q: D.Ref) {
    && q in m.objects && m'.installed == m.installed && m'.next == m.next && m.list <= m'.list
    && (forall h | h in m.objects :: h in m'.objects)
    && (forall h | h in m.objects && h != q :: m'.objects[h] == m.objects[h])
    && m'.objects[q].fd == m.objects[q].fd && m'.objects[q].kind == m.objects[q].kind
  }

  /** And it is changed in the way the last operation says. */
  ghost predicate AsTold(d: D.Descriptor, d': D.Descriptor, q: D.Ref, op: Op) {
    && (d'.deleted <==> d.deleted || op == RemoveDescriptor(q))
    && (!d'.deleted ==> forall bit: nat :: bit in d'.flags <==> Asked([op], q, bit, bit in d.flags))
  }

  lemma OneMore(d: D.Descriptor, m: D.Descriptor, m': D.Descriptor, q: D.Ref, ops: seq<Op>)
    requires ops != [] && OldHandler(d, m, q, Front(ops)) && AsTold(m, m', q, Last(ops))
    requires m'.fd == m.fd && m'.kind == m.kind
    ensures OldHandler(d, m', q, ops)
  {
    InFront(ops, RemoveDescriptor(q));
    assert Front([Last(ops)]) == [] && Last([Last(ops)]) == Last(ops);
    forall bit: nat ensures Asked(ops, q, bit, bit in d.flags)
                         == Asked([Last(ops)], q, bit, Asked(Front(ops), q, bit, bit in d.flags)) {
    }
  }

  lemma HandlersChange(s: D.Descriptors, m: D.Descriptors, m': D.Descriptors, ops: seq<Op>, q: D.Ref)
    requires ops != [] && DescriptorsDid(s, m, Front(ops)) && OnlyOne(m, m', q) && Touches(Last(ops), q)
    requires AsTold(m.objects[q], m'.objects[q], q, Last(ops))
    ensures DescriptorsDid(s, m', ops)
  {
    AllInFront(ops);
    var bs := Births(ops);
    forall i | 0 <= i < |bs| ensures NewHandler(m', s.next + i, bs[i], ops) {
      assert NewHandler(m, s.next + i, bs[i], Front(ops));
    }
    forall h | h in s.objects && s.objects[h].kind == D.User && !s.objects[h].deleted
      ensures h in m'.objects && OldHandler(s.objects[h], m'.objects[h], h, ops)
    {
      assert OldHandler(s.objects[h], m.objects[h], h, Front(ops));
      if h == q {
        OneMore(s.objects[h], m.objects[h], m'.objects[h], h, ops);
      }
    }
  }

  /** EnableDescriptor, DisableDescriptor and RemoveDescriptor. */
  lemma ToldHandler(c: Ctx, op: Op)
    requires op.EnableDescriptor? || op.DisableDescriptor? || op.RemoveDescriptor?
    requires Reachable(c, op.handler)
    ensures OnlyOne(c.ds, Apply(c, op).ds, op.handler)
    ensures AsTold(c.ds.objects[op.handler], Apply(c, op).ds.objects[op.handler], op.handler, op)
  {
    assert Front([op]) == [] && Last([op]) == op;
  }

  ghost predicate Private(s: D.Descriptors, h: Option<D.Ref>) {
    h.Some? ==> h.value in s.objects && s.objects[h.value].kind != D.User
  }

  lemma UnhookForUsers(s: D.Descriptors, h: Option<D.Ref>, fd: int)
    requires Private(s, h)
    ensures SameForUsers(s, Unhook(s, h, fd))
    ensures forall q | Private(s, q) :: Private(Unhook(s, h, fd), q)
  {
  }

  lemma StopForUsers(c: Ctx)
    requires Private(c.ds, c.reader) && Private(c.ds, c.writer)
    ensures SameForUsers(c.ds, StopQueue(c).ds)
  {
    UnhookForUsers(c.ds, c.reader, c.readFd);
    UnhookForUsers(Unhook(c.ds, c.reader, c.readFd), c.writer, c.writeFd);
  }

  lemma SendForUsers(c: Ctx, m: Q.Message, memory: bool)
    requires Private(c.ds, c.writer)
    ensures SameForUsers(c.ds, SendMessage(c, m, memory).ds)
  {
  }

  lemma PrivateOp(c: Ctx, op: Op)
    requires Hooks(c) && (op.MQSend? || op.StopMQ?)
    ensures SameForUsers(c.ds, Apply(c, op).ds)
  {
    if op.MQSend? {
      SendForUsers(c, op.m, op.memory);
    } else {
      StopForUsers(c);
    }
  }

  lemma HandlersStep(s: D.Descriptors, m: Ctx, ops: seq<Op>)
    requires D.Valid(s) && Inv(m) && ops != [] && DescriptorsDid(s, m.ds, Front(ops))
    ensures DescriptorsDid(s, Apply(m, Last(ops)).ds, ops)
  {
    var op := Last(ops);
    if op.RegisterDescriptor? && op.fd >= 0 {
      RegisterIsNew(m.ds, Birth(op.flags, op.fd));
      HandlersRegister(s, m.ds, Apply(m, op).ds, ops);
    } else if (op.EnableDescriptor? || op.DisableDescriptor? || op.RemoveDescriptor?) && Reachable(m, op.handler) {
      ToldHandler(m, op);
      HandlersChange(s, m.ds, Apply(m, op).ds, ops, op.handler);
    } else {
      if op.MQSend? || op.StopMQ? {
        PrivateOp(m, op);
      }
      HandlersStay(s, m.ds, Apply(m, op).ds, ops);
    }
  }

  lemma {:induction false} HandlersDo(c: Ctx, ops: seq<Op>)
    requires Inv(c)
    ensures DescriptorsDid(c.ds, ApplyAll(c, ops).ds, ops)
    decreases |ops|
  {
    if ops != [] {
      HandlersDo(c, Front(ops));
      ApplyAllInv(c, Front(ops));
      ApplyAllLast(c, ops);
      HandlersStep(c.ds, ApplyAll(c, Front(ops)), ops);
    }
  }

  // ---- the queue ----

  lemma TakesNothing(accepted: seq<Q.Message>, ops: seq<Op>)
    requires ops != [] && Takes(accepted, Front(ops)) && (Last(ops).MQSend? ==> !Last(ops).memory)
    ensures Takes(accepted, ops)
  {
  }

  lemma TakesOne(accepted: seq<Q.Message>, ops: seq<Op>)
    requires ops != [] && Takes(accepted, Front(ops)) && Last(ops).MQSend?
    ensures Takes(accepted + [Last(ops).m], ops)
  {
    assert (accepted + [Last(ops).m])[..|accepted|] == accepted;
  }

  lemma OpOnQueue(c: Ctx, op: Op)
    ensures Apply(c, op).mq == if op.MQSend? then Q.Send(c.mq, op.m, op.memory).0 else c.mq
  {
  }

  lemma MessagesStep(q: Q.Queue, m: Q.Queue, ops: seq<Op>)
    requires ops != [] && MessagesDid(q, m, Front(ops))
    ensures MessagesDid(q, if Last(ops).MQSend? then Q.Send(m, Last(ops).m, Last(ops).memory).0 else m, ops)
  {
    var added := m.accepted[|q.accepted|..];
    if Last(ops).MQSend? && Q.Send(m, Last(ops).m, Last(ops).memory).1 {
      TakesOne(added, ops);
      assert Q.Send(m, Last(ops).m, Last(ops).memory).0.accepted[|q.accepted|..] == added + [Last(ops).m];
    } else {
      TakesNothing(added, ops);
    }
  }

  lemma StoppedNow(s: D.Descriptors, h: Option<D.Ref>, fd: int, g: Option<D.Ref>, gd: int)
    requires h.Some? ==> h.value in s.objects
    requires g.Some? ==> g.value in s.objects
    ensures Stopped(Unhook(Unhook(s, h, fd), g, gd), h, fd) && Stopped(Unhook(Unhook(s, h, fd), g, gd), g, gd)
  {
  }

  lemma StoppedStill(m: Ctx, op: Op, h: Option<D.Ref>, fd: int)
    requires Inv(m) && Stopped(m.ds, h, fd)
    ensures Stopped(Apply(m, op).ds, h, fd)
  {
    ApplyInv(m, op);
    KernelGrowsNot(m, op);
  }

  lemma UnhookKernel(s: D.Descriptors, h: Option<D.Ref>, fd: int)
    ensures Unhook(s, h, fd).kernel.Keys <= s.kernel.Keys
  {
  }

  lemma FlagsKernel(s: D.Descriptors, h: D.Ref, flags: D.Flags)
    ensures D.SetFlags(s, h, flags).kernel.Keys == s.kernel.Keys
  {
  }

  lemma SendKernel(c: Ctx, m: Q.Message, memory: bool)
    ensures SendMessage(c, m, memory).ds.kernel.Keys == c.ds.kernel.Keys
  {
  }

  /** Only ActivateDescriptors tells the kernel of new descriptors. */
  lemma KernelGrowsNot(m: Ctx, op: Op)
    ensures Apply(m, op).ds.kernel.Keys <= m.ds.kernel.Keys
  {
    match op
    case StopMQ =>
      UnhookKernel(m.ds, m.reader, m.readFd);
      UnhookKernel(Unhook(m.ds, m.reader, m.readFd), m.writer, m.writeFd);
    case MQSend(msg, memory) => SendKernel(m, msg, memory);
    case _ =>
  }

  lemma EndsStay(c: Ctx, op: Op)
    requires op != StopMQ
    ensures EndsDid(c, Apply(c, op), false)
  {
  }

  lemma EndsStep(c: Ctx, m: Ctx, stopped: bool, op: Op)
    requires Inv(c) && Inv(m) && EndsDid(c, m, stopped) && KeepsDescriptors(c.ds, m.ds)
    ensures EndsDid(c, Apply(m, op), stopped || op == StopMQ)
  {
    if stopped {
      StoppedStill(m, op, c.reader, c.readFd);
      StoppedStill(m, op, c.writer, c.writeFd);
    } else if op == StopMQ {
      StoppedNow(m.ds, m.reader, m.readFd, m.writer, m.writeFd);
    }
    if op != StopMQ {
      EndsStay(m, op);
    }
  }

  lemma QueueStep(c: Ctx, m: Ctx, ops: seq<Op>)
    requires Inv(c) && Inv(m) && ops != [] && QueueDid(c, m, Front(ops)) && KeepsDescriptors(c.ds, m.ds)
    ensures QueueDid(c, Apply(m, Last(ops)), ops)
  {
    InFront(ops, StopMQ);
    MessagesStep(c.mq, m.mq, ops);
    OpOnQueue(m, Last(ops));
    EndsStep(c, m, StopMQ in Front(ops), Last(ops));
  }

  lemma {:induction false} QueueDoes(c: Ctx, ops: seq<Op>)
    requires Inv(c)
    ensures QueueDid(c, ApplyAll(c, ops), ops) && (ApplyAll(c, ops).quit <==> c.quit || Quit in ops)
    decreases |ops|
  {
    if ops != [] {
      QueueDoes(c, Front(ops));
      ApplyAllInv(c, Front(ops));
      ApplyAllLast(c, ops);
      QueueStep(c, ApplyAll(c, Front(ops)), ops);
      InFront(ops, Quit);
      QuitStep(ApplyAll(c, Front(ops)), Last(ops));
    }
  }

  lemma QuitStep(c: Ctx, op: Op)
    ensures Apply(c, op).quit <==> c.quit || op == Quit
  {
  }

  // ---- callbacks ----

  /** A callback carries out what it is made of. */
  lemma CallDoes(c: Ctx, env: Env)
    requires Inv(c)
    ensures Did(c, Call(c, env), env.script(c.calls)) && Call(c, env).calls == c.calls + 1
  {
    var c1 := c.(calls := c.calls + 1);
    TimersDo(c1, env.script(c.calls));
    HandlersDo(c1, env.script(c.calls));
    QueueDoes(c1, env.script(c.calls));
    CallsCounted(c1, env.script(c.calls));
  }

  ghost predicate Carried(c: Ctx, c': Ctx, ops: seq<Op>) {
    Inv(c) ==> Did(c, c', ops)
  }

  lemma CallCarries(c: Ctx, env: Env)
    ensures Carried(c, Call(c, env), env.script(c.calls))
  {
    if Inv(c) {
      CallDoes(c, env);
    }
  }

  lemma {:induction false} CallsCounted(c: Ctx, ops: seq<Op>)
    ensures ApplyAll(c, ops).calls == c.calls
    decreases |ops|
  {
    if ops != [] {
      CallsCounted(Apply(c, ops[0]), ops[1..]);
    }
  }

  /** The callback of a due timer: the timer is switched off first, and an inactive
      one has none. */
  lemma FireDoes(c: Ctx, e: T.Entry, env: Env)
    requires Inv(c)
    ensures !T.IsActive(c.tm, e.tmr) ==> Fire(c, e, env) == c
    ensures T.IsActive(c.tm, e.tmr) ==>
      var c', ops := Fire(c, e, env), env.script(c.calls);
      && DescriptorsDid(c.ds, c'.ds, ops) && QueueDid(c, c', ops) && (c'.quit <==> c.quit || Quit in ops)
      && TimersDid(c.tm.(objects := c.tm.objects[e.tmr := c.tm.objects[e.tmr].(active := false)]), c'.tm, ops)
      && c'.calls == c.calls + 1
  {
    if T.IsActive(c.tm, e.tmr) {
      SetActiveKeeps(c.tm, e.tmr, false);
      TimerOpInv(c, T.SetActive(c.tm, e.tmr, false));
      CallDoes(c.(tm := T.SetActive(c.tm, e.tmr, false), fired := c.fired + [Firing(e.tmr, e.key, c.wall)]), env);
    }
  }

  /** The queue's write handler: what the pipe takes is written, and the handler
      stops asking once nothing is left. */
  ghost predicate WriterDid(c: Ctx, c': Ctx, h: D.Ref, room: nat) {
    var k := Q.Passes(c.mq.pending, room);
    && c'.mq.written == c.mq.written + c.mq.pending[..k] && c'.mq.pending == c.mq.pending[k..]
    && h in c.ds.objects && h in c'.ds.objects
    && c'.ds.objects[h].flags == (if k == |c.mq.pending| then c.ds.objects[h].flags - D.EPOLLOUT else c.ds.objects[h].flags)
    && c'.tm == c.tm && (c'.quit <==> c.quit)
  }

  /** The callback of a ready descriptor; a removed handler has none. */
  lemma InvokeDoes(c: Ctx, h: D.Ref, env: Env)
    requires Inv(c) && h in c.ds.objects
    ensures var c' := Invoke(c, h, env);
      if c.ds.objects[h].deleted then c' == c
      else
        && c'.calls == c.calls + 1
        && (if c.ds.objects[h].kind == D.QueueWriter then WriterDid(c, c', h, env.pipe(c.calls))
            else Did(c, c', env.script(c.calls)))
  {
    if !c.ds.objects[h].deleted {
      if c.ds.objects[h].kind == D.QueueWriter {
        Q.DrainSplits(c.mq, env.pipe(c.calls));
      } else {
        CallDoes(c.(invoked := c.invoked + [h]), env);
      }
    }
  }

  /** The clocks do not matter for what is done. */
  lemma DidWithClocks(c: Ctx, c': Ctx, ops: seq<Op>, cpu: Timespec, wall: Timespec)
    requires Did(c.(cpu := cpu, wall := wall), c', ops)
    ensures Did(c, c', ops)
  {
  }

  /** By how much the wall clock ran ahead. */
  function Ahead(c: Ctx, cpu: Reading, wall: Reading): int {
    (Nanos(Align(wall)) - Nanos(c.wall)) - (Nanos(Align(cpu)) - Nanos(c.cpu))
  }

  lemma NoHook(c: Ctx, cpu: Reading, wall: Reading, env: Env)
    requires -SEC_TO_NSEC <= Ahead(c, cpu, wall) <= SEC_TO_NSEC
    ensures CheckTime(c, cpu, wall, env) == c.(cpu := Align(cpu), wall := Align(wall))
  {
  }

  lemma HookCalled(c: Ctx, cpu: Reading, wall: Reading, env: Env)
    requires !(-SEC_TO_NSEC <= Ahead(c, cpu, wall) <= SEC_TO_NSEC)
    ensures CheckTime(c, cpu, wall, env)
         == Call(c.(tm := T.Compensate(c.tm, Ahead(c, cpu, wall)), cpu := Align(cpu), wall := Align(wall)), env)
  {
  }

  /** The time hook is called when the clocks have come apart by more than a second,
      after the timers have been moved, and only then. */
  lemma HookDoes(c: Ctx, cpu: Reading, wall: Reading, env: Env)
    requires RoundInv(c)
    ensures var c' := CheckTime(c, cpu, wall, env);
      if -SEC_TO_NSEC <= Ahead(c, cpu, wall) <= SEC_TO_NSEC then c' == c.(cpu := Align(cpu), wall := Align(wall))
      else c'.calls == c.calls + 1 && Did(c.(tm := T.Compensate(c.tm, Ahead(c, cpu, wall))), c', env.script(c.calls))
  {
    var d := Ahead(c, cpu, wall);
    if -SEC_TO_NSEC <= d <= SEC_TO_NSEC {
      NoHook(c, cpu, wall, env);
    } else {
      var c1 := c.(tm := T.Compensate(c.tm, d));
      SkewAligned(c, cpu, wall);
      CompensateInv(c, d);
      Runs.ClocksInv(c1, Align(cpu), Align(wall));
      HookCalled(c, cpu, wall, env);
      CallDoes(c1.(cpu := Align(cpu), wall := Align(wall)), env);
      DidWithClocks(c1, CheckTime(c, cpu, wall, env), env.script(c.calls), Align(cpu), Align(wall));
    }
  }

  /** After an interruption the signals' callbacks run, and then the clocks are
      looked at. */
  lemma SignalsDo(c: Ctx, cpu: Reading, wall: Reading, env: Env) returns (m: Ctx)
    requires RoundInv(c)
    ensures RoundInv(m) && Did(c, m, env.script(c.calls)) && m.calls == c.calls + 1
    ensures Resume(c, Interrupted(cpu, wall), env) == CheckTime(m, cpu, wall, env)
  {
    CallDoes(c, env);
    CallInv(c, env);
    m := Call(c, env);
  }

  /** MainLoop before its loop: the clocks are read, the pipe is made, and the
      initialisation callback runs. */
  lemma StartDoes(c: Ctx, cpu: Reading, wall: Reading, readFd: int, writeFd: int, env: Env)
    requires RoundInv(c) && c.writer.None? && c.reader.None? && readFd >= 0 && writeFd >= 0
    ensures var c' := Start(c, cpu, wall, readFd, writeFd, env);
      && c'.cpu == Align(cpu) && c'.wall == Align(wall) && c'.calls == c.calls + 1
      && Did(CreateQueue(c, readFd, writeFd), c', env.script(c.calls))
  {
    var c1 := c.(cpu := Align(cpu), wall := Align(wall));
    Runs.ClocksInv(c, Align(cpu), Align(wall));
    Runs.CreateQueueInv(c1, readFd, writeFd);
    CallDoes(CreateQueue(c1, readFd, writeFd), env);
    CallInv(CreateQueue(c1, readFd, writeFd), env);
    DidWithClocks(CreateQueue(c, readFd, writeFd), Start(c, cpu, wall, readFd, writeFd, env), env.script(c.calls),
                  Align(cpu), Align(wall));
  }
}
