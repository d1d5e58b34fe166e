/** One round of the multiplexer's main loop as functions on a value: what each
    public operation does, what the callbacks may do, and in which order the
    loop runs them.  A callback is an arbitrary list of public operations; the
    n-th callback of a run takes its list from env.script(n). */
module Multiplexer {
  import opened Options
  import opened Timespecs
  import T = Timers
  import D = Descriptors
  import Q = InternalQueues

  datatype Op =
    | RegisterTimer(t: Timespec)
    | EnableTimer(timer: T.Ref)
    | DisableTimer(timer: T.Ref)
    | RegisterDescriptor(flags: D.Flags, fd: int)
    | EnableDescriptor(handler: D.Ref, flags: D.Flags)
    | DisableDescriptor(handler: D.Ref, flags: D.Flags)
    | RemoveDescriptor(handler: D.Ref)
    | MQSend(m: Q.Message, memory: bool)
    | StopMQ
    | Quit

  /** What the world decides: the callbacks' operations, and how many packets
      the pipe takes each time the queue is written. */
  datatype Env = Env(script: nat -> seq<Op>, pipe: nat -> nat)

  datatype Firing = Firing(tmr: T.Ref, key: Timespec, now: Timespec)

  /** The fields of StatmRunningContext that the loop works on.  `fired` and
      `invoked` are the history of timer and descriptor callbacks; `early` is
      how many messages had been accepted when the queue got its handlers. */
  datatype Ctx = Ctx(
    tm: T.Timers,
    ds: D.Descriptors,
    mq: Q.Queue,
    reader: Option<D.Ref>,
    writer: Option<D.Ref>,
    readFd: int,
    writeFd: int,
    cpu: Timespec,
    wall: Timespec,
    quit: bool,
    calls: nat,
    fired: seq<Firing>,
    invoked: seq<D.Ref>,
    early: nat)

  // ---- public operations ----

  /** Callbacks hold the handlers they registered, never the private two. */
  predicate Reachable(c: Ctx, h: D.Ref) {
    h in c.ds.objects && c.ds.objects[h].kind == D.User
  }

  function EnableWriter(c: Ctx): Ctx {
    if c.writer.Some? then c.(ds := D.Enable(c.ds, c.writer.value, D.EPOLLOUT)) else c
  }

  function SendMessage(c: Ctx, m: Q.Message, memory: bool): Ctx {
    var (q, ok) := Q.Send(c.mq, m, memory);
    if ok then EnableWriter(c.(mq := q)) else c.(mq := q)
  }

  /** Removal of one of the queue's handlers and close of its descriptor. */
  function Unhook(ds: D.Descriptors, h: Option<D.Ref>, fd: int): D.Descriptors {
    var ds' := if h.Some? then D.Remove(ds, h.value) else ds;
    if fd > 0 then ds'.(kernel := ds'.kernel - {fd}) else ds'
  }

  function StopQueue(c: Ctx): Ctx {
    c.(ds := Unhook(Unhook(c.ds, c.reader, c.readFd), c.writer, c.writeFd),
       reader := None, writer := None, readFd := -1, writeFd := -1)
  }

  function Apply(c: Ctx, op: Op): Ctx {
    match op
    case RegisterTimer(t) => c.(tm := T.Register(c.tm, t))
    case EnableTimer(r) => c.(tm := T.SetActive(c.tm, r, true))
    case DisableTimer(r) => c.(tm := T.SetActive(c.tm, r, false))
    case RegisterDescriptor(flags, fd) => c.(ds := D.Register(c.ds, flags, fd, D.User))
    case EnableDescriptor(h, flags) => if Reachable(c, h) then c.(ds := D.Enable(c.ds, h, flags)) else c
    case DisableDescriptor(h, flags) => if Reachable(c, h) then c.(ds := D.Disable(c.ds, h, flags)) else c
    case RemoveDescriptor(h) => if Reachable(c, h) then c.(ds := D.Remove(c.ds, h)) else c
    case MQSend(m, memory) => SendMessage(c, m, memory)
    case StopMQ => StopQueue(c)
    case Quit => c.(quit := true)
  }

  function ApplyAll(c: Ctx, ops: seq<Op>): Ctx
    decreases |ops|
  {
    if ops == [] then c else ApplyAll(Apply(c, ops[0]), ops[1..])
  }

  function Call(c: Ctx, env: Env): Ctx {
    ApplyAll(c.(calls := c.calls + 1), env.script(c.calls))
  }

  // ---- timers ----

  function Fire(c: Ctx, e: T.Entry, env: Env): Ctx {
    if T.IsActive(c.tm, e.tmr) then
      Call(c.(tm := T.SetActive(c.tm, e.tmr, false), fired := c.fired + [Firing(e.tmr, e.key, c.wall)]), env)
    else c
  }

  function FireAll(c: Ctx, due: seq<T.Entry>, env: Env): (c': Ctx)
    decreases |due|
  {
    if due == [] then c else FireAll(Fire(c, due[0], env), due[1..], env)
  }

  function HandleTimers(c: Ctx, env: Env): Ctx {
    var n := T.UpperBound(c.tm.running, c.wall);
    var c' := FireAll(c, c.tm.running[..n], env);
    if n <= |c'.tm.running| then c'.(tm := T.MoveAll(T.DeleteDue(c'.tm, n))) else c'
  }

  /** CheckTimeValidity with the two clocks just read. */
  function CheckTime(c: Ctx, cpu: Reading, wall: Reading, env: Env): Ctx {
    var cpuStop, wallStop := Align(cpu), Align(wall);
    var diff := Skew(c, cpu, wall);
    var c' := c.(cpu := cpuStop, wall := wallStop);
    if diff > SEC_TO_NSEC || diff < -SEC_TO_NSEC then Call(c'.(tm := T.Compensate(c'.tm, diff)), env) else c'
  }

  /** By how much the wall clock ran ahead of the monotonic one. */
  function Skew(c: Ctx, cpu: Reading, wall: Reading): int {
    Disagreement(c.cpu, c.wall, Align(cpu), Align(wall))
  }

  function Disagreement(cpu: Timespec, wall: Timespec, cpuStop: Timespec, wallStop: Timespec): int {
    (Nanos(wallStop) - Nanos(wall)) - (Nanos(cpuStop) - Nanos(cpu))
  }

  // ---- descriptors ----

  function WriteQueue(c: Ctx, h: D.Ref, room: nat): Ctx {
    var q := Q.Drain(c.mq, room);
    if q.pending == [] then c.(mq := q, ds := D.Disable(c.ds, h, D.EPOLLOUT)) else c.(mq := q)
  }

  function Invoke(c: Ctx, h: D.Ref, env: Env): Ctx {
    if h !in c.ds.objects || c.ds.objects[h].deleted then c
    else
      var c' := c.(invoked := c.invoked + [h]);
      if c.ds.objects[h].kind == D.QueueWriter then WriteQueue(c'.(calls := c.calls + 1), h, env.pipe(c.calls))
      else Call(c', env)
  }

  /** The slots of m_cbset that serve a descriptor. */
  function EqualRange(installed: seq<D.Slot>, fd: int): (r: seq<D.Ref>)
    ensures forall h | h in r :: h in D.Handlers(installed)
  {
    if installed == [] then []
    else
      assert D.Handlers(installed) == [installed[0].hdlr] + D.Handlers(installed[1..]);
      (if installed[0].fd == fd then [installed[0].hdlr] else []) + EqualRange(installed[1..], fd)
  }

  function InvokeAll(c: Ctx, hs: seq<D.Ref>, env: Env): Ctx
    decreases |hs|
  {
    if hs == [] then c else InvokeAll(Invoke(c, hs[0], env), hs[1..], env)
  }

  /** HandleDescriptors: the descriptors epoll_wait reported, in its order. */
  function Dispatch(c: Ctx, fds: seq<int>, env: Env): Ctx
    decreases |fds|
  {
    if fds == [] then c
    else Dispatch(InvokeAll(c, EqualRange(c.ds.installed, fds[0]), env), fds[1..], env)
  }

  // ---- the loop ----

  /** Up to epoll_wait. */
  function Prepare(c: Ctx, env: Env): Ctx {
    var c' := HandleTimers(c, env);
    c'.(ds := D.ActivateAll(c'.ds))
  }

  function Delay(c: Ctx): Option<Timespec> {
    T.NextDelay(c.tm, c.wall)
  }

  predicate Ends(c: Ctx) {
    c.quit || (c.ds.nfds <= 0 && Delay(c).None?)
  }

  function EpollTimer(c: Ctx): int {
    if Delay(c).Some? then EpollMillis(Delay(c).value) else -1
  }

  /** What clock_gettime delivers. */
  type Reading = t: Timespec | Normal(t) witness Timespec(0, 0)

  /** How epoll_wait comes back: with ready descriptors, or interrupted by
      signals, whose handlers are then run. */
  datatype Wake = Ready(fds: seq<int>, cpu: Reading, wall: Reading) | Interrupted(cpu: Reading, wall: Reading)

  function Resume(c: Ctx, w: Wake, env: Env): Ctx {
    match w
    case Ready(fds, cpu, wall) => Dispatch(CheckTime(c, cpu, wall, env), fds, env)
    case Interrupted(cpu, wall) => CheckTime(Call(c, env), cpu, wall, env)
  }

  /** The state at the head of the loop after the given wake-ups. */
  function Run(c: Ctx, wakes: seq<Wake>, env: Env): Ctx
    decreases |wakes|
  {
    if wakes == [] then c else Run(Resume(Prepare(c, env), wakes[0], env), wakes[1..], env)
  }

  /** The loop itself: it ends by itself, or is still asleep when the wake-ups
      that we look at are used up. */
  function Loop(c: Ctx, wakes: seq<Wake>, env: Env): Ctx
    decreases |wakes|
  {
    var p := Prepare(c, env);
    if Ends(p) || wakes == [] then p else Loop(Resume(p, wakes[0], env), wakes[1..], env)
  }

  /** The two handlers of the internal queue, the second without EPOLLOUT. */
  function QueueDescriptors(ds: D.Descriptors, readFd: int, writeFd: int): D.Descriptors {
    var ds' := D.Register(ds, D.EPOLLIN, readFd, D.QueueReader);
    D.Disable(D.Register(ds', D.EPOLLOUT, writeFd, D.QueueWriter), ds'.next, D.EPOLLOUT)
  }

  /** CreateInternalMQ, given the two ends of a new pipe. */
  function CreateQueue(c: Ctx, readFd: int, writeFd: int): Ctx
    requires readFd >= 0 && writeFd >= 0
  {
    c.(ds := QueueDescriptors(c.ds, readFd, writeFd),
       reader := Some(c.ds.next), writer := Some(c.ds.next + 1), readFd := readFd, writeFd := writeFd,
       early := |c.mq.accepted|)
  }

  function NewCtx(): Ctx {
    Ctx(T.NO_TIMERS, D.NO_DESCRIPTORS, Q.EMPTY_QUEUE, None, None, 0, 0,
        Timespec(0, 0), Timespec(0, 0), false, 0, [], [], 0)
  }

  /** The state in which MainLoop enters its loop: clocks read, pipe created,
      initialisation callback run. */
  function Start(c: Ctx, cpu: Reading, wall: Reading, readFd: int, writeFd: int, env: Env): Ctx
    requires readFd >= 0 && writeFd >= 0
  {
    Call(CreateQueue(c.(cpu := Align(cpu), wall := Align(wall)), readFd, writeFd), env)
  }
}
