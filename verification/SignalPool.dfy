/** Signals between the kernel's handler, which may not allocate memory, and the
    multiplexers' own call-backs: a fixed stock of messages, filled in signal
    context and emptied by whichever multiplexer is interrupted first. */
module SignalPools {
  import opened Bytes
  import opened Counting
  import opened LinkedLists
  import opened Options

  const NSIG: nat := 65
  const SIZE_MIN: nat := 10
  const SIZE_MAX: nat := 100
  const SIZE_DEFAULT: nat := 10

  datatype Signal = Signal(signo: int, info: nat)

  /** A registered call-back of one multiplexer. */
  datatype Handler = Handler(ctx: nat, f: nat, data: nat)

  /** A call of a handler, or a message that will lead to it in its own
      multiplexer. */
  datatype Delivery = Delivery(handler: Handler, signal: Signal, invoked: bool)

  /** STATM_SIGS_SIZE, if it is set, as atoi() reads it. */
  type Setting = Option<int>

  function PoolSize(env: Setting): (n: nat)
    requires env.Some? ==> -0x8000_0000 <= env.value < 0x8000_0000
    ensures SIZE_MIN <= n <= SIZE_MAX
    ensures env.Some? && SIZE_MIN <= env.value <= SIZE_MAX ==> n == env.value
    ensures env.None? ==> n == SIZE_DEFAULT
    ensures env.Some? && 0 <= env.value < SIZE_MIN ==> n == SIZE_MIN
    ensures env.Some? && (env.value < 0 || env.value > SIZE_MAX) ==> n == SIZE_MAX
  {
    if env.None? then SIZE_DEFAULT
    else
      var size := FromSigned32(env.value); // the cast to u_int
      if size < SIZE_MIN then SIZE_MIN else if size > SIZE_MAX then SIZE_MAX else size
  }

  // ---- what happens to a signal ----

  datatype Pool = Pool(waiting: seq<Signal>, free: nat)

  function Captured(p: Pool, s: Signal): Pool {
    if p.free > 0 then Pool([s] + p.waiting, p.free - 1) else p
  }

  function Emptied(p: Pool): Pool {
    Pool([], p.free + |p.waiting|)
  }

  function Delivered(s: Signal, hs: seq<Handler>, ctx: nat): (ds: seq<Delivery>)
    ensures |ds| == |hs|
    ensures forall i | 0 <= i < |hs| :: ds[i] == Delivery(hs[i], s, hs[i].ctx == ctx)
  {
    if hs == [] then [] else [Delivery(hs[0], s, hs[0].ctx == ctx)] + Delivered(s, hs[1..], ctx)
  }

  function HandlersOf(actions: seq<seq<Handler>>, signo: int): seq<Handler> {
    if 0 <= signo < |actions| then actions[signo] else []
  }

  // ---- what call-backs register meanwhile ----

  /** A call of RegisterSignal; `installed` tells whether sigaction() takes it. */
  datatype Registration = Registration(sig: int, handler: Handler, installed: bool)

  /** The handler lists by number, and how many call-backs have run so far; the
      n-th one makes the registrations script(n). */
  datatype Table = Table(actions: seq<seq<Handler>>, calls: nat)

  type Script = nat -> seq<Registration>

  function Registered(actions: seq<seq<Handler>>, r: Registration): (a: seq<seq<Handler>>)
    ensures |a| == |actions|
  {
    if 0 < r.sig < |actions| && r.installed then actions[r.sig := [r.handler] + actions[r.sig]] else actions
  }

  function RegisteredAll(actions: seq<seq<Handler>>, rs: seq<Registration>): seq<seq<Handler>>
    decreases |rs|
  {
    if rs == [] then actions else RegisteredAll(Registered(actions, rs[0]), rs[1..])
  }

  function CallBack(t: Table, h: Handler, ctx: nat, script: Script): Table {
    if h.ctx == ctx then Table(RegisteredAll(t.actions, script(t.calls)), t.calls + 1) else t
  }

  /** After the multiplexer's own among these handlers have been called. */
  function CallBacks(t: Table, hs: seq<Handler>, ctx: nat, script: Script): Table
    decreases |hs|
  {
    if hs == [] then t else CallBacks(CallBack(t, hs[0], ctx, script), hs[1..], ctx, script)
  }

  /** After one signal, whose handlers are those registered when its turn comes. */
  function TurnOf(t: Table, s: Signal, ctx: nat, script: Script): Table {
    CallBacks(t, HandlersOf(t.actions, s.signo), ctx, script)
  }

  function AfterAll(waiting: seq<Signal>, t: Table, ctx: nat, script: Script): Table {
    if waiting == [] then t else AfterAll(waiting[1..], TurnOf(t, waiting[0], ctx, script), ctx, script)
  }

  function AllDelivered(waiting: seq<Signal>, t: Table, ctx: nat, script: Script): seq<Delivery> {
    if waiting == [] then []
    else
      Delivered(waiting[0], HandlersOf(t.actions, waiting[0].signo), ctx)
      + AllDelivered(waiting[1..], TurnOf(t, waiting[0], ctx, script), ctx, script)
  }

  /** What has been registered for a number, the newest first. */
  function NewestOf(rs: seq<Registration>, sig: int, size: nat): seq<Handler>
    decreases |rs|
  {
    if rs == [] then []
    else
      var last := rs[|rs| - 1];
      (if last.sig == sig && 0 < sig < size && last.installed then [last.handler] else [])
      + NewestOf(rs[..|rs| - 1], sig, size)
  }

  lemma {:induction false} RegisteredAllJoin(actions: seq<seq<Handler>>, a: seq<Registration>, b: seq<Registration>)
    ensures RegisteredAll(actions, a + b) == RegisteredAll(RegisteredAll(actions, a), b)
    decreases |a|
  {
    if a == [] {
      assert a + b == b;
    } else {
      assert (a + b)[0] == a[0] && (a + b)[1..] == a[1..] + b;
      RegisteredAllJoin(Registered(actions, a[0]), a[1..], b);
    }
  }

  /** Registrations go to the front of their number's list, bad ones nowhere. */
  lemma {:induction false} RegisteredInFront(actions: seq<seq<Handler>>, rs: seq<Registration>, sig: int)
    ensures |RegisteredAll(actions, rs)| == |actions|
    ensures HandlersOf(RegisteredAll(actions, rs), sig) == NewestOf(rs, sig, |actions|) + HandlersOf(actions, sig)
    decreases |rs|
  {
    if rs != [] {
      var before, last := rs[..|rs| - 1], rs[|rs| - 1];
      assert rs == before + [last] && [last][1..] == [];
      RegisteredInFront(actions, before, sig);
      RegisteredAllJoin(actions, before, [last]);
      RegisteredLast(RegisteredAll(actions, before), last, sig);
      Associative(NewestOf([last], sig, |actions|), NewestOf(before, sig, |actions|), HandlersOf(actions, sig));
    }
  }

  lemma RegisteredLast(actions: seq<seq<Handler>>, r: Registration, sig: int)
    ensures RegisteredAll(actions, [r]) == Registered(actions, r)
    ensures HandlersOf(Registered(actions, r), sig) == NewestOf([r], sig, |actions|) + HandlersOf(actions, sig)
  {
    assert [r][1..] == [] && [r][..0] == [];
  }

  /** The registrations of n call-backs, from a certain one on. */
  function Scripts(script: Script, from: nat, n: nat): seq<Registration>
    decreases n
  {
    if n == 0 then [] else script(from) + Scripts(script, from + 1, n - 1)
  }

  lemma {:induction false} ScriptsJoin(script: Script, from: nat, n: nat, m: nat)
    ensures Scripts(script, from, n + m) == Scripts(script, from, n) + Scripts(script, from + n, m)
    decreases n
  {
    if n > 0 {
      ScriptsJoin(script, from + 1, n - 1, m);
      Associative(script(from), Scripts(script, from + 1, n - 1), Scripts(script, from + n, m));
    }
  }

  /** How many of these are calls. */
  function Invocations(ds: seq<Delivery>): (n: nat)
    ensures n <= |ds|
  {
    if ds == [] then 0 else (if ds[0].invoked then 1 else 0) + Invocations(ds[1..])
  }

  lemma {:induction false} InvocationsJoin(a: seq<Delivery>, b: seq<Delivery>)
    ensures Invocations(a + b) == Invocations(a) + Invocations(b)
    decreases |a|
  {
    if a == [] {
      assert a + b == b;
    } else {
      assert (a + b)[0] == a[0] && (a + b)[1..] == a[1..] + b;
      InvocationsJoin(a[1..], b);
    }
  }

  /** t' is t after n call-backs. */
  ghost predicate Ran(t: Table, t': Table, n: nat, script: Script) {
    t'.calls == t.calls + n && t'.actions == RegisteredAll(t.actions, Scripts(script, t.calls, n))
  }

  lemma RanJoin(a: Table, b: Table, c: Table, n: nat, m: nat, script: Script)
    requires Ran(a, b, n, script) && Ran(b, c, m, script)
    ensures Ran(a, c, n + m, script)
  {
    ScriptsJoin(script, a.calls, n, m);
    RegisteredAllJoin(a.actions, Scripts(script, a.calls, n), Scripts(script, b.calls, m));
  }

  lemma OneRan(t: Table, h: Handler, ctx: nat, script: Script)
    ensures Ran(t, CallBack(t, h, ctx, script), if h.ctx == ctx then 1 else 0, script)
  {
    assert Scripts(script, t.calls, 1) == script(t.calls) + [] == script(t.calls);
  }

  lemma {:induction false} CallBacksRan(t: Table, s: Signal, hs: seq<Handler>, ctx: nat, script: Script)
    ensures Ran(t, CallBacks(t, hs, ctx, script), Invocations(Delivered(s, hs, ctx)), script)
    decreases |hs|
  {
    if hs != [] {
      var t' := CallBack(t, hs[0], ctx, script);
      OneRan(t, hs[0], ctx, script);
      CallBacksRan(t', s, hs[1..], ctx, script);
      assert Delivered(s, hs, ctx)[1..] == Delivered(s, hs[1..], ctx);
      RanJoin(t, t', CallBacks(t, hs, ctx, script), if hs[0].ctx == ctx then 1 else 0,
              Invocations(Delivered(s, hs[1..], ctx)), script);
    }
  }

  lemma InvocationsAll(waiting: seq<Signal>, t: Table, ctx: nat, script: Script)
    requires waiting != []
    ensures Invocations(AllDelivered(waiting, t, ctx, script))
         == Invocations(Delivered(waiting[0], HandlersOf(t.actions, waiting[0].signo), ctx))
            + Invocations(AllDelivered(waiting[1..], TurnOf(t, waiting[0], ctx, script), ctx, script))
  {
    InvocationsJoin(Delivered(waiting[0], HandlersOf(t.actions, waiting[0].signo), ctx),
                    AllDelivered(waiting[1..], TurnOf(t, waiting[0], ctx, script), ctx, script));
  }

  /** Every call-back that is called has run, and has registered what it should. */
  lemma {:induction false} CallsRan(waiting: seq<Signal>, t: Table, ctx: nat, script: Script)
    ensures Ran(t, AfterAll(waiting, t, ctx, script), Invocations(AllDelivered(waiting, t, ctx, script)), script)
    decreases |waiting|
  {
    if waiting != [] {
      var t' := TurnOf(t, waiting[0], ctx, script);
      var n := Invocations(Delivered(waiting[0], HandlersOf(t.actions, waiting[0].signo), ctx));
      var m := Invocations(AllDelivered(waiting[1..], t', ctx, script));
      CallBacksRan(t, waiting[0], HandlersOf(t.actions, waiting[0].signo), ctx, script);
      CallsRan(waiting[1..], t', ctx, script);
      InvocationsAll(waiting, t, ctx, script);
      RanJoin(t, t', AfterAll(waiting[1..], t', ctx, script), n, m, script);
    }
  }

  /** Each list keeps what it had; what is new stands in front. */
  ghost predicate Grows(a: seq<seq<Handler>>, b: seq<seq<Handler>>) {
    forall sig, h :: Count(HandlersOf(a, sig), h) <= Count(HandlersOf(b, sig), h)
  }

  lemma RegisteredGrows(actions: seq<seq<Handler>>, r: Registration)
    ensures Grows(actions, Registered(actions, r))
  {
    forall sig, h ensures Count(HandlersOf(actions, sig), h) <= Count(HandlersOf(Registered(actions, r), sig), h) {
      if sig == r.sig && 0 < sig < |actions| && r.installed {
        CountJoin([r.handler], actions[sig], h);
      }
    }
  }

  lemma {:induction false} RegisteredAllGrows(actions: seq<seq<Handler>>, rs: seq<Registration>)
    ensures Grows(actions, RegisteredAll(actions, rs))
    decreases |rs|
  {
    if rs != [] {
      RegisteredGrows(actions, rs[0]);
      RegisteredAllGrows(Registered(actions, rs[0]), rs[1..]);
    }
  }

  lemma {:induction false} CallBacksGrow(t: Table, hs: seq<Handler>, ctx: nat, script: Script)
    ensures Grows(t.actions, CallBacks(t, hs, ctx, script).actions)
    decreases |hs|
  {
    if hs != [] {
      RegisteredAllGrows(t.actions, script(t.calls));
      CallBacksGrow(CallBack(t, hs[0], ctx, script), hs[1..], ctx, script);
    }
  }

  lemma {:induction false} AfterAllGrows(waiting: seq<Signal>, t: Table, ctx: nat, script: Script)
    ensures Grows(t.actions, AfterAll(waiting, t, ctx, script).actions)
    decreases |waiting|
  {
    if waiting != [] {
      CallBacksGrow(t, HandlersOf(t.actions, waiting[0].signo), ctx, script);
      AfterAllGrows(waiting[1..], TurnOf(t, waiting[0], ctx, script), ctx, script);
    }
  }

  lemma {:induction false} DeliveredCount(s: Signal, hs: seq<Handler>, ctx: nat, d: Delivery)
    ensures Count(Delivered(s, hs, ctx), d)
         == if d.signal == s && d.invoked == (d.handler.ctx == ctx) then Count(hs, d.handler) else 0
    decreases |hs|
  {
    if hs != [] {
      assert Delivered(s, hs, ctx)[1..] == Delivered(s, hs[1..], ctx);
      CountFirst(Delivered(s, hs, ctx), d);
      CountFirst(hs, d.handler);
      DeliveredCount(s, hs[1..], ctx, d);
    }
  }

  lemma {:induction false} WrongWay(waiting: seq<Signal>, t: Table, ctx: nat, script: Script, d: Delivery)
    requires d.invoked != (d.handler.ctx == ctx)
    ensures Count(AllDelivered(waiting, t, ctx, script), d) == 0
    decreases |waiting|
  {
    if waiting != [] {
      var hs, t' := HandlersOf(t.actions, waiting[0].signo), TurnOf(t, waiting[0], ctx, script);
      CountJoin(Delivered(waiting[0], hs, ctx), AllDelivered(waiting[1..], t', ctx, script), d);
      DeliveredCount(waiting[0], hs, ctx, d);
      WrongWay(waiting[1..], t', ctx, script, d);
    }
  }

  lemma Ordered(k: nat, a: nat, b: nat)
    requires a <= b
    ensures k * a <= k * b
  {
  }

  predicate Between(n: nat, turns: nat, a: nat, b: nat) {
    turns * a <= n <= turns * b
  }

  /** One turn more, which counts or does not. */
  lemma OneMoreTurn(n: nat, k: nat, counts: bool, a: nat, a': nat, b: nat)
    requires a <= a' <= b && Between(n, k, a', b)
    ensures if counts then Between(a + n, 1 + k, a, b) else Between(n, k, a, b)
  {
    Ordered(k, a, a');
    Distributes(k, a);
    Distributes(k, b);
  }

  lemma HandlersGrow(waiting: seq<Signal>, t: Table, ctx: nat, script: Script, sig: int, h: Handler)
    requires waiting != []
    ensures var t' := TurnOf(t, waiting[0], ctx, script);
      Count(HandlersOf(t.actions, sig), h) <= Count(HandlersOf(t'.actions, sig), h)
      <= Count(HandlersOf(AfterAll(waiting[1..], t', ctx, script).actions, sig), h)
  {
    CallBacksGrow(t, HandlersOf(t.actions, waiting[0].signo), ctx, script);
    AfterAllGrows(waiting[1..], TurnOf(t, waiting[0], ctx, script), ctx, script);
  }

  lemma FirstTurnCount(waiting: seq<Signal>, t: Table, ctx: nat, script: Script, d: Delivery)
    requires waiting != [] && d.invoked == (d.handler.ctx == ctx)
    ensures Count(waiting, d.signal) == (if waiting[0] == d.signal then 1 else 0) + Count(waiting[1..], d.signal)
    ensures Count(AllDelivered(waiting, t, ctx, script), d)
         == (if waiting[0] == d.signal then Count(HandlersOf(t.actions, d.signal.signo), d.handler) else 0)
            + Count(AllDelivered(waiting[1..], TurnOf(t, waiting[0], ctx, script), ctx, script), d)
  {
    var hs := HandlersOf(t.actions, waiting[0].signo);
    CountFirst(waiting, d.signal);
    DeliveredCount(waiting[0], hs, ctx, d);
    CountJoin(Delivered(waiting[0], hs, ctx),
              AllDelivered(waiting[1..], TurnOf(t, waiting[0], ctx, script), ctx, script), d);
  }

  /** Each waiting signal reaches each handler of its number once for every time
      it is registered when the signal's turn comes: so as often as it was
      registered before all, and no more often than after all.  It is called if
      it is the multiplexer's own and posted if it is another's. */
  lemma {:induction false} EachHandlerOnce(waiting: seq<Signal>, t: Table, ctx: nat, script: Script, d: Delivery)
    requires d.invoked == (d.handler.ctx == ctx)
    ensures Between(Count(AllDelivered(waiting, t, ctx, script), d), Count(waiting, d.signal),
                    Count(HandlersOf(t.actions, d.signal.signo), d.handler),
                    Count(HandlersOf(AfterAll(waiting, t, ctx, script).actions, d.signal.signo), d.handler))
    decreases |waiting|
  {
    if waiting != [] {
      var s, t' := waiting[0], TurnOf(t, waiting[0], ctx, script);
      FirstTurnCount(waiting, t, ctx, script, d);
      HandlersGrow(waiting, t, ctx, script, d.signal.signo, d.handler);
      EachHandlerOnce(waiting[1..], t', ctx, script, d);
      OneMoreTurn(Count(AllDelivered(waiting[1..], t', ctx, script), d), Count(waiting[1..], d.signal), s == d.signal,
                  Count(HandlersOf(t.actions, d.signal.signo), d.handler),
                  Count(HandlersOf(t'.actions, d.signal.signo), d.handler),
                  Count(HandlersOf(AfterAll(waiting[1..], t', ctx, script).actions, d.signal.signo), d.handler));
    }
  }

  lemma {:induction false} QuietCallBacks(t: Table, hs: seq<Handler>, ctx: nat, script: Script)
    requires forall n :: script(n) == []
    ensures CallBacks(t, hs, ctx, script).actions == t.actions
    decreases |hs|
  {
    if hs != [] {
      QuietCallBacks(CallBack(t, hs[0], ctx, script), hs[1..], ctx, script);
    }
  }

  lemma {:induction false} QuietEnd(waiting: seq<Signal>, t: Table, ctx: nat, script: Script)
    requires forall n :: script(n) == []
    ensures AfterAll(waiting, t, ctx, script).actions == t.actions
    decreases |waiting|
  {
    if waiting != [] {
      QuietCallBacks(t, HandlersOf(t.actions, waiting[0].signo), ctx, script);
      QuietEnd(waiting[1..], TurnOf(t, waiting[0], ctx, script), ctx, script);
    }
  }

  /** So, as long as no call-back registers anything, exactly as often as it is
      registered. */
  lemma QuietHandlerOnce(waiting: seq<Signal>, t: Table, ctx: nat, script: Script, d: Delivery)
    requires d.invoked == (d.handler.ctx == ctx) && forall n :: script(n) == []
    ensures Count(AllDelivered(waiting, t, ctx, script), d)
         == Count(waiting, d.signal) * Count(HandlersOf(t.actions, d.signal.signo), d.handler)
  {
    EachHandlerOnce(waiting, t, ctx, script, d);
    QuietEnd(waiting, t, ctx, script);
  }

  lemma FirstTurns(waiting: seq<Signal>, t: Table, ctx: nat, script: Script, k: nat)
    requires 0 < k <= |waiting|
    ensures var t' := TurnOf(t, waiting[0], ctx, script);
      && AfterAll(waiting[..k], t, ctx, script) == AfterAll(waiting[1..][..k - 1], t', ctx, script)
      && AllDelivered(waiting[..k], t, ctx, script)
         == Delivered(waiting[0], HandlersOf(t.actions, waiting[0].signo), ctx)
            + AllDelivered(waiting[1..][..k - 1], t', ctx, script)
  {
    assert waiting[..k][0] == waiting[0] && waiting[..k][1..] == waiting[1..][..k - 1];
  }

  /** The turn of the k-th signal: it meets exactly the handlers registered by
      then, newest first. */
  lemma {:induction false} TurnDelivers(waiting: seq<Signal>, t: Table, ctx: nat, script: Script, k: nat)
    requires k < |waiting|
    ensures var before := AfterAll(waiting[..k], t, ctx, script);
      AllDelivered(waiting, t, ctx, script)
      == AllDelivered(waiting[..k], t, ctx, script)
         + (Delivered(waiting[k], HandlersOf(before.actions, waiting[k].signo), ctx)
            + AllDelivered(waiting[k + 1..], TurnOf(before, waiting[k], ctx, script), ctx, script))
    decreases |waiting|
  {
    if k > 0 {
      var rest, t' := waiting[1..], TurnOf(t, waiting[0], ctx, script);
      assert rest[k..] == waiting[k + 1..];
      FirstTurns(waiting, t, ctx, script, k);
      TurnDelivers(rest, t', ctx, script, k - 1);
      var before := AfterAll(rest[..k - 1], t', ctx, script);
      Associative(Delivered(waiting[0], HandlersOf(t.actions, waiting[0].signo), ctx),
                  AllDelivered(rest[..k - 1], t', ctx, script),
                  Delivered(waiting[k], HandlersOf(before.actions, waiting[k].signo), ctx)
                  + AllDelivered(waiting[k + 1..], TurnOf(before, waiting[k], ctx, script), ctx, script));
    }
  }

  /** Signals with a number that has a list. */
  predicate Known(waiting: seq<Signal>) {
    forall i | 0 <= i < |waiting| :: 0 <= waiting[i].signo < NSIG
  }

  function CapturedAll(p: Pool, ss: seq<Signal>): Pool
    decreases |ss|
  {
    if ss == [] then p else CapturedAll(Captured(p, ss[0]), ss[1..])
  }

  /** Last in, first out: that is the order in which signals are handled. */
  lemma {:induction false} NewestWaitsFirst(p: Pool, ss: seq<Signal>, i: nat)
    requires |ss| <= p.free && i < |ss| + |p.waiting|
    ensures var p' := CapturedAll(p, ss);
      && |p'.waiting| == |ss| + |p.waiting| && p'.free == p.free - |ss|
      && p'.waiting[i] == if i < |ss| then ss[|ss| - 1 - i] else p.waiting[i - |ss|]
    decreases |ss|
  {
    if ss != [] {
      NewestWaitsFirst(Captured(p, ss[0]), ss[1..], i);
    }
  }

  // ---- whole runs ----

  datatype Event = Captures(signal: Signal) | HandlesAll

  /** The pool, what went into it, what came out of it and what found it empty. */
  datatype Run = Run(pool: Pool, accepted: seq<Signal>, handled: seq<Signal>, dropped: seq<Signal>)

  function Step(r: Run, e: Event): Run {
    match e
    case Captures(s) =>
      if r.pool.free > 0 then r.(pool := Captured(r.pool, s), accepted := r.accepted + [s])
      else r.(pool := Captured(r.pool, s), dropped := r.dropped + [s])
    case HandlesAll => r.(pool := Emptied(r.pool), handled := r.handled + r.pool.waiting)
  }

  function Play(r: Run, events: seq<Event>): Run
    decreases |events|
  {
    if events == [] then r else Play(Step(r, events[0]), events[1..])
  }

  /** No message is lost or made, and no accepted signal either. */
  ghost predicate RunInv(r: Run, size: nat) {
    && |r.pool.waiting| + r.pool.free == size
    && forall s :: Count(r.accepted, s) == Count(r.handled, s) + Count(r.pool.waiting, s)
  }

  lemma StepRun(r: Run, e: Event, size: nat)
    requires RunInv(r, size)
    ensures RunInv(Step(r, e), size)
  {
  }

  lemma {:induction false} PoolConserved(r: Run, events: seq<Event>, size: nat)
    requires RunInv(r, size)
    ensures RunInv(Play(r, events), size)
    decreases |events|
  {
    if events != [] {
      StepRun(r, events[0], size);
      PoolConserved(Step(r, events[0]), events[1..], size);
    }
  }

  /** A signal is dropped exactly when every message is waiting. */
  lemma DropsIffFull(r: Run, s: Signal, size: nat)
    requires RunInv(r, size)
    ensures Step(r, Captures(s)).dropped != r.dropped <==> |r.pool.waiting| == size
    ensures Step(r, Captures(s)).accepted == if |r.pool.waiting| == size then r.accepted else r.accepted + [s]
  {
  }

  // ---- the message lists ----

  class SigInfoMsgs {
    var g_sigMessages: Node?<Signal>
    var g_sigsMessages: Node?<Signal>

    ghost var pool: Pool
    ghost var waiting: seq<Node<Signal>>
    ghost var stock: seq<Node<Signal>>

    ghost function Repr(): set<Node<Signal>>
      reads this
    {
      (set n | n in waiting) + (set n | n in stock)
    }

    ghost predicate Valid()
      reads this, Repr()
    {
      && Chain(g_sigMessages, waiting) && Chain(g_sigsMessages, stock)
      && (forall n | n in waiting :: n !in stock)
      && pool == Pool(DataOf(waiting), |stock|)
    }

    constructor (env: Setting)
      requires env.Some? ==> -0x8000_0000 <= env.value < 0x8000_0000
      ensures Valid() && fresh(Repr()) && pool == Pool([], PoolSize(env))
    {
      g_sigMessages, g_sigsMessages := null, null;
      pool, waiting, stock := Pool([], 0), [], [];
      new;
      var sigsSize := PoolSize(env);
      for i := 0 to sigsSize
        invariant Valid() && fresh(Repr()) && pool == Pool([], i)
      {
        Restock();
      }
    }

    /** new and _slink. */
    method Restock()
      requires Valid()
      modifies this
      ensures Valid() && fresh(Repr() - old(Repr()))
      ensures pool == old(pool).(free := old(pool).free + 1)
      ensures g_sigMessages == old(g_sigMessages) && waiting == old(waiting)
    {
      var msg := new Node(Signal(0, 0), g_sigsMessages);
      ChainPrepended(msg, g_sigsMessages, stock);
      g_sigsMessages := msg;
      stock := [msg] + stock;
      pool := pool.(free := pool.free + 1);
    }

    /** In signal context: _sunlink, overwrite, _link. */
    method HandleSignal(s: Signal)
      requires Valid()
      modifies this, Repr()
      ensures Valid() && Repr() == old(Repr())
      ensures pool == Captured(old(pool), s)
    {
      var sigInfo := g_sigsMessages;
      if sigInfo != null {
        g_sigsMessages := sigInfo.next;
        stock := stock[1..];
        sigInfo.data := s;
        sigInfo.next := g_sigMessages;
        ChainPrepended(sigInfo, g_sigMessages, waiting);
        g_sigMessages := sigInfo;
        waiting := [sigInfo] + waiting;
        pool := Captured(pool, s);
      }
    }

    /** _unlink. */
    method Take() returns (s: Signal)
      requires Valid() && g_sigMessages != null
      modifies this
      ensures Valid() && Repr() <= old(Repr())
      ensures old(pool).waiting != [] && s == old(pool).waiting[0]
      ensures pool == old(pool).(waiting := old(pool).waiting[1..])
    {
      s := g_sigMessages.data;
      g_sigMessages := g_sigMessages.next;
      waiting := waiting[1..];
      pool := pool.(waiting := pool.waiting[1..]);
    }

    /** The newest waiting signal to its handlers; its message is replaced. */
    method HandleOne(ctx: nat, handlers: SignalHandlers, script: Script) returns (deliveries: seq<Delivery>)
      requires Valid() && handlers.Valid() && g_sigMessages != null
      requires Known(pool.waiting)
      modifies this, handlers, handlers.g_sigActions
      ensures Valid() && fresh(Repr() - old(Repr())) && handlers.Valid()
      ensures old(pool).waiting != []
      ensures pool == Pool(old(pool).waiting[1..], old(pool).free + 1)
      ensures deliveries == Delivered(old(pool).waiting[0],
                                      HandlersOf(old(handlers.actions), old(pool).waiting[0].signo), ctx)
      ensures handlers.State() == TurnOf(old(handlers.State()), old(pool).waiting[0], ctx, script)
    {
      var msg := Take();
      deliveries := handlers.Deliver(msg, ctx, script);
      Restock();
    }

    /** Every waiting signal to every handler registered for its number when its
        turn comes; the multiplexer's own call-backs run and may register more. */
    method HandleAllSignals(ctx: nat, handlers: SignalHandlers, script: Script) returns (deliveries: seq<Delivery>)
      requires Valid() && handlers.Valid()
      requires Known(pool.waiting)
      modifies this, handlers, handlers.g_sigActions
      ensures Valid() && fresh(Repr() - old(Repr())) && handlers.Valid()
      ensures pool == Emptied(old(pool))
      ensures deliveries == AllDelivered(old(pool).waiting, old(handlers.State()), ctx, script)
      ensures handlers.State() == AfterAll(old(pool).waiting, old(handlers.State()), ctx, script)
    {
      ghost var total := AllDelivered(pool.waiting, handlers.State(), ctx, script);
      ghost var end := AfterAll(pool.waiting, handlers.State(), ctx, script);
      ghost var all := |pool.waiting| + pool.free;
      deliveries := [];
      while g_sigMessages != null
        invariant Valid() && handlers.Valid() && fresh(Repr() - old(Repr()))
        invariant Known(pool.waiting) && |pool.waiting| + pool.free == all
        invariant Delivering(total, end, deliveries, pool.waiting, handlers.State(), ctx, script)
        decreases |pool.waiting|
      {
        ghost var before, table := pool.waiting, handlers.State();
        var ds := HandleOne(ctx, handlers, script);
        OneDelivered(total, end, deliveries, before, table, ctx, script);
        deliveries := deliveries + ds;
      }
    }
  }

  /** What has been delivered and what is to be delivered make up the total. */
  ghost predicate Delivering(total: seq<Delivery>, end: Table, done: seq<Delivery>, waiting: seq<Signal>,
                             t: Table, ctx: nat, script: Script) {
    && total == done + AllDelivered(waiting, t, ctx, script)
    && end == AfterAll(waiting, t, ctx, script)
  }

  lemma OneDelivered(total: seq<Delivery>, end: Table, done: seq<Delivery>, waiting: seq<Signal>,
                     t: Table, ctx: nat, script: Script)
    requires Delivering(total, end, done, waiting, t, ctx, script) && waiting != []
    ensures Delivering(total, end, done + Delivered(waiting[0], HandlersOf(t.actions, waiting[0].signo), ctx),
                       waiting[1..], TurnOf(t, waiting[0], ctx, script), ctx, script)
  {
  }

  /** The same within the turn of one signal, whose remaining handlers are hs. */
  ghost predicate Reaching(total: seq<Delivery>, end: Table, done: seq<Delivery>, hs: seq<Handler>,
                           t: Table, s: Signal, ctx: nat, script: Script) {
    && total == done + Delivered(s, hs, ctx)
    && end == CallBacks(t, hs, ctx, script)
  }

  lemma OneReached(total: seq<Delivery>, end: Table, done: seq<Delivery>, hs: seq<Handler>,
                   t: Table, s: Signal, ctx: nat, script: Script)
    requires Reaching(total, end, done, hs, t, s, ctx, script) && hs != []
    ensures Reaching(total, end, done + [Delivery(hs[0], s, hs[0].ctx == ctx)], hs[1..],
                     CallBack(t, hs[0], ctx, script), s, ctx, script)
  {
  }

  // ---- the handler lists ----

  class SignalHandlers {
    const g_sigActions: array<Node?<Handler>>

    // how many call-backs have run
    var calls: nat
    ghost var actions: seq<seq<Handler>>
    ghost var lists: seq<seq<Node<Handler>>>
    ghost var owner: map<Node<Handler>, int>

    ghost function State(): Table
      reads this
    {
      Table(actions, calls)
    }

    ghost predicate Entry(sig: int)
      requires 0 <= sig < NSIG == g_sigActions.Length && |lists| == |actions| == NSIG
      reads this`actions, this`lists, this`owner, g_sigActions, owner.Keys
    {
      Owned(lists[sig], owner, sig) && Holds(g_sigActions[sig], lists[sig], actions[sig])
    }

    ghost predicate Valid()
      reads this`actions, this`lists, this`owner, g_sigActions, owner.Keys
    {
      && |lists| == |actions| == NSIG == g_sigActions.Length
      && forall sig | 0 <= sig < NSIG :: Entry(sig)
    }

    constructor ()
      ensures Valid() && fresh(g_sigActions) && owner == map[] && actions == seq(NSIG, _ => [])
    {
      g_sigActions := new Node?<Handler>[NSIG](_ => null);
      calls := 0;
      actions, lists, owner := seq(NSIG, _ => []), seq(NSIG, _ => []), map[];
    }

    /** `installed` tells whether sigaction() takes the handler. */
    method RegisterSignal(sig: int, h: Handler, installed: bool) returns (r: Node?<Handler>)
      requires Valid()
      modifies this`actions, this`lists, this`owner, g_sigActions
      ensures Valid() && fresh(owner.Keys - old(owner.Keys))
      ensures r != null <==> 0 < sig < NSIG && installed
      ensures r != null ==> r.data == h && actions == old(actions)[sig := [h] + old(actions)[sig]]
      ensures r == null ==> actions == old(actions)
    {
      if sig <= 0 || sig >= NSIG || !installed {
        return null;
      }
      assert Entry(sig);
      var hdlr := new Node(h, g_sigActions[sig]);
      ChainPrepended(hdlr, g_sigActions[sig], lists[sig]);
      owner := owner[hdlr := sig];
      forall s | 0 <= s < NSIG && s != sig ensures Entry(s) {
        assert old(Entry(s));
      }
      SetEntry(sig, hdlr, [hdlr] + lists[sig], [h] + actions[sig]);
      return hdlr;
    }

    method SetEntry(sig: nat, head: Node?<Handler>, ghost nodes: seq<Node<Handler>>, ghost hs: seq<Handler>)
      requires sig < NSIG == g_sigActions.Length && |lists| == |actions| == NSIG
      requires forall s | 0 <= s < NSIG && s != sig :: Entry(s)
      requires Owned(nodes, owner, sig) && Holds(head, nodes, hs)
      modifies this`lists, this`actions, g_sigActions
      ensures Valid() && actions == old(actions)[sig := hs]
    {
      g_sigActions[sig] := head;
      lists := lists[sig := nodes];
      actions := actions[sig := hs];
      forall s | 0 <= s < NSIG ensures Entry(s) {
        if s != sig {
          assert old(Entry(s));
        }
      }
    }

    static method Find(head: Node?<Handler>, sig: Node<Handler>, ghost nodes: seq<Node<Handler>>)
      returns (prev: Node?<Handler>, cur: Node?<Handler>, ghost i: nat)
      requires Chain(head, nodes)
      ensures cur == (if sig in nodes then sig else null) && i <= |nodes|
      ensures cur != null ==> i < |nodes| && nodes[i] == sig
      ensures prev == if i == 0 then null else nodes[i - 1]
    {
      ChainLinks(head, nodes);
      prev, cur, i := null, head, 0;
      while cur != null && cur != sig
        invariant 0 <= i <= |nodes| && cur == At(nodes, i) && prev == if i == 0 then null else nodes[i - 1]
        invariant sig !in nodes[..i]
        decreases |nodes| - i
      {
        prev, cur, i := cur, cur.next, i + 1;
      }
    }

    method Drop(sig: nat, prev: Node?<Handler>, cur: Node<Handler>, ghost i: nat) returns (head: Node?<Handler>)
      requires Valid() && sig < NSIG
      requires i < |lists[sig]| && i < |actions[sig]| && cur == lists[sig][i] && prev == if i == 0 then null else lists[sig][i - 1]
      modifies owner.Keys`next
      ensures Holds(head, Without(lists[sig], i), Without(actions[sig], i))
      ensures Owned(Without(lists[sig], i), owner, sig)
      ensures forall s | 0 <= s < NSIG && s != sig :: Entry(s)
    {
      assert Entry(sig);
      ghost var nodes := lists[sig];
      forall s | 0 <= s < NSIG && s != sig ensures Apart(lists[s], nodes) {
        assert Entry(s);
      }
      head := LinkedLists.Take(g_sigActions[sig], prev, cur, nodes, i, actions[sig]);
      forall s | 0 <= s < NSIG && s != sig ensures Entry(s) {
        assert old(Entry(s)) && Apart(lists[s], nodes);
      }
    }

    /** removeFromList: the handler's own link is taken out of its list, the
        others stay as they are; a handler that is in no list is only deleted. */
    method RemoveSignal(sig: int, hdlr: Node<Handler>)
      requires Valid()
      modifies this, g_sigActions, owner.Keys`next
      ensures Valid() && owner == old(owner)
      ensures 0 < sig < NSIG && hdlr in old(lists)[sig]
              ==> exists i | 0 <= i < |old(lists)[sig]| && i < |old(actions)[sig]| ::
                    old(lists)[sig][i] == hdlr && actions == old(actions)[sig := Without(old(actions)[sig], i)]
      ensures !(0 < sig < NSIG) || hdlr !in old(lists)[sig] ==> actions == old(actions)
    {
      if sig <= 0 || sig >= NSIG {
        return;
      }
      assert Entry(sig);
      var prev, cur, i := Find(g_sigActions[sig], hdlr, lists[sig]);
      if cur != null {
        var head := Drop(sig, prev, cur, i);
        SetEntry(sig, head, Without(lists[sig], i), Without(actions[sig], i));
      }
    }

    /** What a call-back registers. */
    method RegisterEach(rs: seq<Registration>)
      requires Valid()
      modifies this`actions, this`lists, this`owner, g_sigActions
      ensures Valid() && fresh(owner.Keys - old(owner.Keys))
      ensures actions == RegisteredAll(old(actions), rs)
    {
      var i := 0;
      while i < |rs|
        invariant 0 <= i <= |rs| && Valid() && fresh(owner.Keys - old(owner.Keys))
        invariant RegisteredAll(actions, rs[i..]) == RegisteredAll(old(actions), rs)
      {
        assert rs[i..][0] == rs[i] && rs[i..][1..] == rs[i + 1..];
        var hdlr := RegisterSignal(rs[i].sig, rs[i].handler, rs[i].installed);
        i := i + 1;
      }
    }

    /** A call-back that belongs to the multiplexer is run here and now. */
    method Reach(h: Handler, ctx: nat, script: Script)
      requires Valid()
      modifies this, g_sigActions
      ensures Valid() && fresh(owner.Keys - old(owner.Keys))
      ensures State() == CallBack(old(State()), h, ctx, script)
    {
      if h.ctx == ctx {
        var rs := script(calls);
        calls := calls + 1;
        RegisterEach(rs);
      }
    }

    method First(sig: int) returns (hdlr: Node?<Handler>)
      requires Valid() && 0 <= sig < NSIG
      ensures hdlr == g_sigActions[sig] && Holds(hdlr, lists[sig], actions[sig])
    {
      assert Entry(sig);
      hdlr := g_sigActions[sig];
    }

    method Deliver(s: Signal, ctx: nat, script: Script) returns (deliveries: seq<Delivery>)
      requires Valid() && 0 <= s.signo < NSIG
      modifies this, g_sigActions
      ensures Valid() && fresh(owner.Keys - old(owner.Keys))
      ensures deliveries == Delivered(s, HandlersOf(old(actions), s.signo), ctx)
      ensures State() == TurnOf(old(State()), s, ctx, script)
    {
      var hdlr := First(s.signo);
      ghost var hs, end := actions[s.signo], TurnOf(State(), s, ctx, script);
      ghost var left, rest := lists[s.signo], hs;
      deliveries := [];
      while hdlr != null
        invariant Valid() && fresh(owner.Keys - old(owner.Keys)) && Holds(hdlr, left, rest)
        invariant Reaching(Delivered(s, hs, ctx), end, deliveries, rest, State(), s, ctx, script)
        decreases |left|
      {
        HoldsNext(hdlr, left, rest);
        OneReached(Delivered(s, hs, ctx), end, deliveries, rest, State(), s, ctx, script);
        deliveries := deliveries + [Delivery(hdlr.data, s, hdlr.data.ctx == ctx)];
        var next := hdlr.next;
        left := left[1..];
        Reach(hdlr.data, ctx, script);
        hdlr, rest := next, rest[1..];
      }
    }
  }
}
