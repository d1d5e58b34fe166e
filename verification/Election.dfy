/** The election of the controlling process: any number of processes race
    through the semaphore and the socket path, one system call at a time, and
    any of them may crash at any point. */
module Election {
  import opened Options

  type Pid = nat

  datatype Command = StartCommand | RestartCommand | StopCommand | StatusCommand

  /** The system call a process makes next, or what it has become. */
  datatype Pc =
    | OpenSem        // semget of an existing semaphore
    | CreateSem      // semget with IPC_CREAT | IPC_EXCL
    | InitSem        // semctl SETVAL 1
    | Lock           // semop -1, SEM_UNDO
    | Connect        // CreateLocalClient
    | Unlink         // unlink of the socket path
    | Bind           // bind
    | Listen         // listen
    | SetFlags       // fcntl
    | Unlock(next: Role) // semop +1, SEM_UNDO
    | Client
    | Controller     // before it forks the worker
    | Serving        // the worker holds the listening socket
    | Gone           // ended or crashed

  /** What follows the protected section. */
  datatype Role = BecomeClient | BecomeController | Retry | GiveUp

  /** `undo` is the kernel's SEM_UNDO adjustment for the process. */
  datatype Proc = Proc(pc: Pc, command: Command, undo: int, clientFd: bool, listenFd: bool)

  /** `live` are the processes whose listening socket is open, in themselves or
      in their worker; `bound` is the one whose socket the path names.
      `spurious` records that a client attempt failed although it should not. */
  datatype System = System(sem: Option<int>, procs: seq<Proc>, live: set<Pid>, bound: Option<Pid>, spurious: bool)

  datatype Event =
    | Runs(p: Pid)             // the next call succeeds
    | Fails(p: Pid)            // the next call fails
    | Restarts(p: Pid, command: Command) // a controller whose worker is gone tries again
    | Ends(p: Pid)             // a client or a controller is done
    | Crashes(p: Pid)
    | WorkerDies(p: Pid)       // the listening socket is closed with its last holder

  predicate Reachable(s: System) {
    s.bound.Some? && s.bound.value in s.live
  }

  function Put(s: System, p: Pid, pc: Pc): System
    requires p < |s.procs|
  {
    s.(procs := s.procs[p := s.procs[p].(pc := pc)])
  }

  predicate MayListen(c: Command) {
    c == StartCommand || c == RestartCommand
  }

  /** After a failed client attempt. */
  function NoClient(s: System, p: Pid): System
    requires p < |s.procs|
  {
    Put(s.(spurious := s.spurious || Reachable(s)), p,
        if MayListen(s.procs[p].command) then
          (if s.procs[p].clientFd || s.procs[p].listenFd then Unlock(Retry) else Unlink)
        else Unlock(GiveUp))
  }

  function Run(s: System, p: Pid): System
    requires p < |s.procs|
  {
    var me := s.procs[p];
    match me.pc
    case OpenSem => Put(s, p, if s.sem.Some? then Lock else CreateSem)
    case CreateSem => if s.sem.None? then Put(s.(sem := Some(0)), p, InitSem) else Put(s, p, OpenSem)
    case InitSem =>
      // SETVAL also clears every process's SEM_UNDO adjustment
      s.(sem := Some(1), procs := seq(|s.procs|, i requires 0 <= i < |s.procs| =>
          s.procs[i].(undo := 0, pc := if i == p then Lock else s.procs[i].pc)))
    case Lock =>
      if s.sem.Some? && s.sem.value > 0 then
        s.(sem := Some(s.sem.value - 1), procs := s.procs[p := me.(pc := Connect, undo := me.undo + 1)])
      else s
    case Connect =>
      if me.clientFd then Put(s, p, Unlock(BecomeClient))
      else if Reachable(s) then s.(procs := s.procs[p := me.(pc := Unlock(BecomeClient), clientFd := true)])
      else NoClient(s, p)
    case Unlink => Put(s.(bound := None), p, Bind)
    case Bind => s.(bound := Some(p), procs := s.procs[p := me.(pc := Listen, listenFd := true)])
    case Listen => Put(s.(live := s.live + {p}), p, SetFlags)
    case SetFlags => Put(s, p, Unlock(BecomeController))
    case Unlock(next) =>
      if s.sem.Some? then
        s.(sem := Some(s.sem.value + 1), procs := s.procs[p := me.(undo := me.undo - 1,
            pc := match next case BecomeClient => Client case BecomeController => Controller
                             case Retry => Lock case GiveUp => Gone)])
      else s
    case Controller => s.(procs := s.procs[p := me.(pc := Serving, listenFd := false)])
    case Client => s
    case Serving => s
    case Gone => s
  }

  function Fail(s: System, p: Pid): System
    requires p < |s.procs|
  {
    var me := s.procs[p];
    match me.pc
    case CreateSem => Put(s, p, OpenSem)
    case InitSem => Put(s, p, Lock) // the result of semctl is not looked at
    case Connect => if me.clientFd then s else NoClient(s, p)
    case Unlink => Put(s, p, Unlock(Retry))
    case Bind => Put(s, p, Unlock(Retry))
    case Listen => s.(procs := s.procs[p := me.(pc := Unlock(Retry), listenFd := false)])
    case SetFlags => s.(live := s.live - {p}, procs := s.procs[p := me.(pc := Unlock(Retry), listenFd := false)])
    case _ => s
  }

  /** The process is gone: its descriptors are closed and its SEM_UNDO
      adjustment is applied.  A worker it has forked lives on. */
  function Crash(s: System, p: Pid): System
    requires p < |s.procs|
  {
    var me := s.procs[p];
    s.(sem := if s.sem.Some? then Some(s.sem.value + me.undo) else None,
       live := if me.pc == Serving || me.pc == Gone then s.live else s.live - {p},
       procs := s.procs[p := me.(pc := Gone, undo := 0, clientFd := false, listenFd := false)])
  }

  function Step(s: System, e: Event): System {
    if e.p >= |s.procs| then s
    else
      var me := s.procs[e.p];
      match e
      case Runs(p) => Run(s, p)
      case Fails(p) => Fail(s, p)
      case Restarts(p, command) =>
        if me.pc == Serving && p !in s.live && command != StopCommand then
          s.(procs := s.procs[p := me.(pc := OpenSem, command := command)])
        else s
      case Ends(p) =>
        if me.pc == Client || (me.pc == Serving && p !in s.live) then
          s.(procs := s.procs[p := me.(pc := Gone, clientFd := false)])
        else s
      case Crashes(p) => Crash(s, p)
      case WorkerDies(p) =>
        if me.pc == Serving || me.pc == Gone then s.(live := s.live - {p}) else s
  }

  function Play(s: System, events: seq<Event>): System
    decreases |events|
  {
    if events == [] then s else Play(Step(s, events[0]), events[1..])
  }

  ghost predicate Initial(s: System) {
    && s.sem == None && s.live == {} && s.bound == None && !s.spurious
    && forall p | 0 <= p < |s.procs| ::
         s.procs[p].pc == OpenSem && s.procs[p].undo == 0 && !s.procs[p].clientFd && !s.procs[p].listenFd
  }

  // ---- the invariants ----

  predicate Protected(pc: Pc) {
    pc.Connect? || pc.Unlink? || pc.Bind? || pc.Listen? || pc.SetFlags? || pc.Unlock?
  }

  /** Holders of the semaphore and its late initialiser exclude one another. */
  predicate Exclusive(pc: Pc) {
    Protected(pc) || pc.InitSem?
  }

  ghost predicate SemaphoreInv(s: System) {
    && (s.sem.Some? ==> 0 <= s.sem.value <= 1)
    && (forall p | 0 <= p < |s.procs| :: s.procs[p].undo == if Protected(s.procs[p].pc) then 1 else 0)
    && (forall p | 0 <= p < |s.procs| && Exclusive(s.procs[p].pc) :: s.sem == Some(0))
    && (forall p, q | 0 <= p < q < |s.procs| :: !(Exclusive(s.procs[p].pc) && Exclusive(s.procs[q].pc)))
  }

  /** Which descriptors a process holds at which point. */
  ghost predicate Holds(s: System, p: Pid)
    requires p < |s.procs|
  {
    var me := s.procs[p];
    && (me.clientFd ==> me.pc == Unlock(BecomeClient) || me.pc == Client)
    && (me.listenFd <==> me.pc == Listen || me.pc == SetFlags || me.pc == Unlock(BecomeController) || me.pc == Controller)
    && (p in s.live ==> me.pc == SetFlags || me.pc == Unlock(BecomeController) || me.pc == Controller
                        || me.pc == Serving || me.pc == Gone)
    && (me.pc == Unlink || me.pc == Bind || me.listenFd ==> MayListen(me.command))
  }

  ghost predicate HoldsInv(s: System) {
    (forall p | 0 <= p < |s.procs| :: Holds(s, p)) && forall p | p in s.live :: p < |s.procs|
  }

  /** One live listener at most, and the path names it.  While a process is on
      its way to listening there is none. */
  ghost predicate ListenerInv(s: System) {
    && (forall p, q | p in s.live && q in s.live :: p == q)
    && (forall p | p in s.live :: s.bound == Some(p))
    && (forall p | 0 <= p < |s.procs| && (s.procs[p].pc.Unlink? || s.procs[p].pc.Bind? || s.procs[p].pc.Listen?) ::
          s.live == {} && (s.procs[p].pc.Listen? ==> s.bound == Some(p)))
  }

  ghost predicate Inv(s: System) {
    SemaphoreInv(s) && HoldsInv(s) && (!s.spurious ==> ListenerInv(s))
  }

  lemma RunPair(s: System, p: Pid, q: Pid, r: Pid)
    requires SemaphoreInv(s) && p < |s.procs| && q < r < |s.procs|
    ensures |Run(s, p).procs| == |s.procs|
    ensures !(Exclusive(Run(s, p).procs[q].pc) && Exclusive(Run(s, p).procs[r].pc))
  {
  }

  /** Of two processes one is outside, before and after. */
  lemma RunExcludes(s: System, p: Pid)
    requires SemaphoreInv(s) && p < |s.procs|
    ensures forall q, r | 0 <= q < r < |Run(s, p).procs| ::
              !(Exclusive(Run(s, p).procs[q].pc) && Exclusive(Run(s, p).procs[r].pc))
  {
    RunSize(s, p);
    forall q, r | 0 <= q < r < |s.procs|
      ensures !(Exclusive(Run(s, p).procs[q].pc) && Exclusive(Run(s, p).procs[r].pc))
    {
      RunPair(s, p, q, r);
    }
  }

  lemma RunSize(s: System, p: Pid)
    requires p < |s.procs|
    ensures |Run(s, p).procs| == |s.procs|
  {
  }

  lemma RunAdjusts(s: System, p: Pid, q: Pid)
    requires SemaphoreInv(s) && p < |s.procs| && q < |s.procs|
    ensures |Run(s, p).procs| == |s.procs|
    ensures Run(s, p).procs[q].undo == if Protected(Run(s, p).procs[q].pc) then 1 else 0
  {
  }

  lemma RunUndo(s: System, p: Pid)
    requires SemaphoreInv(s) && p < |s.procs|
    ensures forall q | 0 <= q < |Run(s, p).procs| ::
              Run(s, p).procs[q].undo == if Protected(Run(s, p).procs[q].pc) then 1 else 0
  {
    RunSize(s, p);
    forall q | 0 <= q < |s.procs|
      ensures Run(s, p).procs[q].undo == if Protected(Run(s, p).procs[q].pc) then 1 else 0
    {
      RunAdjusts(s, p, q);
    }
  }

  lemma RunValue(s: System, p: Pid)
    requires SemaphoreInv(s) && p < |s.procs|
    ensures Run(s, p).sem.Some? ==> 0 <= Run(s, p).sem.value <= 1
    ensures forall q | 0 <= q < |Run(s, p).procs| && Exclusive(Run(s, p).procs[q].pc) :: Run(s, p).sem == Some(0)
  {
  }

  lemma RunSemaphore(s: System, p: Pid)
    requires SemaphoreInv(s) && p < |s.procs|
    ensures SemaphoreInv(Run(s, p))
  {
    RunExcludes(s, p);
    RunUndo(s, p);
    RunValue(s, p);
  }

  lemma FailSemaphore(s: System, p: Pid)
    requires SemaphoreInv(s) && p < |s.procs|
    ensures SemaphoreInv(Fail(s, p))
  {
  }

  lemma CrashSemaphore(s: System, p: Pid)
    requires SemaphoreInv(s) && p < |s.procs|
    ensures SemaphoreInv(Crash(s, p))
  {
  }

  lemma StepSemaphore(s: System, e: Event)
    requires SemaphoreInv(s)
    ensures SemaphoreInv(Step(s, e))
  {
    if e.p < |s.procs| {
      RunSemaphore(s, e.p);
      FailSemaphore(s, e.p);
      CrashSemaphore(s, e.p);
    }
  }

  /** A step of one process leaves the others' descriptors and calls alone. */
  lemma StepLocal(s: System, e: Event, p: Pid)
    requires p < |s.procs| && p != e.p
    ensures |Step(s, e).procs| == |s.procs| && Step(s, e).procs[p].pc == s.procs[p].pc
    ensures Step(s, e).procs[p].(undo := 0) == s.procs[p].(undo := 0)
    ensures p in Step(s, e).live <==> p in s.live
  {
  }

  lemma RunHolds(s: System, p: Pid)
    requires p < |s.procs| && Holds(s, p)
    ensures |Run(s, p).procs| == |s.procs| && Holds(Run(s, p), p)
  {
  }

  lemma FailHolds(s: System, p: Pid)
    requires p < |s.procs| && Holds(s, p)
    ensures |Fail(s, p).procs| == |s.procs| && Holds(Fail(s, p), p)
  {
  }

  lemma StepHoldsSelf(s: System, e: Event)
    requires e.p < |s.procs| && Holds(s, e.p)
    ensures |Step(s, e).procs| == |s.procs| && Holds(Step(s, e), e.p)
  {
    if e.Runs? {
      RunHolds(s, e.p);
    } else if e.Fails? {
      FailHolds(s, e.p);
    }
  }

  lemma StepLive(s: System, e: Event, p: Pid)
    ensures p in Step(s, e).live ==> p in s.live || (p == e.p < |s.procs| && s.procs[p].pc.Listen?)
    ensures Step(s, e).live != s.live ==> e.p < |s.procs|
  {
  }

  lemma StepHolds(s: System, e: Event)
    requires HoldsInv(s)
    ensures HoldsInv(Step(s, e))
  {
    var s' := Step(s, e);
    forall p | 0 <= p < |s'.procs| ensures Holds(s', p) {
      if p == e.p {
        StepHoldsSelf(s, e);
      } else {
        StepLocal(s, e, p);
        assert Holds(s, p);
      }
    }
    forall p | p in s'.live ensures p < |s'.procs| {
      StepLive(s, e, p);
    }
  }

  /** The process that listens is the only one that can have been live. */
  lemma StepOneLive(s: System, e: Event)
    requires Inv(s) && !Step(s, e).spurious
    ensures forall p, q | p in Step(s, e).live && q in Step(s, e).live :: p == q
  {
  }

  predicate Opening(pc: Pc) {
    pc.Unlink? || pc.Bind? || pc.Listen?
  }

  lemma StepSpurious(s: System, e: Event)
    ensures s.spurious ==> Step(s, e).spurious
    ensures (e.p < |s.procs| && !Step(s, e).spurious && !Opening(s.procs[e.p].pc) && e.p < |Step(s, e).procs|
             && Opening(Step(s, e).procs[e.p].pc))
            ==> !Reachable(s) && Step(s, e).live == s.live && s.procs[e.p].pc.Connect?
  {
  }

  /** The path is only touched on the way to listening. */
  lemma StepBound(s: System, e: Event)
    ensures Step(s, e).bound != s.bound ==> e.p < |s.procs| && (s.procs[e.p].pc.Unlink? || s.procs[e.p].pc.Bind?)
  {
  }

  lemma StepLivePath(s: System, e: Event, p: Pid)
    requires Inv(s) && !Step(s, e).spurious && p in Step(s, e).live
    ensures Step(s, e).bound == Some(p)
  {
  }

  lemma NobodyReachable(s: System)
    requires ListenerInv(s)
    ensures Reachable(s) || s.live == {}
  {
  }

  lemma StepOpening(s: System, e: Event, p: Pid)
    requires Inv(s) && !Step(s, e).spurious && p < |s.procs| && p < |Step(s, e).procs| && Opening(Step(s, e).procs[p].pc)
    ensures Step(s, e).live == {} && (Step(s, e).procs[p].pc.Listen? ==> Step(s, e).bound == Some(p))
  {
    StepSpurious(s, e);
    if p == e.p {
      if !Opening(s.procs[p].pc) {
        NobodyReachable(s);
      }
    } else {
      StepLocal(s, e, p);
      StepBound(s, e);
      if e.p < |s.procs| {
        assert !Opening(s.procs[e.p].pc);
      }
      forall q ensures q !in Step(s, e).live {
        StepLive(s, e, q);
      }
    }
  }

  lemma StepListener(s: System, e: Event)
    requires Inv(s) && !Step(s, e).spurious
    ensures ListenerInv(Step(s, e))
  {
    var s' := Step(s, e);
    StepOneLive(s, e);
    forall p | p in s'.live ensures s'.bound == Some(p) {
      StepLivePath(s, e, p);
    }
    forall p | 0 <= p < |s'.procs| && Opening(s'.procs[p].pc)
      ensures s'.live == {} && (s'.procs[p].pc.Listen? ==> s'.bound == Some(p))
    {
      StepOpening(s, e, p);
    }
  }

  lemma {:induction false} PlayInv(s: System, events: seq<Event>)
    requires Inv(s)
    ensures Inv(Play(s, events))
    decreases |events|
  {
    if events != [] {
      var s' := Step(s, events[0]);
      StepSemaphore(s, events[0]);
      StepHolds(s, events[0]);
      if !s'.spurious {
        StepListener(s, events[0]);
      }
      PlayInv(s', events[1..]);
    }
  }

  // ---- the results ----

  lemma InitialInv(s: System)
    requires Initial(s)
    ensures Inv(s)
  {
  }

  /** Election safety, for any number of processes and any interleaving with
      late initialisation, failures, crashes and deaths of workers. */
  lemma ElectionSafety(s: System, events: seq<Event>)
    requires Initial(s)
    ensures var s' := Play(s, events);
      && (forall p, q | 0 <= p < q < |s'.procs| :: !(Protected(s'.procs[p].pc) && Protected(s'.procs[q].pc)))
      && (forall p | 0 <= p < |s'.procs| :: !(s'.procs[p].clientFd && (s'.procs[p].listenFd || p in s'.live)))
      && (!s'.spurious ==> forall p, q | p in s'.live && q in s'.live :: p == q)
  {
    InitialInv(s);
    PlayInv(s, events);
    var s' := Play(s, events);
    forall p | 0 <= p < |s'.procs| ensures !(s'.procs[p].clientFd && (s'.procs[p].listenFd || p in s'.live)) {
      assert Holds(s', p);
    }
  }

  /** Only a start or restart command ever makes a process listen. */
  lemma OnlyStartersListen(s: System, events: seq<Event>, e: Event, p: Pid)
    requires Initial(s)
    requires p in Step(Play(s, events), e).live && p !in Play(s, events).live
    ensures p < |Play(s, events).procs| && MayListen(Play(s, events).procs[p].command)
  {
    InitialInv(s);
    PlayInv(s, events);
    StepLive(Play(s, events), e, p);
    assert Holds(Play(s, events), p);
  }

  /** The semaphore is never lost once it is initialised: when it is 0, some
      process is in the section, and a crash there gives it back. */
  lemma CrashReleases(s: System, events: seq<Event>, p: Pid)
    requires Initial(s) && p < |Play(s, events).procs| && Protected(Play(s, events).procs[p].pc)
    ensures Play(s, events).sem == Some(0) && Step(Play(s, events), Crashes(p)).sem == Some(1)
  {
    InitialInv(s);
    PlayInv(s, events);
  }

  /** A process whose client attempt fails, and which then listens without
      further failure, leaves at most one listener if and only if there was none
      when the attempt failed. */
  lemma UsurpsIff(s: System, p: Pid)
    requires Inv(s) && p < |s.procs| && s.procs[p].pc.Connect? && MayListen(s.procs[p].command)
    ensures var s' := Run(Run(Run(Fail(s, p), p), p), p);
      (forall q, r | q in s'.live && r in s'.live :: q == r) <==> s.live == {}
  {
    assert Holds(s, p);
    var s1 := Fail(s, p);
    var s2 := Run(s1, p);
    var s3 := Run(s2, p);
    var s4 := Run(s3, p);
    assert s1.procs[p].pc == Unlink && s2.procs[p].pc == Bind && s3.procs[p].pc == Listen;
    assert s4.live == s.live + {p} && p !in s.live;
    if q :| q in s.live {
      assert q in s4.live && p in s4.live && q != p;
    }
  }

  // ---- what becomes of a process ----

  /** A process that finds a live listener leaves the section as a client,
      whatever its command; nothing changes for the others. */
  lemma BecomesClient(s: System, p: Pid)
    requires Inv(s) && p < |s.procs| && s.procs[p].pc.Connect? && Reachable(s)
    ensures var s' := Run(Run(s, p), p);
      && s' == s.(sem := Some(1), procs := s.procs[p := s'.procs[p]])
      && s'.procs[p] == s.procs[p].(pc := Client, undo := 0, clientFd := true)
  {
    assert Holds(s, p);
  }

  /** A client is made if and only if the path names a live socket, however many
      others live. */
  lemma ClientIff(s: System, p: Pid)
    requires Inv(s) && p < |s.procs| && s.procs[p].pc.Connect?
    ensures Run(s, p).procs[p].clientFd <==> exists q :: s.bound == Some(q) && q in s.live
  {
    assert Holds(s, p);
  }

  /** One that finds none, and may not listen, leaves and ends. */
  lemma GivesUp(s: System, p: Pid)
    requires Inv(s) && p < |s.procs| && s.procs[p].pc.Connect? && !Reachable(s) && !MayListen(s.procs[p].command)
    ensures var s' := Run(Run(s, p), p);
      && s' == s.(sem := Some(1), procs := s.procs[p := s'.procs[p]])
      && s'.procs[p] == s.procs[p].(pc := Gone, undo := 0)
      && !s'.procs[p].clientFd && !s'.procs[p].listenFd && p !in s'.live
  {
    assert Holds(s, p);
  }

  lemma OpensSocket(s: System, p: Pid)
    requires Inv(s) && p < |s.procs| && s.procs[p].pc.Connect? && !Reachable(s) && MayListen(s.procs[p].command)
    ensures var s' := Run(Run(Run(s, p), p), p);
      && s' == s.(bound := Some(p), procs := s.procs[p := s'.procs[p]])
      && s'.procs[p] == s.procs[p].(pc := Listen, listenFd := true)
  {
    assert Holds(s, p);
    var s1 := Run(s, p);
    var s2 := Run(s1, p);
    assert s1.procs[p].pc == Unlink && s2.procs[p].pc == Bind;
  }

  lemma ListensAndLeaves(s: System, p: Pid)
    requires p < |s.procs| && s.procs[p].pc.Listen? && s.sem == Some(0)
    ensures var s' := Run(Run(Run(s, p), p), p);
      && s' == s.(sem := Some(1), live := s.live + {p}, procs := s.procs[p := s'.procs[p]])
      && s'.procs[p] == s.procs[p].(pc := Controller, undo := s.procs[p].undo - 1)
  {
    var s1 := Run(s, p);
    var s2 := Run(s1, p);
    assert s1.procs[p].pc == SetFlags && s2.procs[p].pc == Unlock(BecomeController);
  }

  /** One that finds none, and may listen, takes the path and leaves as the
      controller, whose worker then holds the socket. */
  lemma BecomesController(s: System, p: Pid)
    requires Inv(s) && p < |s.procs| && s.procs[p].pc.Connect? && !Reachable(s) && MayListen(s.procs[p].command)
    ensures var s' := Run(Run(Run(Run(Run(Run(s, p), p), p), p), p), p);
      && s' == s.(sem := Some(1), live := s.live + {p}, bound := Some(p), procs := s.procs[p := s'.procs[p]])
      && s'.procs[p] == s.procs[p].(pc := Controller, undo := 0, listenFd := true)
      && Run(s', p) == s'.(procs := s'.procs[p := s'.procs[p].(pc := Serving, listenFd := false)])
  {
    OpensSocket(s, p);
    ListensAndLeaves(Run(Run(Run(s, p), p), p), p);
  }

  /** One that fails on the way closes its socket, leaves the section and waits
      for it anew. */
  lemma TriesAgain(s: System, p: Pid)
    requires Inv(s) && p < |s.procs| && (Opening(s.procs[p].pc) || s.procs[p].pc.SetFlags?)
    ensures var s' := Run(Fail(s, p), p);
      && s' == s.(sem := Some(1), live := s.live - {p}, procs := s.procs[p := s'.procs[p]])
      && s'.procs[p] == s.procs[p].(pc := Lock, undo := 0, listenFd := false)
  {
    assert Holds(s, p);
  }

  /** A crash closes a socket that the process holds itself; one that its worker
      holds lives on, until the worker dies. */
  lemma CrashCloses(s: System, p: Pid)
    requires Inv(s) && p < |s.procs|
    ensures var s' := Step(s, Crashes(p));
      && s'.procs[p] == s.procs[p].(pc := Gone, undo := 0, clientFd := false, listenFd := false)
      && (forall q | 0 <= q < |s.procs| && q != p :: q < |s'.procs| && s'.procs[q] == s.procs[q])
      && (s.procs[p].listenFd ==> s'.live == s.live - {p})
      && (s.procs[p].pc == Serving ==> s'.live == s.live && Step(s', WorkerDies(p)).live == s.live - {p})
      && s'.bound == s.bound
  {
    assert Holds(s, p);
  }

  // ---- a semaphore that is never initialised ----

  /** The semaphore is 0, and nobody is there to raise it. */
  ghost predicate Lost(s: System) {
    s.sem == Some(0) && forall p | 0 <= p < |s.procs| :: !Exclusive(s.procs[p].pc) && s.procs[p].undo == 0
  }

  lemma LostStays(s: System, e: Event)
    requires Lost(s)
    ensures Lost(Step(s, e))
  {
  }

  /** Then no process gets into the section any more, whatever happens. */
  lemma {:induction false} LostForEver(s: System, events: seq<Event>)
    requires Lost(s)
    ensures Lost(Play(s, events))
    decreases |events|
  {
    if events != [] {
      LostStays(s, events[0]);
      LostForEver(Step(s, events[0]), events[1..]);
    }
  }

  /** It comes to that if and only if the process that made the semaphore does not
      get to set it: its SETVAL fails, which it does not notice, or it crashes. */
  lemma LostIff(s: System, e: Event)
    requires Inv(s) && !Lost(s)
    ensures Lost(Step(s, e)) <==> e.p < |s.procs| && s.procs[e.p].pc.InitSem? && (e.Fails? || e.Crashes?)
    ensures Lost(Step(s, e)) && e.Fails? ==> Step(s, e).procs[e.p].pc == Lock
  {
    if e.p < |s.procs| {
      assert Holds(s, e.p);
      StepSemaphore(s, e);
      if !s.procs[e.p].pc.InitSem? {
        SomeoneHolds(s, e);
      }
    }
  }

  /** Whoever keeps the semaphore at 0 goes on keeping it, or raises it. */
  lemma KeeperStays(s: System, e: Event)
    requires SemaphoreInv(s) && e.p < |s.procs| && Protected(s.procs[e.p].pc)
    ensures var s' := Step(s, e);
      s'.sem == Some(1) || (e.p < |s'.procs| && Exclusive(s'.procs[e.p].pc))
  {
  }

  /** Whoever takes the semaphore, or makes it, keeps it. */
  lemma TakerKeeps(s: System, e: Event)
    requires SemaphoreInv(s) && s.sem != Some(0) && e.p < |s.procs|
    ensures var s' := Step(s, e);
      s'.sem != Some(0) || (e.p < |s'.procs| && Exclusive(s'.procs[e.p].pc))
  {
  }

  lemma SomeoneHolds(s: System, e: Event)
    requires Inv(s) && !Lost(s) && e.p < |s.procs| && !s.procs[e.p].pc.InitSem?
    ensures !Lost(Step(s, e))
  {
    if s.sem == Some(0) {
      var q :| 0 <= q < |s.procs| && (Exclusive(s.procs[q].pc) || s.procs[q].undo != 0);
      assert Exclusive(s.procs[q].pc);
      if q == e.p {
        KeeperStays(s, e);
      } else {
        StepLocal(s, e, q);
        assert Exclusive(Step(s, e).procs[q].pc);
      }
    } else {
      TakerKeeps(s, e);
    }
  }

  lemma {:induction false} PlaySnoc(s: System, events: seq<Event>, e: Event)
    ensures Play(s, events + [e]) == Step(Play(s, events), e)
    decreases |events|
  {
    if events == [] {
      assert [] + [e] == [e] && [e][1..] == [];
      assert Play(s, [e]) == Play(Step(s, e), []);
    } else {
      assert (events + [e])[0] == events[0] && (events + [e])[1..] == events[1..] + [e];
      PlaySnoc(Step(s, events[0]), events[1..], e);
    }
  }

  /** The first process, n system calls after the beginning; the second one has
      made none. */
  ghost predicate Alone(s: System, t: System, n: nat)
    requires n <= 10 && |s.procs| == 2
  {
    && |t.procs| == 2 && t.procs[1] == s.procs[1] && s.procs[1].undo == 0
    && t.procs[0].command == StartCommand && !t.procs[0].clientFd && (t.procs[0].listenFd <==> n >= 7)
    && t.procs[0].pc == [OpenSem, CreateSem, InitSem, Lock, Connect, Unlink, Bind, Listen, SetFlags,
                         Unlock(BecomeController), Controller][n]
    && !t.spurious
    && t.sem == (if n < 2 then None else if n == 3 || n == 10 then Some(1) else Some(0))
    && t.live == (if n < 8 then {} else {0})
    && t.bound == (if n < 7 then None else Some(0))
  }

  lemma AloneStep(s: System, t: System, n: nat)
    requires n < 10 && |s.procs| == 2 && Alone(s, t, n)
    ensures Alone(s, Step(t, Runs(0)), n + 1)
  {
  }

  /** A lone process takes the section and listens. */
  lemma FirstListener(s: System) returns (events: seq<Event>)
    requires Initial(s) && |s.procs| == 2 && s.procs[0].command == StartCommand
    ensures var s' := Play(s, events);
      && s'.sem == Some(1) && s'.live == {0} && s'.bound == Some(0) && |s'.procs| == 2 && s'.procs[1] == s.procs[1]
      && s'.procs[0] == Proc(Controller, StartCommand, s'.procs[0].undo, false, true) && !s'.spurious
  {
    events := [];
    var n, t := 0, s;
    while n < 10
      invariant 0 <= n <= 10 && t == Play(s, events) && Alone(s, t, n)
    {
      PlaySnoc(s, events, Runs(0));
      AloneStep(s, t, n);
      events := events + [Runs(0)];
      t := Step(t, Runs(0));
      n := n + 1;
    }
  }

  /** A process that comes later, with whatever command, becomes its client. */
  lemma SecondIsClient(s: System) returns (events: seq<Event>)
    requires Initial(s) && |s.procs| == 2 && s.procs[0].command == StartCommand
    ensures var s' := Play(s, events);
      && |s'.procs| == 2 && s'.procs[1].pc == Client && s'.procs[1].clientFd && s'.procs[0].pc == Controller
      && s'.live == {0} && s'.bound == Some(0) && s'.sem == Some(1) && !s'.spurious
      && Step(s', Ends(1)).procs[1].pc == Gone && !Step(s', Ends(1)).procs[1].clientFd
  {
    events := FirstListener(s);
    var t := Play(s, events);
    var n := 0;
    while n < 4
      invariant 0 <= n <= 4 && t == Play(s, events) && |t.procs| == 2 && t.procs[0].pc == Controller
      invariant t.procs[1].pc == [OpenSem, Lock, Connect, Unlock(BecomeClient), Client][n]
      invariant t.procs[1].clientFd <==> n >= 3
      invariant t.sem == if n < 2 || n == 4 then Some(1) else Some(0)
      invariant t.live == {0} && t.bound == Some(0) && !t.spurious
    {
      PlaySnoc(s, events, Runs(1));
      events := events + [Runs(1)];
      t := Step(t, Runs(1));
      n := n + 1;
    }
  }

  /** The controller n steps after it has come to listen. */
  ghost predicate Again(t: System, n: nat)
    requires n <= 11
  {
    && |t.procs| == 2 && !t.spurious && !t.procs[0].clientFd && (t.procs[0].listenFd <==> n == 0 || n >= 8)
    && t.procs[0].pc == [Controller, Serving, Serving, OpenSem, Lock, Connect, Unlink, Bind, Listen, SetFlags,
                         Unlock(BecomeController), Controller][n]
    && t.procs[0].command == (if n < 3 then StartCommand else RestartCommand)
    && t.sem == (if n < 5 || n == 11 then Some(1) else Some(0))
    && t.live == (if n < 2 || n >= 9 then {0} else {})
    && t.bound == (if n == 7 then None else Some(0))
  }

  /** It forks its worker, which dies; it is told to restart, and runs. */
  function AgainEvent(n: nat): Event {
    if n == 1 then WorkerDies(0) else if n == 2 then Restarts(0, RestartCommand) else Runs(0)
  }

  lemma AgainStep(t: System, n: nat)
    requires n < 11 && Again(t, n)
    ensures Again(Step(t, AgainEvent(n)), n + 1)
  {
  }

  /** A controller whose worker has died listens anew on a restart. */
  lemma ListensAgain(s: System) returns (events: seq<Event>, dead: nat)
    requires Initial(s) && |s.procs| == 2 && s.procs[0].command == StartCommand
    ensures dead <= |events| && Play(s, events[..dead]).live == {}
    ensures Step(Play(s, events[..dead]), Restarts(0, StopCommand)) == Play(s, events[..dead])
    ensures var s' := Play(s, events);
      && |s'.procs| == 2 && s'.procs[0].pc == Controller && s'.procs[0].command == RestartCommand
      && s'.live == {0} && s'.bound == Some(0) && s'.sem == Some(1) && !s'.spurious
  {
    events := FirstListener(s);
    var t := Play(s, events);
    var n := 0;
    dead := |events| + 2;
    while n < 11
      invariant 0 <= n <= 11 && t == Play(s, events) && Again(t, n) && |events| == dead - 2 + n
      invariant n >= 2 ==> Play(s, events[..dead]).live == {}
    {
      var more := events + [AgainEvent(n)];
      PlaySnoc(s, events, AgainEvent(n));
      AgainStep(t, n);
      assert n == 1 ==> more[..dead] == more;
      assert n >= 2 ==> more[..dead] == events[..dead];
      events := more;
      t := Step(t, AgainEvent(n));
      n := n + 1;
    }
  }

  /** Of two processes that find no semaphore one makes it; the other, whose first
      try fails, waits for it, and cannot pass before it is initialised. */
  lemma LoserWaits(s: System) returns (events: seq<Event>)
    requires Initial(s) && |s.procs| == 2
    ensures var s' := Play(s, events);
      && |s'.procs| == 2 && s'.sem == Some(0) && s'.procs[0].pc == InitSem && s'.procs[1].pc == Lock
      && Step(s', Runs(1)) == s'
      && var ready := Step(s', Runs(0)); ready.sem == Some(1) && Step(ready, Runs(1)).procs[1].pc == Connect
  {
    var rest := [Runs(1), Fails(1), Runs(1), Runs(0), Runs(0), Runs(1), Runs(1)];
    var n, t := 0, s;
    events := [];
    while n < 7
      invariant 0 <= n <= 7 && t == Play(s, events) && |t.procs| == 2
      invariant t.procs[0].pc == [OpenSem, OpenSem, OpenSem, OpenSem, CreateSem, InitSem, InitSem, InitSem][n]
      invariant t.procs[1].pc == [OpenSem, CreateSem, OpenSem, CreateSem, CreateSem, CreateSem, OpenSem, Lock][n]
      invariant t.sem == if n < 5 then None else Some(0)
    {
      PlaySnoc(s, events, rest[n]);
      events := events + [rest[n]];
      t := Step(t, rest[n]);
      n := n + 1;
    }
  }

  /** The assumption is needed: with one spurious failure two listeners live. */
  lemma SpuriousFailureUsurps(s: System) returns (events: seq<Event>)
    requires Initial(s) && |s.procs| == 2 && s.procs[0].command == s.procs[1].command == StartCommand
    ensures Play(s, events).live == {0, 1}
  {
    events := FirstListener(s);
    var t := Play(s, events);
    var rest := [Runs(1), Runs(1), Fails(1), Runs(1), Runs(1), Runs(1)];
    var n := 0;
    while n < 6
      invariant 0 <= n <= 6 && t == Play(s, events) && |t.procs| == 2
      invariant t.procs[1].command == StartCommand && !t.procs[1].clientFd && (!t.procs[1].listenFd || n >= 5)
      invariant t.procs[1].pc == [OpenSem, Lock, Connect, Unlink, Bind, Listen, SetFlags][n]
      invariant t.sem == if n < 2 then Some(1) else Some(0)
      invariant t.live == if n < 6 then {0} else {0, 1}
    {
      PlaySnoc(s, events, rest[n]);
      events := events + [rest[n]];
      t := Step(t, rest[n]);
      n := n + 1;
    }
  }
}
