/** The controller's side of the pipe from its worker: one read's worth of bytes
    is taken apart into the administrative requests framed in it. */
module FrameLoops {
  import opened Bytes
  import opened Options
  import opened Xdr
  import opened OutputBuffers

  const INT_MAX: int := 0x7FFF_FFFF

  // word codes of the commands that end the connection
  const START: UInt := 2
  const RESTART: UInt := 3
  const STOP: UInt := 4

  predicate Stops(a: StatAdminRequest) {
    a.command == START || a.command == RESTART || a.command == STOP
  }

  /** Words 2 to 4: start, restart and stop. */
  lemma StopsIff(a: StatAdminRequest)
    ensures Stops(a) <==> 2 <= a.command <= 4
  {
  }

  /** Why the loop is left: it waits for more bytes, it has met a command that
      ends the connection, or it has met something it does not take.  BadSize is
      where the model stops and the program does not: a size word that is
      negative, or so large that adding four overflows, passes the comparison
      with usedSpace, and the program decodes whatever its buffer holds behind
      it (Advance).  usedSpace is a measure only for size words of at least -3
      (ForwardEnds); a word of -4 takes the loop to the same place (StandsStill). */
  datatype Ending = Waiting | Stopping | NotAdmin | BadBody | BadSize

  datatype Scanned = Scanned(handled: seq<StatAdminRequest>, used: nat, ending: Ending)

  /** One turn of the loop: it ends there, or takes a request off the front. */
  datatype Turn = Ends(scanned: Scanned) | Takes(request: StatAdminRequest, size: nat)

  function TurnOn(b: seq<byte>): (t: Turn)
    ensures t.Takes? ==> INT_SIZE <= t.size <= |b|
  {
    if |b| < INT_SIZE then Ends(Scanned([], |b|, Waiting))
    else
      var msgSize := GetInt(b).value;
      if msgSize < 0 || msgSize + INT_SIZE > INT_MAX then Ends(Scanned([], |b|, BadSize))
      else if |b| < msgSize + INT_SIZE then Ends(Scanned([], |b|, Waiting))
      else TurnOnBody(GetRequest(b[INT_SIZE..INT_SIZE + msgSize]), msgSize + INT_SIZE, |b|)
  }

  function TurnOnBody(body: Got<StatRequest>, size: nat, used: nat): Turn
    requires size <= used
  {
    match body
    case Bad => Ends(Scanned([], used, BadBody))
    case Got(r, _) =>
      if !r.AdminRequest? then Ends(Scanned([], used - size, NotAdmin))
      else if Stops(r.request) then Ends(Scanned([r.request], used - size, Stopping))
      else Takes(r.request, size)
  }

  function Scan(b: seq<byte>): Scanned
    decreases |b|
  {
    match TurnOn(b)
    case Ends(scanned) => scanned
    case Takes(a, size) => After([a], Scan(b[size..]))
  }

  function After(handled: seq<StatAdminRequest>, s: Scanned): Scanned {
    s.(handled := handled + s.handled)
  }

  /** An administrative request whose frame an int can measure. */
  type Posted = r: Request | r.AdminRequest? && RequestSize(r) + INT_SIZE <= INT_MAX
    witness AdminRequest(StatAdminRequest(
      StatMessageHeader(StatVersion(0, 0), 0, 0, 0, NO_HASH, NoError), 0, []))

  function Requests(rs: seq<Posted>): (cmds: seq<StatAdminRequest>)
    ensures |cmds| == |rs| && forall i | 0 <= i < |rs| :: cmds[i] == rs[i].request
  {
    if rs == [] then [] else [rs[0].request] + Requests(rs[1..])
  }

  /** The requests up to and with the first one that ends the connection. */
  function Heard(cmds: seq<StatAdminRequest>): (h: seq<StatAdminRequest>)
    ensures h <= cmds
    ensures forall i | 0 <= i < |h| - 1 :: !Stops(h[i])
    ensures |h| < |cmds| ==> h != [] && Stops(h[|h| - 1])
  {
    if cmds == [] then []
    else if Stops(cmds[0]) then [cmds[0]]
    else [cmds[0]] + Heard(cmds[1..])
  }

  predicate SomeStop(cmds: seq<StatAdminRequest>) {
    exists i | 0 <= i < |cmds| :: Stops(cmds[i])
  }

  lemma SizeWord(r: Posted, rest: seq<byte>)
    ensures GetInt(Frame(r) + rest).Got? && GetInt(Frame(r) + rest).value == RequestSize(r)
  {
    UIntThen(RequestSize(r), PutRequest(r), rest);
  }

  lemma BodyOf(r: Posted, rest: seq<byte>)
    ensures (Frame(r) + rest)[INT_SIZE..INT_SIZE + RequestSize(r)] == PutRequest(r)
    ensures (Frame(r) + rest)[INT_SIZE + RequestSize(r)..] == rest
  {
  }

  /** A whole frame in front is decoded to the request it was made from. */
  lemma TurnOnFrame(r: Posted, rest: seq<byte>)
    ensures TurnOn(Frame(r) + rest)
         == if Stops(r.request) then Ends(Scanned([r.request], |rest|, Stopping))
            else Takes(r.request, |Frame(r)|)
  {
    SizeWord(r, rest);
    BodyOf(r, rest);
    RequestBack(r, []);
    assert PutRequest(r) + [] == PutRequest(r);
  }

  lemma ScanFrame(r: Posted, rest: seq<byte>)
    ensures Scan(Frame(r) + rest)
         == if Stops(r.request) then Scanned([r.request], |rest|, Stopping) else After([r.request], Scan(rest))
  {
    TurnOnFrame(r, rest);
    BodyOf(r, rest);
  }

  /** A frame that is not taken ends the loop, and nothing behind it is looked at. */
  lemma WholeFrame(body: seq<byte>, rest: seq<byte>)
    requires |body| + INT_SIZE <= INT_MAX
    ensures TurnOn(PutUInt(|body|) + (body + rest))
         == TurnOnBody(GetRequest(body), |body| + INT_SIZE, INT_SIZE + |body| + |rest|)
  {
    var b := PutUInt(|body|) + (body + rest);
    UIntBack(|body|, body + rest);
    Parts(PutUInt(|body|), body + rest);
    Parts(body, rest);
    assert b[INT_SIZE..INT_SIZE + |body|] == b[INT_SIZE..][..|body|];
  }

  /** A body that cannot be decoded stays where it is, unlike one of another type. */
  lemma ScanRefuses(body: seq<byte>, rest: seq<byte>)
    requires |body| + INT_SIZE <= INT_MAX
    ensures GetRequest(body).Bad?
            ==> Scan(PutUInt(|body|) + (body + rest)) == Scanned([], INT_SIZE + |body| + |rest|, BadBody)
    ensures GetRequest(body).Got? && GetRequest(body).value.UnknownRequest?
            ==> Scan(PutUInt(|body|) + (body + rest)) == Scanned([], |rest|, NotAdmin)
  {
    WholeFrame(body, rest);
  }

  lemma SizeWordOfPiece(tail: seq<byte>, next: Posted)
    requires tail < Frame(next) && |tail| >= INT_SIZE
    ensures GetInt(tail).Got? && GetInt(tail).value == RequestSize(next)
  {
    var rest := Frame(next)[|tail|..];
    assert tail + rest == Frame(next) + [];
    SizeWord(next, []);
    UIntMore(tail, rest);
  }

  lemma TailWaits(tail: seq<byte>, next: Posted)
    requires tail < Frame(next)
    ensures TurnOn(tail) == Ends(Scanned([], |tail|, Waiting))
  {
    if |tail| >= INT_SIZE {
      SizeWordOfPiece(tail, next);
    }
  }

  /** The beginning of a frame is left for later. */
  lemma ScanTail(tail: seq<byte>, next: Posted)
    requires tail < Frame(next)
    ensures Scan(tail) == Scanned([], |tail|, Waiting)
  {
    TailWaits(tail, next);
  }

  /** One read of whole frames and a piece of another: exactly the framed
      requests come out, in their order, up to the first that ends the
      connection; the piece stays. */
  lemma {:induction false} ScanInvertsFraming(rs: seq<Posted>, tail: seq<byte>, next: Posted)
    requires tail == [] || tail < Frame(next)
    ensures Scan(Frames(rs) + tail).handled == Heard(Requests(rs))
    ensures !SomeStop(Requests(rs)) ==> Scan(Frames(rs) + tail).ending == Waiting
                                        && Scan(Frames(rs) + tail).used == |tail|
    ensures SomeStop(Requests(rs)) ==> Scan(Frames(rs) + tail).ending == Stopping
    decreases |rs|
  {
    if rs == [] {
      assert Frames(rs) + tail == tail;
      if tail != [] {
        ScanTail(tail, next);
      }
    } else {
      Join(Frame(rs[0]), Frames(rs[1..]), tail);
      ScanFrame(rs[0], Frames(rs[1..]) + tail);
      StopsThere(rs);
      if !Stops(rs[0].request) {
        ScanInvertsFraming(rs[1..], tail, next);
      }
    }
  }

  lemma StopsThere(rs: seq<Posted>)
    requires rs != []
    ensures SomeStop(Requests(rs)) <==> Stops(rs[0].request) || SomeStop(Requests(rs[1..]))
    ensures Requests(rs)[0] == rs[0].request && Requests(rs)[1..] == Requests(rs[1..])
  {
  }

  // ---- both ends of the pipe ----

  lemma FramesFirst(rs: seq<Posted>, k: nat)
    requires k < |rs|
    ensures Frames(rs[..k + 1]) == Frame(rs[0]) + Frames(rs[1..][..k])
  {
    assert rs[..k + 1][1..] == rs[1..][..k];
  }

  /** Any beginning of a frame sequence is whole frames and a piece of the next. */
  lemma {:induction false} CutFrames(rs: seq<Posted>, p: seq<byte>) returns (k: nat, tail: seq<byte>)
    requires p <= Frames(rs)
    ensures k <= |rs| && p == Frames(rs[..k]) + tail
    ensures tail == [] || (k < |rs| && tail < Frame(rs[k]))
    decreases |rs|
  {
    if rs == [] {
      return 0, [];
    }
    var first := Frame(rs[0]);
    CutPair(p, first, Frames(rs[1..]));
    if |p| < |first| {
      return 0, p;
    }
    k, tail := CutFrames(rs[1..], p[|first|..]);
    FramesFirst(rs, k);
    Join(first, Frames(rs[1..][..k]), tail);
    k := k + 1;
  }

  lemma {:induction false} RequestsPrefix(rs: seq<Posted>, k: nat)
    requires k <= |rs|
    ensures Requests(rs[..k]) == Requests(rs)[..k]
  {
  }

  lemma AllIsHeard(s: Stream, rs: seq<Posted>)
    requires StreamInv(s) && s.posted == rs && s.open && !s.output.writing
    ensures Scan(s.sent).handled == Heard(Requests(rs))
  {
    assert s.sent + [] == s.sent == Frames(rs) + [];
    ScanInvertsFraming(rs, [], AnyPosted());
  }

  lemma PartIsHeard(rs: seq<Posted>, k: nat, tail: seq<byte>, next: Posted)
    requires k <= |rs| && (tail == [] || tail < Frame(next))
    ensures Scan(Frames(rs[..k]) + tail).handled <= Requests(rs)
    ensures Scan(Frames(rs[..k]) + tail).ending == Waiting || Scan(Frames(rs[..k]) + tail).ending == Stopping
  {
    ScanInvertsFraming(rs[..k], tail, next);
    RequestsPrefix(rs, k);
  }

  /** At any moment of a connection, whatever part of the stream has been sent
      reads as a beginning of the posted requests and never as anything else;
      once the buffer is drained all of them have been heard. */
  lemma SentIsHeard(s: Stream, rs: seq<Posted>)
    requires StreamInv(s) && s.posted == rs
    ensures Scan(s.sent).handled <= Requests(rs)
    ensures Scan(s.sent).ending == Waiting || Scan(s.sent).ending == Stopping
    ensures s.open && !s.output.writing ==> Scan(s.sent).handled == Heard(Requests(rs))
  {
    if s.open && !s.output.writing {
      AllIsHeard(s, rs);
    }
    var k, tail := CutFrames(rs, s.sent);
    PartIsHeard(rs, k, tail, if k < |rs| then rs[k] else AnyPosted());
  }

  function AnyPosted(): Posted {
    AdminRequest(StatAdminRequest(StatMessageHeader(StatVersion(0, 0), 0, 0, 0, NO_HASH, NoError), 0, []))
  }

  // ---- size words that no peer should write ----

  /** By how much one turn of the program's loop moves ptr, whatever the size
      word.  A negative one passes the comparison, and is so large a limit as an
      unsigned int that the body is decoded from all that the buffer holds behind
      the word.  Nothing when the loop is left, or reads behind its buffer. */
  function Advance(buffer: seq<byte>, ptr: nat, usedSpace: nat): Option<int> {
    if usedSpace < INT_SIZE || ptr + usedSpace > |buffer| then None
    else
      var msgSize := GetInt(buffer[ptr..]).value;
      if msgSize + INT_SIZE > INT_MAX || usedSpace < msgSize + INT_SIZE then None
      else
        var behind := buffer[ptr + INT_SIZE..];
        if GoesOn(GetRequest(if msgSize >= 0 then behind[..msgSize] else behind)) then Some(msgSize + INT_SIZE) else None
  }

  predicate GoesOn(body: Got<StatRequest>) {
    body.Got? && body.value.AdminRequest? && !Stops(body.value.request)
  }

  lemma Subslice(s: seq<byte>, i: nat, j: nat, a: nat, n: nat)
    requires i + a + n <= j <= |s|
    ensures s[i..j][a..a + n] == s[i + a..][..n]
  {
    var l, r := s[i..j][a..a + n], s[i + a..][..n];
    forall k | 0 <= k < n ensures l[k] == r[k] {
      assert l[k] == s[i..j][a + k];
    }
  }

  lemma SameInt(a: seq<byte>, b: seq<byte>)
    requires |a| >= INT_SIZE && |b| >= INT_SIZE && a[..INT_SIZE] == b[..INT_SIZE]
    ensures GetInt(a).Got? && GetInt(b).Got? && GetInt(a).value == GetInt(b).value
  {
  }

  /** The frame in front fits. */
  predicate Fits(msgSize: int, usedSpace: nat) {
    0 <= msgSize && msgSize + INT_SIZE <= INT_MAX && msgSize + INT_SIZE <= usedSpace
  }

  lemma TakesIff(b: seq<byte>, body: seq<byte>)
    requires |b| >= INT_SIZE && Fits(GetInt(b).value, |b|) && body == b[INT_SIZE..INT_SIZE + GetInt(b).value]
    ensures TurnOn(b).Takes? <==> GoesOn(GetRequest(body))
    ensures TurnOn(b).Takes? ==> TurnOn(b).size == GetInt(b).value + INT_SIZE
  {
  }

  lemma AdvanceIff(buffer: seq<byte>, ptr: nat, usedSpace: nat, body: seq<byte>)
    requires INT_SIZE <= usedSpace <= |buffer| - ptr && Fits(GetInt(buffer[ptr..]).value, usedSpace)
    requires body == buffer[ptr + INT_SIZE..][..GetInt(buffer[ptr..]).value]
    ensures Advance(buffer, ptr, usedSpace)
         == if GoesOn(GetRequest(body)) then Some(GetInt(buffer[ptr..]).value + INT_SIZE) else None
  {
  }

  lemma AdvanceUnfit(buffer: seq<byte>, ptr: nat, usedSpace: nat)
    requires INT_SIZE <= usedSpace <= |buffer| - ptr && GetInt(buffer[ptr..]).value >= 0
    requires !Fits(GetInt(buffer[ptr..]).value, usedSpace)
    ensures Advance(buffer, ptr, usedSpace) == None
  {
  }

  lemma EndsUnfit(b: seq<byte>)
    requires |b| >= INT_SIZE && !Fits(GetInt(b).value, |b|)
    ensures TurnOn(b).Ends?
  {
  }

  /** For a size word that is not negative this is TurnOn. */
  lemma AdvanceIsTurn(buffer: seq<byte>, ptr: nat, usedSpace: nat)
    requires INT_SIZE <= usedSpace <= |buffer| - ptr && GetInt(buffer[ptr..]).value >= 0
    ensures var turn := TurnOn(buffer[ptr..ptr + usedSpace]);
      Advance(buffer, ptr, usedSpace) == if turn.Takes? then Some(turn.size) else None
  {
    var b := buffer[ptr..ptr + usedSpace];
    Subslice(buffer, ptr, ptr + usedSpace, 0, INT_SIZE);
    SameInt(b, buffer[ptr..]);
    var msgSize := GetInt(b).value;
    if Fits(msgSize, usedSpace) {
      var body := b[INT_SIZE..INT_SIZE + msgSize];
      Subslice(buffer, ptr, ptr + usedSpace, INT_SIZE, msgSize);
      TakesIff(b, body);
      AdvanceIff(buffer, ptr, usedSpace, body);
    } else {
      EndsUnfit(b);
      AdvanceUnfit(buffer, ptr, usedSpace);
    }
  }

  /** Where ptr stands after n turns that move it so, if it is still in the buffer. */
  function Turns(move: (nat, nat) -> Option<int>, ptr: nat, usedSpace: nat, n: nat): Option<nat>
    decreases n
  {
    if n == 0 then Some(ptr)
    else
      var step := move(ptr, usedSpace);
      if step.None? || ptr + step.value < 0 || step.value > usedSpace then None
      else Turns(move, ptr + step.value, usedSpace - step.value, n - 1)
  }

  function Moves(buffer: seq<byte>): (nat, nat) -> Option<int> {
    (ptr: nat, usedSpace: nat) => Advance(buffer, ptr, usedSpace)
  }

  lemma {:induction false} Stuck(move: (nat, nat) -> Option<int>, ptr: nat, usedSpace: nat, n: nat)
    requires move(ptr, usedSpace) == Some(0)
    ensures Turns(move, ptr, usedSpace, n) == Some(ptr)
    decreases n
  {
    if n > 0 {
      Stuck(move, ptr, usedSpace, n - 1);
    }
  }

  lemma SizeMinusFour(r: Posted, rest: seq<byte>, usedSpace: nat)
    requires !Stops(r.request) && INT_SIZE <= usedSpace <= |PutInt(-4) + (PutRequest(r) + rest)|
    ensures Advance(PutInt(-4) + (PutRequest(r) + rest), 0, usedSpace) == Some(0)
  {
    var buffer := PutInt(-4) + (PutRequest(r) + rest);
    assert buffer[0..] == buffer && buffer[INT_SIZE..] == PutRequest(r) + rest;
    IntBack(-4, PutRequest(r) + rest);
    RequestBack(r, rest);
  }

  /** A size word of -4, with a request behind it that does not end the
      connection, takes the loop to the same place for ever. */
  lemma StandsStill(r: Posted, rest: seq<byte>, usedSpace: nat, n: nat)
    requires !Stops(r.request) && INT_SIZE <= usedSpace <= |PutInt(-4) + (PutRequest(r) + rest)|
    ensures Turns(Moves(PutInt(-4) + (PutRequest(r) + rest)), 0, usedSpace, n) == Some(0)
  {
    SizeMinusFour(r, rest, usedSpace);
    Stuck(Moves(PutInt(-4) + (PutRequest(r) + rest)), 0, usedSpace, n);
  }

  lemma {:induction false} MovesOn(move: (nat, nat) -> Option<int>, ptr: nat, usedSpace: nat, n: nat)
    requires n > usedSpace && forall p: nat, u: nat | move(p, u).Some? :: move(p, u).value > 0
    ensures Turns(move, ptr, usedSpace, n) == None
    decreases usedSpace
  {
    var step := move(ptr, usedSpace);
    if step.Some? && step.value <= usedSpace {
      MovesOn(move, ptr + step.value, usedSpace - step.value, n - 1);
    }
  }

  /** Where every size word is at least -3 the loop ends within usedSpace turns. */
  lemma ForwardEnds(buffer: seq<byte>, ptr: nat, usedSpace: nat)
    requires forall p: nat | p + INT_SIZE <= |buffer| :: GetInt(buffer[p..]).value >= -3
    ensures Turns(Moves(buffer), ptr, usedSpace, usedSpace + 1) == None
  {
    forall p: nat, u: nat | Moves(buffer)(p, u).Some? ensures Moves(buffer)(p, u).value > 0 {
      assert GetInt(buffer[p..]).value >= -3;
    }
    MovesOn(Moves(buffer), ptr, usedSpace, usedSpace + 1);
  }

  // ---- the loop ----

  /** The command code that is left behind, from `code` before. */
  function LastCommand(cmds: seq<StatAdminRequest>, code: UInt): UInt {
    if cmds == [] then code else cmds[|cmds| - 1].command
  }

  lemma LastAfter(a: seq<StatAdminRequest>, b: seq<StatAdminRequest>, code: UInt)
    ensures LastCommand(a + b, code) == LastCommand(b, LastCommand(a, code))
  {
  }

  class MasterClient {
    var m_inputBuffer: array<byte>
    var m_commandCode: UInt

    constructor (buffer: array<byte>)
      ensures m_inputBuffer == buffer && m_commandCode == 0
    {
      m_inputBuffer, m_commandCode := buffer, 0;
    }

    method HandleRequest(req: Got<StatRequest>, size: nat, usedSpace: nat) returns (turn: Turn)
      requires size <= usedSpace
      modifies this`m_commandCode
      ensures turn == TurnOnBody(req, size, usedSpace)
      ensures m_commandCode == LastCommand(Taken(turn), old(m_commandCode))
    {
      if req.Bad? {
        return Ends(Scanned([], usedSpace, BadBody));
      }
      if !req.value.AdminRequest? {
        return Ends(Scanned([], usedSpace - size, NotAdmin));
      }
      m_commandCode := req.value.request.command;
      if Stops(req.value.request) {
        return Ends(Scanned([req.value.request], usedSpace - size, Stopping));
      }
      return Takes(req.value.request, size);
    }

    /** The frame in front, if all of it is there. */
    method HandleFrame(input: seq<byte>) returns (turn: Turn)
      modifies this`m_commandCode
      ensures turn == TurnOn(input)
      ensures m_commandCode == LastCommand(Taken(turn), old(m_commandCode))
    {
      var usedSpace := |input|;
      if usedSpace < INT_SIZE {
        return Ends(Scanned([], usedSpace, Waiting));
      }
      var msgSize := GetInt(input).value;
      if msgSize < 0 || msgSize + INT_SIZE > INT_MAX {
        return Ends(Scanned([], usedSpace, BadSize));
      }
      if usedSpace < msgSize + INT_SIZE {
        return Ends(Scanned([], usedSpace, Waiting));
      }
      turn := HandleRequest(GetRequest(input[INT_SIZE..INT_SIZE + msgSize]), msgSize + INT_SIZE, usedSpace);
    }

    /** All frames in the first `received` bytes. */
    method HandleFrames(received: nat) returns (result: Scanned)
      requires received <= m_inputBuffer.Length
      modifies this`m_commandCode
      ensures result == Scan(m_inputBuffer[..received])
      ensures m_commandCode == LastCommand(result.handled, old(m_commandCode))
      ensures result.handled == [] ==> m_commandCode == old(m_commandCode)
      ensures result.handled != [] ==> m_commandCode == result.handled[|result.handled| - 1].command
    {
      var ptr, usedSpace, handled := 0, received, [];
      ghost var total, input := Scan(m_inputBuffer[..received]), m_inputBuffer[..received];
      while true
        invariant 0 <= ptr && 0 <= usedSpace && ptr + usedSpace == received
        invariant m_inputBuffer[ptr..received] == input
        invariant OnTrack(total, handled, input)
        invariant m_commandCode == LastCommand(handled, old(m_commandCode))
        decreases usedSpace
      {
        var turn := HandleFrame(m_inputBuffer[ptr..received]);
        if turn.Ends? {
          LastAfter(handled, turn.scanned.handled, old(m_commandCode));
          return After(handled, turn.scanned);
        }
        Turned(total, handled, input, turn);
        LastAfter(handled, [turn.request], old(m_commandCode));
        handled := handled + [turn.request];
        input := input[turn.size..];
        ptr := ptr + turn.size;
        usedSpace := usedSpace - turn.size;
      }
    }
  }

  function Taken(turn: Turn): seq<StatAdminRequest> {
    if turn.Takes? then [turn.request] else turn.scanned.handled
  }

  /** What is still to be found in `input` completes what has been handled. */
  ghost predicate OnTrack(total: Scanned, handled: seq<StatAdminRequest>, input: seq<byte>) {
    total == After(handled, Scan(input))
  }

  lemma Turned(total: Scanned, handled: seq<StatAdminRequest>, input: seq<byte>, turn: Turn)
    requires OnTrack(total, handled, input) && turn == TurnOn(input) && turn.Takes?
    ensures OnTrack(total, handled + [turn.request], input[turn.size..])
  {
    var s := Scan(input[turn.size..]);
    assert handled + ([turn.request] + s.handled) == (handled + [turn.request]) + s.handled;
  }
}
