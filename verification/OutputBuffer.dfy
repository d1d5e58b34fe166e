/** The growing output buffer in front of a socket or pipe: every request goes
    into it behind its size, and as much as the peer takes leaves it whenever
    the descriptor is writable. */
module OutputBuffers {
  import opened Bytes
  import opened Xdr

  const INT_SIZE: nat := 4
  const WORD: nat := 0x1_0000_0000
  const NO_HASH: Hash := [0, 0, 0, 0, 0, 0, 0, 0, 0, 0, 0, 0, 0, 0, 0, 0]

  /** A request whose size fits into the u_int that xdr_sizeof returns. */
  type Request = r: StatRequest | RequestSize(r) < WORD
    witness UnknownRequest(StatMessageHeader(StatVersion(0, 0), 0, 0, 0, NO_HASH, NoError))

  function Frame(r: Request): (s: seq<byte>)
    ensures |s| == INT_SIZE + RequestSize(r)
  {
    RequestSized(r);
    PutUInt(RequestSize(r)) + PutRequest(r)
  }

  function Frames(rs: seq<Request>): seq<byte> {
    if rs == [] then [] else Frame(rs[0]) + Frames(rs[1..])
  }

  lemma {:induction false} FramesAppend(rs: seq<Request>, r: Request)
    ensures Frames(rs + [r]) == Frames(rs) + Frame(r)
    decreases |rs|
  {
    var all := rs + [r];
    if rs == [] {
      assert all[0] == r && all[1..] == [] && Frames(all[1..]) == [];
    } else {
      assert all[0] == rs[0] && all[1..] == rs[1..] + [r];
      FramesAppend(rs[1..], r);
      Join(Frame(rs[0]), Frames(rs[1..]), Frame(r));
    }
  }

  /** The size of a new buffer, in the program's 32-bit unsigned arithmetic. */
  function Capacity(used: nat, size: nat): nat {
    ((used + (size + INT_SIZE) % WORD) % WORD / 1024 + 1) * 1024 % WORD
  }

  /** A new buffer has room for what is in it and the frame to come, and then
      at most 1024 bytes more, exactly as long as the sum stays clear of the
      last 1024 values of a 32-bit word. */
  lemma CapacityHolds(used: nat, size: nat)
    requires used < WORD && size < WORD
    ensures Capacity(used, size) > used + size + INT_SIZE <==> used + size + INT_SIZE < WORD - 1024
    ensures used + size + INT_SIZE < WORD - 1024
            ==> Capacity(used, size) % 1024 == 0
                && Capacity(used, size) <= used + size + INT_SIZE + 1024
                && Capacity(used, size) <= WORD - 1024
  {
  }

  /** Buffer contents, its size, and whether the descriptor's handler wants
      EPOLLOUT. */
  datatype Output = Output(data: seq<byte>, capacity: nat, writing: bool)

  /** What the 32-bit arithmetic of PostRequest asks of its callers. */
  predicate HasRoom(o: Output, r: Request) {
    var sum := |o.data| + RequestSize(r) + INT_SIZE;
    sum <= o.capacity || sum < WORD - 1024
  }

  /** The flag tells whether malloc() finds memory. */
  function Post(o: Output, r: Request, memory: bool): (Output, bool) {
    if o.capacity - |o.data| >= RequestSize(r) + INT_SIZE then
      (Output(o.data + Frame(r), o.capacity, true), true)
    else if memory then
      (Output(o.data + Frame(r), Capacity(|o.data|, RequestSize(r)), true), true)
    else (o, false)
  }

  /** The peer has taken `count` bytes. */
  function Drain(o: Output, count: nat): Output
    requires 0 < count <= |o.data|
  {
    Output(o.data[count..], o.capacity, count < |o.data|)
  }

  // ---- whole runs ----

  datatype Action = Posts(request: Request, memory: bool) | Writable(count: int)

  datatype Stream = Stream(output: Output, sent: seq<byte>, posted: seq<Request>, open: bool)

  const FRESH := Stream(Output([], 0, false), [], [], true)

  /** epoll reports EPOLLOUT only to a handler that wants it, and send() takes
      no more than it is offered. */
  predicate Possible(s: Stream, a: Action) {
    match a
    case Posts(r, _) => HasRoom(s.output, r)
    case Writable(count) => s.output.writing && count <= |s.output.data|
  }

  /** A failed send() releases the connection and its buffer. */
  function Step(s: Stream, a: Action): Stream
    requires Possible(s, a)
  {
    if !s.open then s
    else
      match a
      case Posts(r, memory) =>
        var (o, ok) := Post(s.output, r, memory);
        s.(output := o, posted := if ok then s.posted + [r] else s.posted)
      case Writable(count) =>
        if count <= 0 then s.(output := Output([], 0, false), open := false)
        else s.(output := Drain(s.output, count), sent := s.sent + s.output.data[..count])
  }

  ghost predicate AllPossible(s: Stream, actions: seq<Action>)
    decreases |actions|
  {
    actions == [] || (Possible(s, actions[0]) && AllPossible(Step(s, actions[0]), actions[1..]))
  }

  ghost function Play(s: Stream, actions: seq<Action>): Stream
    requires AllPossible(s, actions)
    decreases |actions|
  {
    if actions == [] then s else Play(Step(s, actions[0]), actions[1..])
  }

  predicate Sound(o: Output) {
    && |o.data| <= o.capacity <= WORD - 1024
    && o.capacity % 1024 == 0
    && (o.writing <==> o.data != [])
  }

  /** Nothing is lost, doubled or reordered between the posts and the peer. */
  ghost predicate StreamInv(s: Stream) {
    && Sound(s.output)
    && (s.open ==> s.sent + s.output.data == Frames(s.posted))
    && s.sent <= Frames(s.posted)
  }

  lemma PostSound(o: Output, r: Request, memory: bool)
    requires Sound(o) && HasRoom(o, r)
    ensures Sound(Post(o, r, memory).0)
    ensures Post(o, r, memory).1 <==> memory || |o.data| + RequestSize(r) + INT_SIZE <= o.capacity
    ensures Post(o, r, memory).0.data == if Post(o, r, memory).1 then o.data + Frame(r) else o.data
    ensures Post(o, r, memory).0.capacity != o.capacity
            ==> Post(o, r, memory).0.capacity > |o.data| + RequestSize(r) + INT_SIZE
  {
    CapacityHolds(|o.data|, RequestSize(r));
  }

  lemma StepStream(s: Stream, a: Action)
    requires StreamInv(s) && Possible(s, a)
    ensures StreamInv(Step(s, a))
  {
    if s.open {
      match a
      case Posts(r, memory) => StepPosts(s, r, memory);
      case Writable(count) =>
        if count > 0 {
          StepDrains(s, count);
        }
    }
  }

  lemma StepPosts(s: Stream, r: Request, memory: bool)
    requires StreamInv(s) && s.open && HasRoom(s.output, r)
    ensures StreamInv(Step(s, Posts(r, memory)))
  {
    PostSound(s.output, r, memory);
    FramesAppend(s.posted, r);
    Join(s.sent, s.output.data, Frame(r));
  }

  lemma StepDrains(s: Stream, count: nat)
    requires StreamInv(s) && s.open && 0 < count <= |s.output.data|
    ensures Possible(s, Writable(count)) && StreamInv(Step(s, Writable(count)))
  {
    var data := s.output.data;
    Halves(data, count);
    Join(s.sent, data[..count], data[count..]);
  }

  /** Over any posts, failed allocations and partial sends: what has been sent
      and what is buffered are together the frames of the accepted requests in
      their order, and the handler wants EPOLLOUT exactly while bytes wait. */
  lemma {:induction false} StreamCarriesFrames(s: Stream, actions: seq<Action>)
    requires StreamInv(s) && AllPossible(s, actions)
    ensures StreamInv(Play(s, actions))
    decreases |actions|
  {
    if actions != [] {
      StepStream(s, actions[0]);
      StreamCarriesFrames(Step(s, actions[0]), actions[1..]);
    }
  }

  /** A connection is released exactly by a failed send(), with what is buffered. */
  lemma ClosesIff(s: Stream, a: Action)
    requires s.open && Possible(s, a)
    ensures !Step(s, a).open <==> a.Writable? && a.count <= 0
    ensures !Step(s, a).open ==> Step(s, a) == Stream(FRESH.output, s.sent, s.posted, false)
  {
  }

  /** And then it is over. */
  lemma {:induction false} ClosedStays(s: Stream, actions: seq<Action>)
    requires !s.open && AllPossible(s, actions)
    ensures Play(s, actions) == s
    decreases |actions|
  {
    if actions != [] {
      ClosedStays(Step(s, actions[0]), actions[1..]);
    }
  }

  // ---- the buffer ----

  class OutputBuffer {
    var m_outputBuffer: array?<byte>
    var m_outputPtr: nat
    var m_outputEnd: nat
    var epollout: bool

    ghost predicate Valid()
      reads this, m_outputBuffer
    {
      && m_outputPtr <= m_outputEnd
      && m_outputEnd == (if m_outputBuffer == null then 0 else m_outputBuffer.Length)
      && Sound(Value())
    }

    ghost function Contents(): seq<byte>
      reads this, m_outputBuffer
    {
      if m_outputBuffer == null || m_outputPtr > m_outputBuffer.Length then [] else m_outputBuffer[..m_outputPtr]
    }

    ghost function Value(): Output
      reads this, m_outputBuffer
    {
      Output(Contents(), m_outputEnd, epollout)
    }

    constructor ()
      ensures Valid() && Value() == FRESH.output
    {
      m_outputBuffer, m_outputPtr, m_outputEnd, epollout := null, 0, 0, false;
    }

    /** malloc, memcpy and free. */
    method Grow(alocSpace: nat)
      requires Valid() && m_outputPtr < alocSpace
      modifies this`m_outputBuffer, this`m_outputEnd
      ensures m_outputBuffer != null && fresh(m_outputBuffer) && m_outputBuffer.Length == m_outputEnd == alocSpace
      ensures Contents() == old(Contents())
    {
      var buffer := new byte[alocSpace];
      if m_outputBuffer != null {
        forall i | 0 <= i < m_outputPtr {
          buffer[i] := m_outputBuffer[i];
        }
      }
      m_outputBuffer := buffer;
      m_outputEnd := alocSpace;
    }

    /** An encoder over `handy` bytes from `at` on; it refuses what does not
        fit. */
    method Encode(at: nat, handy: nat, bytes: seq<byte>) returns (ok: bool)
      requires m_outputBuffer != null && at + handy <= m_outputBuffer.Length
      modifies m_outputBuffer
      ensures ok <==> |bytes| <= handy
      ensures ok ==> m_outputBuffer[..at + |bytes|] == old(m_outputBuffer[..at]) + bytes
    {
      if |bytes| > handy {
        return false;
      }
      forall i | 0 <= i < |bytes| {
        m_outputBuffer[at + i] := bytes[i];
      }
      return true;
    }

    /** A larger buffer when there is too little room in this one. */
    method MakeRoom(r: Request, memory: bool) returns (ok: bool)
      requires Valid() && HasRoom(Value(), r)
      modifies this`m_outputBuffer, this`m_outputEnd
      ensures ok <==> memory || |old(Contents())| + RequestSize(r) + INT_SIZE <= old(m_outputEnd)
      ensures m_outputBuffer == old(m_outputBuffer) || (ok && fresh(m_outputBuffer))
      ensures Contents() == old(Contents())
      ensures if ok && |old(Contents())| + RequestSize(r) + INT_SIZE > old(m_outputEnd)
              then m_outputEnd == Capacity(|old(Contents())|, RequestSize(r)) else m_outputEnd == old(m_outputEnd)
      ensures ok ==> m_outputBuffer != null && m_outputEnd == m_outputBuffer.Length
                     && m_outputPtr + RequestSize(r) + INT_SIZE <= m_outputEnd
    {
      var msgSize := RequestSize(r);
      var freeSpace := m_outputEnd - m_outputPtr;
      if freeSpace < msgSize + INT_SIZE {
        if !memory {
          return false;
        }
        CapacityHolds(m_outputPtr, msgSize);
        Grow(Capacity(m_outputPtr, msgSize));
      }
      ok := true;
    }

    method AppendRequest(r: Request)
      requires m_outputBuffer != null && m_outputEnd == m_outputBuffer.Length
      requires m_outputPtr + RequestSize(r) + INT_SIZE <= m_outputEnd
      modifies this`m_outputPtr, this`epollout, m_outputBuffer
      ensures m_outputPtr <= m_outputEnd && Value() == Output(old(Contents()) + Frame(r), m_outputEnd, true)
    {
      RequestSized(r);
      AppendFrame(PutUInt(RequestSize(r)), PutRequest(r), m_outputEnd - m_outputPtr);
    }

    method PostRequest(r: Request, memory: bool) returns (code: int)
      requires Valid() && HasRoom(Value(), r)
      modifies this, m_outputBuffer
      ensures Valid() && (m_outputBuffer == old(m_outputBuffer) || fresh(m_outputBuffer))
      ensures Value() == Post(old(Value()), r, memory).0
      ensures code == if Post(old(Value()), r, memory).1 then 0 else -1
    {
      PostSound(Value(), r, memory);
      var ok := MakeRoom(r, memory);
      if !ok {
        return -1;
      }
      AppendRequest(r);
      code := 0;
    }

    method AppendFrame(size: seq<byte>, body: seq<byte>, freeSpace: nat)
      requires m_outputBuffer != null && m_outputEnd == m_outputBuffer.Length
      requires m_outputPtr + freeSpace == m_outputEnd && |size| == INT_SIZE && freeSpace >= |size| + |body|
      modifies this`m_outputPtr, this`epollout, m_outputBuffer
      ensures m_outputPtr <= m_outputEnd && Value() == Output(old(Contents()) + (size + body), m_outputEnd, true)
    {
      ghost var data := Contents();
      var ok := Encode(m_outputPtr, freeSpace, size);
      assert ok;
      ok := Encode(m_outputPtr + INT_SIZE, freeSpace - INT_SIZE, body);
      assert ok;
      Join(data, size, body);
      m_outputPtr := m_outputPtr + |body| + INT_SIZE;
      epollout := true;
    }

    /** `count` is what send() returned; false when the connection is to be
        released. */
    method HandleWritable(count: int) returns (ok: bool)
      requires Valid() && epollout && count <= m_outputPtr
      modifies this, m_outputBuffer
      ensures Valid() && m_outputBuffer == old(m_outputBuffer)
      ensures ok <==> count > 0
      ensures Value() == if ok then Drain(old(Value()), count) else old(Value())
    {
      var size := m_outputPtr;
      if count <= 0 {
        return false;
      }
      if count < size {
        forall i | 0 <= i < size - count {
          m_outputBuffer[i] := m_outputBuffer[count + i];
        }
      } else {
        epollout := false;
      }
      m_outputPtr := m_outputPtr - count;
      ok := true;
      assert Contents() == old(Contents())[count..];
    }

    method Release()
      modifies this
      ensures Valid() && Value() == FRESH.output
    {
      m_outputBuffer, m_outputPtr, m_outputEnd, epollout := null, 0, 0, false;
    }
  }
}
