/** The internal message queue of the multiplexer: a byte buffer in which every
    message stands behind its length as a size_t, filled by MQSend and emptied
    into a packet pipe by WriteInternalMessageQueue. */
module InternalQueues {
  import opened Bytes

  /** A message whose length a 64-bit size_t can hold. */
  type Message = m: seq<byte> | |m| < 0x1_0000_0000_0000_0000 witness []

  const SIZE_T: nat := 8

  function Frame(m: Message): (s: seq<byte>)
    ensures |s| == SIZE_T + |m|
  {
    LittleEndian(|m|, SIZE_T) + m
  }

  function Flatten(ms: seq<Message>): seq<byte> {
    if ms == [] then [] else Frame(ms[0]) + Flatten(ms[1..])
  }

  lemma {:induction false} FlattenAppend(ms: seq<Message>, m: Message)
    ensures Flatten(ms + [m]) == Flatten(ms) + Frame(m)
  {
    var all := ms + [m];
    if ms == [] {
      assert all == [m] && all[1..] == [];
      assert Flatten(all) == Frame(m) + Flatten(all[1..]);
    } else {
      var rest := ms[1..];
      assert all[0] == ms[0] && all[1..] == rest + [m];
      FlattenAppend(rest, m);
      Join(Frame(ms[0]), Flatten(rest), Frame(m));
    }
  }

  /** Reading a buffer back as frames; none when it ends inside a frame. */
  function Parse(b: seq<byte>): (r: seq<seq<byte>>)
    decreases |b|
  {
    if |b| < SIZE_T then []
    else
      var n := FromLittleEndian(b[..SIZE_T]);
      if |b| < SIZE_T + n then [] else [b[SIZE_T..SIZE_T + n]] + Parse(b[SIZE_T + n..])
  }

  lemma FrameHead(m: Message, rest: seq<byte>)
    ensures FromLittleEndian((Frame(m) + rest)[..SIZE_T]) == |m|
    ensures (Frame(m) + rest)[SIZE_T..SIZE_T + |m|] == m
    ensures (Frame(m) + rest)[SIZE_T + |m|..] == rest
  {
    ValuesOf();
    assert (Frame(m) + rest)[..SIZE_T] == LittleEndian(|m|, SIZE_T);
    LittleEndianInverse(|m|, SIZE_T);
  }

  /** The buffer always splits back into exactly the messages put in. */
  lemma {:induction false} ParseInvertsFlatten(ms: seq<Message>)
    ensures Parse(Flatten(ms)) == ms
  {
    if ms != [] {
      FrameHead(ms[0], Flatten(ms[1..]));
      ParseInvertsFlatten(ms[1..]);
      assert ms == [ms[0]] + ms[1..];
    }
  }

  /** The queue as a value: the free bytes before the read pointer and behind
      the write pointer, the messages in between, and the history. */
  datatype Queue = Queue(base: nat, room: nat, pending: seq<Message>, accepted: seq<Message>, written: seq<Message>)

  const EMPTY_QUEUE := Queue(0, 0, [], [], [])

  /** First in, first out, nothing lost, nothing twice. */
  predicate Fifo(q: Queue) {
    q.written + q.pending == q.accepted
  }

  function Compacted(q: Queue, need: nat): Queue {
    if q.room < need then q.(base := 0, room := q.room + q.base) else q
  }

  /** Size of a new buffer: the least multiple of 1024 above what it must hold. */
  function Capacity(used: nat, need: nat): (c: nat)
    ensures c % 1024 == 0 && used + need < c <= used + need + 1024
  {
    ((used + need) / 1024 + 1) * 1024
  }

  /** A new buffer when the room is still too small. */
  function Grown(q: Queue, need: nat, memory: bool): (r: (Queue, bool))
    ensures r.1 ==> r.0.room >= need
    ensures r.1 <==> q.room >= need || memory
    ensures r.0.pending == q.pending && r.0.accepted == q.accepted && r.0.written == q.written
  {
    var used := |Flatten(q.pending)|;
    if q.room >= need then (q, true)
    else if memory then (q.(room := Capacity(used, need) - used), true)
    else (q, false)
  }

  /** A frame behind the last one. */
  function Pushed(q: Queue, m: Message): (r: Queue)
    requires q.room >= |m| + SIZE_T
    ensures Fifo(q) ==> Fifo(r)
  {
    assert q.written + (q.pending + [m]) == (q.written + q.pending) + [m];
    q.(room := q.room - |m| - SIZE_T, pending := q.pending + [m], accepted := q.accepted + [m])
  }

  /** The first frame written to the pipe. */
  function Popped(q: Queue): (r: Queue)
    requires q.pending != []
    ensures Fifo(q) ==> Fifo(r)
    ensures r.written + r.pending == q.written + q.pending
  {
    assert (q.written + [q.pending[0]]) + q.pending[1..] == q.written + q.pending;
    q.(base := q.base + SIZE_T + |q.pending[0]|, pending := q.pending[1..], written := q.written + [q.pending[0]])
  }

  /** MQSend: false when the buffer has to grow and malloc fails. */
  function Send(q: Queue, m: Message, memory: bool): (r: (Queue, bool))
    ensures Fifo(q) ==> Fifo(r.0)
    ensures r.1 <==> memory || q.room >= |m| + SIZE_T || q.base + q.room >= |m| + SIZE_T
    ensures r.1 ==> r.0.base == if q.room >= |m| + SIZE_T then q.base else 0
    ensures r.1 ==> r.0.room == (if q.room >= |m| + SIZE_T then q.room
                                 else if q.base + q.room >= |m| + SIZE_T then q.base + q.room
                                 else Capacity(|Flatten(q.pending)|, |m| + SIZE_T) - |Flatten(q.pending)|) - |m| - SIZE_T
    ensures r.1 ==> r.0.accepted == q.accepted + [m] && r.0.pending == q.pending + [m] && r.0.written == q.written
    ensures !r.1 ==> r.0.accepted == q.accepted && r.0.pending == q.pending && r.0.written == q.written
  {
    var (g, ok) := Grown(Compacted(q, |m| + SIZE_T), |m| + SIZE_T, memory);
    if ok then (Pushed(g, m), true) else (g, false)
  }

  /** How many messages a pipe takes that has room for so many packets: as many
      as it has room for, or all there are before an empty one. */
  function Passes(ms: seq<Message>, room: nat): (k: nat)
    ensures k <= |ms| && k <= room && forall i | 0 <= i < k :: ms[i] != []
    ensures k == room || k == |ms| || ms[k] == []
    decreases room
  {
    if room == 0 || ms == [] || ms[0] == [] then 0 else 1 + Passes(ms[1..], room - 1)
  }

  /** WriteInternalMessageQueue when the pipe takes `room` more packets.  A write
      of no bytes returns 0, which the loop takes for a full pipe. */
  function Drain(q: Queue, room: nat): (r: Queue)
    ensures Fifo(q) ==> Fifo(r)
    ensures r.accepted == q.accepted && r.room == q.room && q.written <= r.written
    ensures r.written + r.pending == q.written + q.pending
    ensures |r.written| == |q.written| + Passes(q.pending, room)
    decreases room
  {
    if q.pending == [] || room == 0 || q.pending[0] == [] then q
    else Drain(Popped(q), room - 1)
  }

  /** So what passes is the front of what was pending, and the rest stays. */
  lemma DrainSplits(q: Queue, room: nat)
    ensures Drain(q, room).written == q.written + q.pending[..Passes(q.pending, room)]
    ensures Drain(q, room).pending == q.pending[Passes(q.pending, room)..]
  {
    var r, all, k := Drain(q, room), q.written + q.pending, |q.written| + Passes(q.pending, room);
    assert r.written == all[..k] && r.pending == all[k..];
  }

  /** A pipe with enough room takes everything if and only if no message is
      empty; an empty one stays at the head of the queue for ever. */
  lemma {:induction false} DrainEmptiesIff(q: Queue, room: nat)
    requires room >= |q.pending|
    ensures Drain(q, room).pending == [] <==> forall m | m in q.pending :: m != []
    decreases room
  {
    if q.pending != [] && q.pending[0] != [] {
      DrainEmptiesIff(Popped(q), room - 1);
      assert forall m :: m in q.pending <==> m == q.pending[0] || m in q.pending[1..];
    } else if q.pending != [] {
      assert q.pending[0] in q.pending;
    }
  }

  /** What can happen to a queue. */
  datatype Step = Sends(m: Message, memory: bool) | Drains(room: nat)

  function OneStep(q: Queue, step: Step): (r: Queue)
    ensures Fifo(q) ==> Fifo(r)
    ensures q.accepted <= r.accepted && q.written <= r.written
  {
    match step
    case Sends(m, memory) => Send(q, m, memory).0
    case Drains(room) => Drain(q, room)
  }

  function Steps(q: Queue, steps: seq<Step>): Queue
    decreases |steps|
  {
    if steps == [] then q else Steps(OneStep(q, steps[0]), steps[1..])
  }

  /** Over every sequence of sends, failed allocations and writes to the pipe:
      what has been written and what is pending are the accepted messages. */
  lemma {:induction false} StepsKeepFifo(q: Queue, steps: seq<Step>)
    requires Fifo(q)
    ensures Fifo(Steps(q, steps))
    ensures q.accepted <= Steps(q, steps).accepted && q.written <= Steps(q, steps).written
    decreases |steps|
  {
    if steps != [] {
      StepsKeepFifo(OneStep(q, steps[0]), steps[1..]);
    }
  }

  /** Once an empty message is at the head, nothing is ever written again,
      whatever is sent and however often the pipe has room; all that is pending
      stays pending, and what is sent later queues up behind it. */
  lemma {:induction false} EmptyMessageBlocks(q: Queue, steps: seq<Step>)
    requires q.pending != [] && q.pending[0] == []
    ensures Steps(q, steps).written == q.written && q.pending <= Steps(q, steps).pending
    decreases |steps|
  {
    if steps != [] {
      EmptyMessageBlocks(OneStep(q, steps[0]), steps[1..]);
    }
  }

  lemma FirstFrame(ms: seq<Message>)
    requires |Flatten(ms)| > SIZE_T
    ensures ms != [] && SIZE_T + |ms[0]| <= |Flatten(ms)|
    ensures FromLittleEndian(Flatten(ms)[..SIZE_T]) == |ms[0]|
    ensures Flatten(ms)[SIZE_T + |ms[0]|..] == Flatten(ms[1..])
  {
    FrameHead(ms[0], Flatten(ms[1..]));
  }

  /** Less than a frame is nothing, and no more than its length is an empty one. */
  lemma ShortBuffer(ms: seq<Message>)
    ensures |Flatten(ms)| == 0 <==> ms == []
    ensures |Flatten(ms)| <= SIZE_T && ms != [] ==> ms[0] == []
  {
  }

  lemma SlicesJoin(b: seq<byte>, c: seq<byte>, i: nat)
    requires i <= |b|
    ensures (b + c)[i..] == b[i..] + c
  {
  }

  class InternalQueue {
    var m_mqBuffer: array<byte>
    var m_mqBufferReadPtr: nat
    var m_mqBufferWritePtr: nat
    var m_mqBufferEndPtr: nat
    ghost var queue: Queue

    /** The pointers are ordered and [read, write) holds whole frames. */
    ghost predicate Valid()
      reads this, m_mqBuffer
    {
      && m_mqBufferReadPtr <= m_mqBufferWritePtr <= m_mqBufferEndPtr == m_mqBuffer.Length
      && m_mqBuffer[m_mqBufferReadPtr..m_mqBufferWritePtr] == Flatten(queue.pending)
      && queue.base == m_mqBufferReadPtr
      && queue.room == m_mqBufferEndPtr - m_mqBufferWritePtr
      && Fifo(queue)
    }

    constructor ()
      ensures Valid() && fresh(m_mqBuffer) && queue == EMPTY_QUEUE
    {
      m_mqBuffer := new byte[0];
      m_mqBufferReadPtr, m_mqBufferWritePtr, m_mqBufferEndPtr := 0, 0, 0;
      queue := EMPTY_QUEUE;
    }

    /** The copy loop with overlapping segments. */
    method MoveDown(readSpace: nat, copySpace: nat)
      requires readSpace + copySpace <= m_mqBuffer.Length
      modifies m_mqBuffer
      ensures m_mqBuffer[..copySpace] == old(m_mqBuffer[readSpace..readSpace + copySpace])
    {
      var dst, src, left := 0, readSpace, copySpace;
      while left > 0
        invariant left == copySpace - dst && src == readSpace + dst && 0 <= dst <= copySpace
        invariant m_mqBuffer[..dst] == old(m_mqBuffer[readSpace..readSpace + dst])
        invariant m_mqBuffer[src..] == old(m_mqBuffer[src..])
      {
        assert m_mqBuffer[src] == m_mqBuffer[src..][0] == old(m_mqBuffer[src..])[0];
        m_mqBuffer[dst] := m_mqBuffer[src];
        assert m_mqBuffer[src + 1..] == old(m_mqBuffer[src..])[1..];
        dst, src, left := dst + 1, src + 1, left - 1;
      }
    }

    method MoveToStart()
      requires Valid()
      modifies this, m_mqBuffer
      ensures Valid() && m_mqBuffer == old(m_mqBuffer) && m_mqBufferReadPtr == 0
      ensures queue == old(queue).(base := 0, room := old(queue).room + old(queue).base)
    {
      var readSpace := m_mqBufferReadPtr;
      ghost var frames := m_mqBuffer[m_mqBufferReadPtr..m_mqBufferWritePtr];
      if readSpace > 0 {
        MoveDown(readSpace, m_mqBufferWritePtr - m_mqBufferReadPtr);
        m_mqBufferReadPtr := m_mqBufferReadPtr - readSpace;
        m_mqBufferWritePtr := m_mqBufferWritePtr - readSpace;
      }
      assert m_mqBuffer[0..m_mqBufferWritePtr] == m_mqBuffer[..m_mqBufferWritePtr] == frames;
      queue := queue.(base := 0, room := queue.room + queue.base);
    }

    method Compact(need: nat)
      requires Valid()
      modifies this, m_mqBuffer
      ensures Valid() && m_mqBuffer == old(m_mqBuffer)
      ensures queue == Compacted(old(queue), need)
      ensures m_mqBufferEndPtr - m_mqBufferWritePtr < need ==> m_mqBufferReadPtr == 0
    {
      if m_mqBufferEndPtr - m_mqBufferWritePtr < need {
        MoveToStart();
      }
    }

    /** malloc and memcpy. */
    method Copy(usedSpace: nat, alocSpace: nat) returns (buffer: array<byte>)
      requires usedSpace <= m_mqBuffer.Length && usedSpace <= alocSpace
      ensures fresh(buffer) && buffer.Length == alocSpace && buffer[..usedSpace] == m_mqBuffer[..usedSpace]
    {
      buffer := new byte[alocSpace];
      forall i | 0 <= i < usedSpace {
        buffer[i] := m_mqBuffer[i];
      }
    }

    method Grow(need: nat, memory: bool) returns (ok: bool)
      requires Valid()
      requires m_mqBufferEndPtr - m_mqBufferWritePtr < need ==> m_mqBufferReadPtr == 0
      modifies this
      ensures Valid() && (m_mqBuffer == old(m_mqBuffer) || fresh(m_mqBuffer))
      ensures (queue, ok) == Grown(old(queue), need, memory)
      ensures old(queue).room >= need ==> m_mqBuffer == old(m_mqBuffer)
    {
      if m_mqBufferEndPtr - m_mqBufferWritePtr < need {
        if !memory {
          return false;
        }
        var usedSpace := m_mqBufferWritePtr;
        var alocSpace := Capacity(usedSpace, need);
        m_mqBuffer := Copy(usedSpace, alocSpace);
        m_mqBufferReadPtr := 0;
        m_mqBufferWritePtr := usedSpace;
        m_mqBufferEndPtr := alocSpace;
        queue := queue.(room := alocSpace - usedSpace);
      }
      ok := true;
    }

    /** memcpy of a frame behind the write pointer. */
    method Store(frame: seq<byte>)
      requires m_mqBufferWritePtr + |frame| <= m_mqBuffer.Length
      modifies m_mqBuffer
      ensures m_mqBuffer[..m_mqBufferWritePtr + |frame|] == old(m_mqBuffer[..m_mqBufferWritePtr]) + frame
    {
      forall i | 0 <= i < |frame| {
        m_mqBuffer[m_mqBufferWritePtr + i] := frame[i];
      }
    }

    method Append(m: Message)
      requires Valid() && queue.room >= |m| + SIZE_T
      modifies this, m_mqBuffer
      ensures Valid() && m_mqBuffer == old(m_mqBuffer)
      ensures queue == Pushed(old(queue), m)
    {
      var frame, r, w := Frame(m), m_mqBufferReadPtr, m_mqBufferWritePtr;
      ghost var before := m_mqBuffer[..w];
      assert before[r..] == m_mqBuffer[r..w];
      Store(frame);
      SlicesJoin(before, frame, r);
      FlattenAppend(queue.pending, m);
      m_mqBufferWritePtr := w + |frame|;
      queue := Pushed(queue, m);
      assert m_mqBuffer[r..m_mqBufferWritePtr] == m_mqBuffer[..m_mqBufferWritePtr][r..];
    }

    method MQSend(m: Message, memory: bool) returns (ok: bool)
      requires Valid()
      modifies this, m_mqBuffer
      ensures Valid() && (m_mqBuffer == old(m_mqBuffer) || fresh(m_mqBuffer))
      ensures (queue, ok) == Send(old(queue), m, memory)
      ensures old(queue).base + old(queue).room >= |m| + SIZE_T ==> m_mqBuffer == old(m_mqBuffer)
    {
      Compact(|m| + SIZE_T);
      ok := Grow(|m| + SIZE_T, memory);
      if ok {
        Append(m);
      }
    }

    /** The length word at the read pointer belongs to the first pending message. */
    lemma HeadLength()
      requires Valid() && m_mqBufferWritePtr - m_mqBufferReadPtr > SIZE_T
      ensures queue.pending != []
      ensures FromLittleEndian(m_mqBuffer[m_mqBufferReadPtr..m_mqBufferReadPtr + SIZE_T]) == |queue.pending[0]|
      ensures |queue.pending[0]| + SIZE_T <= m_mqBufferWritePtr - m_mqBufferReadPtr
      ensures m_mqBuffer[m_mqBufferReadPtr + SIZE_T + |queue.pending[0]|..m_mqBufferWritePtr] == Flatten(queue.pending[1..])
    {
      var frames := m_mqBuffer[m_mqBufferReadPtr..m_mqBufferWritePtr];
      FirstFrame(queue.pending);
      assert m_mqBuffer[m_mqBufferReadPtr..m_mqBufferReadPtr + SIZE_T] == frames[..SIZE_T];
      assert m_mqBuffer[m_mqBufferReadPtr + SIZE_T + |queue.pending[0]|..m_mqBufferWritePtr]
          == frames[SIZE_T + |queue.pending[0]|..];
    }

    /** One turn of the loop: the first frame is written, or the loop ends. */
    method WriteFrame(room: nat) returns (ends: bool, disable: bool)
      requires Valid() && m_mqBufferWritePtr - m_mqBufferReadPtr > SIZE_T
      modifies this`m_mqBufferReadPtr, this`queue
      ensures Valid() && old(queue).pending != [] && !disable
      ensures ends <==> room == 0 || old(queue).pending[0] == []
      ensures queue == if ends then old(queue) else Popped(old(queue))
    {
      HeadLength();
      var msg_len := FromLittleEndian(m_mqBuffer[m_mqBufferReadPtr..m_mqBufferReadPtr + SIZE_T]);
      var needSpace := msg_len + SIZE_T;
      if needSpace > m_mqBufferWritePtr - m_mqBufferReadPtr {
        return true, true;
      }
      if msg_len == 0 || room == 0 {
        return true, false;
      }
      m_mqBufferReadPtr := m_mqBufferReadPtr + needSpace;
      queue := Popped(queue);
      return false, false;
    }

    /** `room` packets fit into the pipe.  The result tells whether the handler
        loses EPOLLOUT: the queue is drained, or its last frame is cut off,
        which never happens. */
    method WriteInternalMessageQueue(room: nat) returns (disable: bool)
      requires Valid()
      modifies this
      ensures Valid() && m_mqBuffer == old(m_mqBuffer)
      ensures queue == Drain(old(queue), room)
      ensures queue.written == old(queue).written + old(queue).pending[..Passes(old(queue).pending, room)]
      ensures queue.pending == old(queue).pending[Passes(old(queue).pending, room)..]
      ensures disable <==> queue.pending == []
    {
      var ends, left := false, room;
      disable := false;
      while m_mqBufferWritePtr - m_mqBufferReadPtr > SIZE_T && !ends
        invariant Valid() && m_mqBuffer == old(m_mqBuffer) && !disable
        invariant Drain(queue, left) == Drain(old(queue), room)
        invariant ends ==> Drain(queue, left) == queue && queue.pending != []
        decreases |queue.pending|, !ends
      {
        ends, disable := WriteFrame(left);
        left := if ends then left else left - 1;
      }
      Drained(left, ends);
      DrainSplits(old(queue), room);
      disable := disable || m_mqBufferWritePtr == m_mqBufferReadPtr;
    }

    lemma Drained(room: nat, ends: bool)
      requires Valid() && (m_mqBufferWritePtr - m_mqBufferReadPtr > SIZE_T ==> ends)
      requires ends ==> Drain(queue, room) == queue && queue.pending != []
      ensures Drain(queue, room) == queue
      ensures queue.pending == [] <==> m_mqBufferWritePtr == m_mqBufferReadPtr
    {
      var pending := queue.pending;
      assert |Flatten(pending)| == m_mqBufferWritePtr - m_mqBufferReadPtr;
      ShortBuffer(pending);
    }
  }
}
