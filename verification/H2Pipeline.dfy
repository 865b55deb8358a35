/** From send_frame to drain_frames: a queue drained in pieces, a byte stream cut anywhere. */
module H2Pipeline {
  import opened Text
  import opened Lists
  import opened H2

  /** One queued envelope and how much of it has been read. */
  datatype AnyBuf = Buf(data: seq<byte>, offset: nat)

  /** A buffer with bytes left to read, as every queued one is. */
  type SendBuf = b: AnyBuf | b.offset < |b.data| witness Buf([0], 0)

  /** What a queue still has to emit. */
  function Pending(q: seq<SendBuf>): seq<byte>
  {
    if q == [] then [] else q[0].data[q[0].offset..] + Pending(q[1..])
  }

  lemma {:induction false} PendingSnoc(q: seq<SendBuf>, b: SendBuf)
    ensures Pending(q + [b]) == Pending(q) + b.data[b.offset..]
  {
    if q == [] {
      assert q + [b] == [b] && [b][1..] == [];
    } else {
      PendingSnoc(q[1..], b);
      assert (q + [b])[1..] == q[1..] + [b];
    }
  }

  /** What the data provider answers: bytes, "come back later", or end of stream. */
  datatype Answer = Chunk(bytes: seq<byte>) | Deferred | Eof

  datatype Provided = Provided(answer: Answer, queue: seq<SendBuf>)

  function Provide(q: seq<SendBuf>, closed: bool, length: nat): Provided
  {
    if q == [] then Provided(if closed then Eof else Deferred, q)
    else
      var front := q[0];
      var avail := |front.data| - front.offset;
      var n := if avail < length then avail else length;
      var bytes := front.data[front.offset..front.offset + n];
      if front.offset + n >= |front.data| then Provided(Chunk(bytes), q[1..])
      else Provided(Chunk(bytes), [Buf(front.data, front.offset + n)] + q[1..])
  }

  /** Nothing is lost or repeated by a read, end of stream needs an empty closed queue, and reads make progress. */
  lemma {:induction false} ProvideConserves(q: seq<SendBuf>, closed: bool, length: nat)
    ensures var p := Provide(q, closed, length);
            && (p.answer.Eof? <==> q == [] && closed)
            && (p.answer.Deferred? <==> q == [] && !closed)
            && (p.answer.Chunk? ==> p.answer.bytes + Pending(p.queue) == Pending(q))
            && (p.answer.Chunk? ==> |p.answer.bytes| <= length)
            && (p.answer.Chunk? && length > 0 ==> p.answer.bytes != [])
            && (p.answer.Chunk? ==> |p.answer.bytes| == length || p.queue == q[1..])
            && (!p.answer.Chunk? ==> p.queue == q)
  {
  }

  class SendQueue {
    var pending: seq<SendBuf>
    var closed: bool

    constructor ()
      ensures pending == [] && !closed
    {
      pending, closed := [], false;
    }

    /** send_frame and enqueue_send: refuse an oversized payload, else queue its envelope. */
    method SendFrame(kind: byte, payload: seq<byte>) returns (ok: bool)
      modifies this
      ensures closed == old(closed)
      ensures ok <==> |payload| < MAX_FRAME
      ensures !ok ==> pending == old(pending)
      ensures ok ==> pending == old(pending) + [Buf(Envelope(AnyFrame.Frame(kind, payload)), 0)]
      ensures ok ==> Pending(pending) == old(Pending(pending)) + Envelope(AnyFrame.Frame(kind, payload))
    {
      var envelope := EncodeEnvelope(kind, payload);
      ok := envelope.Some?;
      if ok {
        var b := Buf(envelope.value, 0);
        PendingSnoc(pending, b);
        assert b.data[0..] == b.data;
        pending := pending + [b];
      }
    }

    /** data_read_callback on a tracked stream. */
    method DataRead(length: nat) returns (answer: Answer)
      modifies this
      ensures closed == old(closed)
      ensures Provided(answer, pending) == Provide(old(pending), old(closed), length)
      ensures answer.Chunk? ==> answer.bytes + Pending(pending) == old(Pending(pending))
    {
      ProvideConserves(pending, closed, length);
      if pending == [] {
        if closed {
          return Eof;
        }
        return Deferred;
      }
      var front := pending[0];
      var avail := |front.data| - front.offset;
      var n := if avail < length then avail else length;
      answer := Chunk(front.data[front.offset..front.offset + n]);
      front := Buf(front.data, front.offset + n);
      pending := if front.offset >= |front.data| then pending[1..] else [front] + pending[1..];
    }

    /** close_stream marks the queue; what is queued is still emitted. */
    method Close()
      modifies this
      ensures closed && pending == old(pending)
    {
      closed := true;
    }
  }

  // ---- Whole runs -----------------------------------------------------------

  /** Both ends of one stream, the bytes between them, and the history of frames and bytes. */
  datatype World = World(
    sent: seq<Frame>, queue: seq<SendBuf>, closed: bool, emitted: seq<byte>,
    inFlight: seq<byte>, recv: seq<byte>, got: seq<Frame>)

  /** A send, a read of at most `length` bytes, a delivery of `n` bytes, or a close. */
  datatype Event = Send(kind: byte, payload: seq<byte>) | Read(length: nat) | Deliver(n: nat) | Close

  const START := World([], [], false, [], [], [], [])

  function Step(w: World, e: Event): World
  {
    match e
    case Send(kind, payload) =>
      if |payload| >= MAX_FRAME then w
      else
        var f := AnyFrame.Frame(kind, payload);
        w.(sent := w.sent + [f], queue := w.queue + [Buf(Envelope(f), 0)])
    case Read(length) =>
      var p := Provide(w.queue, w.closed, length);
      if p.answer.Chunk? then
        w.(queue := p.queue, emitted := w.emitted + p.answer.bytes, inFlight := w.inFlight + p.answer.bytes)
      else w
    case Deliver(n) =>
      var k := if n < |w.inFlight| then n else |w.inFlight|;
      var d := Drain(w.recv + w.inFlight[..k]);
      w.(inFlight := w.inFlight[k..], recv := d.rest, got := w.got + d.frames)
    case Close => w.(closed := true)
  }

  /** Frames arrive in order, and all bytes are accounted for. */
  ghost predicate Inv(w: World) {
    && w.emitted + Pending(w.queue) == Wire(w.sent)
    && w.got <= w.sent
    && w.recv + w.inFlight + Pending(w.queue) == Wire(w.sent[|w.got|..])
    && Drain(w.recv) == Drained([], w.recv)
  }

  lemma {:induction false} SendKeeps(w: World, f: Frame)
    requires Inv(w)
    ensures Inv(w.(sent := w.sent + [f], queue := w.queue + [Buf(Envelope(f), 0)]))
  {
    hide Drain, Envelope, Wire, Pending;
    var env := Envelope(f);
    PendingSnoc(w.queue, Buf(env, 0));
    assert env[0..] == env;
    WireSnoc(w.sent, f);
    WireSnoc(w.sent[|w.got|..], f);
    assert (w.sent + [f])[|w.got|..] == w.sent[|w.got|..] + [f];
    Regroup(w.recv + w.inFlight, Pending(w.queue), env);
    Regroup(w.emitted, Pending(w.queue), env);
  }

  lemma {:induction false} WireSnoc(fs: seq<Frame>, f: Frame)
    ensures Wire(fs + [f]) == Wire(fs) + Envelope(f)
  {
    hide Envelope;
    WireSplit(fs + [f], |fs|);
    assert (fs + [f])[..|fs|] == fs && (fs + [f])[|fs|..] == [f];
    assert [f][1..] == [];
  }

  lemma {:induction false} ReadKeeps(w: World, length: nat)
    requires Inv(w)
    ensures Inv(Step(w, Read(length)))
  {
    hide Drain, Wire;
    ProvideConserves(w.queue, w.closed, length);
    hide Provide, Pending;
    var p := Provide(w.queue, w.closed, length);
    if p.answer.Chunk? {
      var bytes, left := p.answer.bytes, Pending(p.queue);
      assert w.emitted + bytes + left == w.emitted + (bytes + left);
      assert w.recv + (w.inFlight + bytes) + left == w.recv + w.inFlight + (bytes + left);
    }
  }

  lemma {:induction false} DeliverKeeps(w: World, n: nat)
    requires Inv(w)
    ensures Inv(Step(w, Deliver(n)))
  {
    hide Drain, Wire, Pending;
    var k := if n < |w.inFlight| then n else |w.inFlight|;
    var buf, left, due := w.recv + w.inFlight[..k], w.inFlight[k..], w.sent[|w.got|..];
    Recut(w.recv, w.inFlight, k, Pending(w.queue));
    var j := DrainPrefix(due, buf);
    DrainIdempotent(buf);
    WireSplit(due, j);
    Rest(Wire(due[..j]), Drain(buf).rest, left, Pending(w.queue), Wire(due[j..]));
    assert due[j..] == w.sent[|w.got| + j..] && w.got + due[..j] == w.sent[..|w.got| + j];
  }

  /** Cutting the bytes in flight after `k` only moves the boundary. */
  lemma {:induction false} Recut(recv: seq<byte>, inFlight: seq<byte>, k: nat, queued: seq<byte>)
    requires k <= |inFlight|
    ensures recv + inFlight + queued == recv + inFlight[..k] + inFlight[k..] + queued
    ensures recv + inFlight[..k] <= recv + inFlight + queued
  {
  }

  lemma {:induction false} Rest(a: seq<byte>, rest: seq<byte>, left: seq<byte>, queued: seq<byte>, b: seq<byte>)
    requires (a + rest) + left + queued == a + b
    ensures rest + left + queued == b
  {
    assert (a + rest) + left + queued == a + (rest + left + queued);
    assert (a + b)[|a|..] == b && (a + (rest + left + queued))[|a|..] == rest + left + queued;
  }

  lemma {:induction false} DrainIdempotent(buf: seq<byte>)
    ensures Drain(Drain(buf).rest) == Drained([], Drain(buf).rest)
    decreases |buf|
  {
    hide FromBe32, Head;
    if HasFrame(buf) {
      DrainIdempotent(Tail(buf));
    }
  }

  function Run(w: World, es: seq<Event>): World
    decreases |es|
  {
    if es == [] then w else Run(Step(w, es[0]), es[1..])
  }

  lemma {:induction false} StepKeeps(w: World, e: Event)
    requires Inv(w)
    ensures Inv(Step(w, e))
  {
    match e
    case Send(kind, payload) =>
      if |payload| < MAX_FRAME {
        SendKeeps(w, AnyFrame.Frame(kind, payload));
      }
    case Read(length) => ReadKeeps(w, length);
    case Deliver(n) => DeliverKeeps(w, n);
    case Close =>
  }

  lemma {:induction false} StartInv()
    ensures Inv(START)
  {
  }

  lemma {:induction false} RunKeeps(w: World, es: seq<Event>)
    requires Inv(w)
    ensures Inv(Run(w, es))
    decreases |es|
  {
    hide Step, Inv;
    if es != [] {
      StepKeeps(w, es[0]);
      RunKeeps(Step(w, es[0]), es[1..]);
    }
  }

  /**
   * End to end, from an empty stream: after any run, what was received is a prefix of what was sent,
   * emitted and pending bytes add up to the enqueued envelopes, once no byte is queued or in flight
   * everything has been received, and end of stream is answered only when every envelope is out.
   */
  lemma {:induction false} Delivery(es: seq<Event>, length: nat)
    ensures var v := Run(START, es);
            && v.got <= v.sent
            && v.emitted + Pending(v.queue) == Wire(v.sent)
            && (v.inFlight == [] && v.queue == [] ==> v.got == v.sent)
            && (Provide(v.queue, v.closed, length).answer.Eof? ==>
                  v.closed && v.emitted == Wire(v.sent) && (v.inFlight == [] ==> v.got == v.sent))
  {
    hide Run, Drain, Wire;
    StartInv();
    RunKeeps(START, es);
    var v := Run(START, es);
    if v.queue == [] {
      assert v.emitted + [] == v.emitted;
      if v.inFlight == [] {
        AllArrived(v);
      }
    }
  }

  lemma {:induction false} AllArrived(w: World)
    requires Inv(w) && w.inFlight == [] && w.queue == []
    ensures w.got == w.sent
  {
    var due := w.sent[|w.got|..];
    assert w.recv == w.recv + w.inFlight + Pending(w.queue);
    hide Drain, Wire;
    var k := DrainPrefix(due, w.recv);
  }
}
