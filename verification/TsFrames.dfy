/** The TypeScript HTTP/2 framing: envelope codec, reassembly and the async-iterator queue. */
module TsFrames {
  import opened Lists
  import opened H2

  const CONTROL: byte := 1
  const MEDIA: byte := 2

  datatype Item = Item(kind: byte, payload: seq<byte>)

  function Encoded(f: Item): seq<byte>
    requires |f.payload| < 0x1_0000_0000
  {
    [f.kind] + Be32(|f.payload|) + f.payload
  }

  /** encodeFrame: the buffer is filled field by field. */
  method EncodeFrame(kind: byte, payload: seq<byte>) returns (buf: array<byte>)
    requires |payload| < 0x1_0000_0000
    ensures fresh(buf) && buf[..] == Encoded(Item(kind, payload))
  {
    buf := new byte[5 + |payload|];
    buf[0] := kind;
    var len := Be32(|payload|);
    buf[1], buf[2], buf[3], buf[4] := len[0], len[1], len[2], len[3];
    for i := 0 to |payload|
      invariant buf[0] == kind && buf[1] == len[0] && buf[2] == len[1] && buf[3] == len[2] && buf[4] == len[3]
      invariant forall j | 0 <= j < i :: buf[5 + j] == payload[j]
    {
      buf[5 + i] := payload[i];
    }
  }

  /** The result of decodeFrame; it throws on an oversized length. */
  datatype Decoded = Incomplete | Oversized | Decoded(item: Item, consumed: nat)

  function Decode(buf: seq<byte>, max: nat): (r: Decoded)
    ensures r.Decoded? ==> 5 <= r.consumed <= |buf|
  {
    if |buf| < 5 then Incomplete
    else
      var len := FromBe32(buf[1..]);
      if len > max then Oversized
      else if |buf| < 5 + len then Incomplete
      else Decoded(Item(buf[0], buf[5..5 + len]), 5 + len)
  }

  predicate Known(kind: byte) {
    kind == CONTROL || kind == MEDIA
  }

  /** An item that travels: a control (1) or media (2) frame with a payload within the limit. */
  predicate Sendable(f: Item, max: nat) {
    (f.kind == 1 || f.kind == 2) && |f.payload| <= max && |f.payload| < 0x1_0000_0000
  }

  lemma {:induction false} DecodeEncoded(f: Item, tail: seq<byte>, max: nat)
    requires |f.payload| < 0x1_0000_0000 && |f.payload| <= max
    ensures Decode(Encoded(f) + tail, max) == Decoded(f, 5 + |f.payload|)
    ensures (Encoded(f) + tail)[5 + |f.payload|..] == tail
  {
  }

  /** Only the encoding of an item decodes to it. */
  lemma {:induction false} DecodedOnly(buf: seq<byte>, max: nat)
    requires Decode(buf, max).Decoded?
    ensures var d := Decode(buf, max);
            && |d.item.payload| <= max && |d.item.payload| < 0x1_0000_0000
            && buf == Encoded(d.item) + buf[d.consumed..]
  {
  }

  /** Decoding does not depend on what follows, once it has an answer. */
  lemma {:induction false} DecodeStable(buf: seq<byte>, more: seq<byte>, max: nat)
    ensures Decode(buf, max) != Incomplete ==> Decode(buf + more, max) == Decode(buf, max)
    ensures Decode(buf, max).Decoded? ==>
              (buf + more)[Decode(buf, max).consumed..] == buf[Decode(buf, max).consumed..] + more
  {
  }

  // ---- Reassembly -----------------------------------------------------------

  /** What flush queues, what it leaves in the buffer, and whether it throws. */
  datatype Flushed = Flushed(items: seq<Item>, rest: seq<byte>, failed: bool)

  /** The buffer starts with a whole frame of a known type. */
  predicate Ready(buf: seq<byte>, max: nat) {
    var d := Decode(buf, max);
    d.Decoded? && Known(d.item.kind)
  }

  function Flush(buf: seq<byte>, max: nat): Flushed
    decreases |buf|
  {
    if Ready(buf, max) then
      var d := Decode(buf, max);
      var f := Flush(buf[d.consumed..], max);
      f.(items := [d.item] + f.items)
    else Flushed([], buf, Decode(buf, max) != Incomplete)
  }

  /** Flushing what came first and then the remainder with the rest is flushing everything. */
  lemma {:induction false} FlushSplit(buf: seq<byte>, more: seq<byte>, max: nat)
    ensures var first := Flush(buf, max);
            var second := Flush(first.rest + more, max);
            && Flush(buf + more, max) == Flushed(first.items + second.items, second.rest, second.failed)
            && (first.failed ==> second == Flushed([], first.rest + more, true))
    decreases |buf|
  {
    hide Decode;
    DecodeStable(buf, more, max);
    if Ready(buf, max) {
      var d := Decode(buf, max);
      FlushSplit(buf[d.consumed..], more, max);
      var ahead := Flush(buf[d.consumed..], max);
      var behind := Flush(ahead.rest + more, max).items;
      Regroup([d.item], ahead.items, behind);
    } else {
      var second := Flush(buf + more, max);
      assert [] + second.items == second.items;
    }
  }

  function Concat(chunks: seq<seq<byte>>): seq<byte> {
    if chunks == [] then [] else Concat(chunks[..|chunks| - 1]) + chunks[|chunks| - 1]
  }

  /** Data events one chunk at a time; a failed flush keeps the buffer and fails again. */
  function FlushChunks(chunks: seq<seq<byte>>, max: nat): Flushed {
    if chunks == [] then Flush([], max)
    else
      var before := FlushChunks(chunks[..|chunks| - 1], max);
      var now := Flush(before.rest + chunks[|chunks| - 1], max);
      now.(items := before.items + now.items)
  }

  /** Reassembly depends on the bytes alone, not on how they were cut, malformed input included. */
  lemma {:induction false} ChunkingIndependent(chunks: seq<seq<byte>>, max: nat)
    ensures FlushChunks(chunks, max) == Flush(Concat(chunks), max)
  {
    hide Flush;
    if chunks != [] {
      var init, last := chunks[..|chunks| - 1], chunks[|chunks| - 1];
      ChunkingIndependent(init, max);
      FlushSplit(Concat(init), last, max);
    }
  }

  ghost function Stream(items: seq<Item>): seq<byte>
    requires forall i | 0 <= i < |items| :: |items[i].payload| < 0x1_0000_0000
  {
    if items == [] then [] else Encoded(items[0]) + Stream(items[1..])
  }

  ghost predicate AllSendable(items: seq<Item>, max: nat) {
    forall i | 0 <= i < |items| :: Sendable(items[i], max)
  }

  /** `buf` is these frames followed by bytes that do not start with another one. */
  ghost predicate LongestPrefix(buf: seq<byte>, items: seq<Item>, rest: seq<byte>, max: nat) {
    AllSendable(items, max) && buf == Stream(items) + rest && !Ready(rest, max)
  }

  lemma {:induction false} FlushIsLongest(buf: seq<byte>, max: nat)
    ensures LongestPrefix(buf, Flush(buf, max).items, Flush(buf, max).rest, max)
    decreases |buf|
  {
    hide Decode, Encoded;
    if Ready(buf, max) {
      var d := Decode(buf, max);
      DecodedOnly(buf, max);
      FlushIsLongest(buf[d.consumed..], max);
      var f := Flush(buf[d.consumed..], max);
      assert ([d.item] + f.items)[1..] == f.items;
      assert Encoded(d.item) + (Stream(f.items) + f.rest) == Encoded(d.item) + Stream(f.items) + f.rest;
    } else {
      assert [] + buf == buf;
    }
  }

  lemma {:induction false} LongestIsFlush(buf: seq<byte>, items: seq<Item>, rest: seq<byte>, max: nat)
    requires LongestPrefix(buf, items, rest, max)
    ensures Flush(buf, max).items == items && Flush(buf, max).rest == rest
    decreases |items|
  {
    hide Decode, Encoded;
    if items == [] {
      assert [] + rest == rest;
    } else {
      var tail := Stream(items[1..]) + rest;
      assert Encoded(items[0]) + Stream(items[1..]) + rest == Encoded(items[0]) + tail;
      assert AllSendable(items[1..], max);
      assert Sendable(items[0], max);
      DecodeEncoded(items[0], tail, max);
      LongestIsFlush(tail, items[1..], rest, max);
    }
  }

  /** However the bytes are cut, the frames queued are exactly the longest prefix of valid ones. */
  lemma {:induction false} QueuedExactly(chunks: seq<seq<byte>>, items: seq<Item>, rest: seq<byte>, max: nat)
    ensures FlushChunks(chunks, max).items == items && FlushChunks(chunks, max).rest == rest
            <==> LongestPrefix(Concat(chunks), items, rest, max)
  {
    hide Flush, FlushChunks, LongestPrefix;
    ChunkingIndependent(chunks, max);
    FlushIsLongest(Concat(chunks), max);
    if LongestPrefix(Concat(chunks), items, rest, max) {
      LongestIsFlush(Concat(chunks), items, rest, max);
    }
  }

  /** The buffer begins with a frame to refuse: a length past the limit, or a whole frame of another type. */
  ghost predicate Refusable(buf: seq<byte>, max: nat) {
    && |buf| >= 5
    && var len := FromBe32(buf[1..]);
       len > max || (|buf| >= 5 + len && buf[0] != 1 && buf[0] != 2)
  }

  /** Reassembly fails exactly when what follows the longest prefix of valid frames begins with one to refuse. */
  lemma {:induction false} FailsExactly(chunks: seq<seq<byte>>, max: nat)
    ensures FlushChunks(chunks, max).failed <==> Refusable(FlushChunks(chunks, max).rest, max)
  {
    hide Flush, FlushChunks, Refusable;
    ChunkingIndependent(chunks, max);
    FlushFails(Concat(chunks), max);
  }

  lemma {:induction false} FlushFails(buf: seq<byte>, max: nat)
    ensures Flush(buf, max).failed <==> Refusable(Flush(buf, max).rest, max)
    decreases |buf|
  {
    hide FromBe32;
    if Ready(buf, max) {
      FlushFails(buf[Decode(buf, max).consumed..], max);
    }
  }

  // ---- The iterator ---------------------------------------------------------

  /** How a call of next, or a promise it left pending, is settled. */
  datatype Settled = Value(item: Item) | Finished | Rejected | Pending

  lemma {:induction false} QueueGrows(delivered: seq<Item>, queue: seq<Item>, received: seq<byte>,
                                      chunk: seq<byte>, max: nat)
    requires delivered + queue == Flush(received, max).items
    ensures var now := Flush(Flush(received, max).rest + chunk, max);
            && Flush(received + chunk, max) == Flushed(delivered + (queue + now.items), now.rest, now.failed)
            && (Flush(received, max).failed ==> now.failed && now.items == [])
  {
    hide Flush;
    FlushSplit(received, chunk, max);
    var now := Flush(Flush(received, max).rest + chunk, max);
    Regroup(delivered, queue, now.items);
  }

  class FrameIterator {
    const max: nat
    var buf: seq<byte>
    var queue: seq<Item>
    var waiting: bool   // a promise returned by Next is pending
    var done: bool
    var failed: bool    // an error is recorded
    ghost var received: seq<byte>
    ghost var delivered: seq<Item>
    ghost var abandoned: nat // promises replaced by a later one, which never settle

    /** Queued and delivered frames are those of all bytes so far; nobody waits on a non-empty queue. */
    ghost predicate Valid()
      reads this
    {
      && delivered + queue == Flush(received, max).items
      && buf == Flush(received, max).rest
      && (Flush(received, max).failed ==> done && failed)
      && (waiting ==> queue == [])
    }

    constructor (max: nat)
      ensures Valid() && this.max == max && received == [] && delivered == [] && !waiting && !done && !failed
      ensures abandoned == 0
    {
      this.max := max;
      buf, queue, received, delivered := [], [], [], [];
      waiting, done, failed, abandoned := false, false, false, 0;
    }

    /** flush: frames leave the buffer for the queue until one is incomplete or refused. */
    method FlushBuffer() returns (threw: bool)
      modifies this`buf, this`queue
      ensures buf == Flush(old(buf), max).rest && queue == old(queue) + Flush(old(buf), max).items
      ensures threw == Flush(old(buf), max).failed
    {
      assert queue + Flush(buf, max).items == old(queue) + Flush(old(buf), max).items;
      while |buf| >= 5
        invariant Flush(old(buf), max).rest == Flush(buf, max).rest
        invariant Flush(old(buf), max).failed == Flush(buf, max).failed
        invariant queue + Flush(buf, max).items == old(queue) + Flush(old(buf), max).items
        decreases |buf|
      {
        hide FromBe32;
        var result := Decode(buf, max);
        if result.Incomplete? {
          break;
        }
        if result.Oversized? || !Known(result.item.kind) {
          return true;
        }
        Regroup(queue, [result.item], Flush(buf[result.consumed..], max).items);
        buf := buf[result.consumed..];
        queue := queue + [result.item];
      }
      return false;
    }

    /** The data handler; `woken` says how a waiting consumer is settled. */
    method OnData(chunk: seq<byte>) returns (woken: Settled)
      requires Valid()
      modifies this`buf, this`queue, this`waiting, this`done, this`failed, this`received, this`delivered
      ensures Valid() && received == old(received) + chunk
      ensures woken.Value? ==> old(waiting) && delivered == old(delivered) + [woken.item] && !waiting
      ensures !woken.Value? ==> delivered == old(delivered)
      ensures woken.Rejected? <==> old(waiting) && Flush(received, max).failed
      ensures !woken.Finished? && (woken.Pending? ==> waiting == old(waiting))
    {
      hide Flush;
      QueueGrows(delivered, queue, received, chunk, max);
      received := received + chunk;
      buf := buf + chunk;
      var threw := FlushBuffer();
      if threw {
        failed, done := true, true;
        if waiting {
          waiting := false;
          return Rejected;
        }
        return Pending;
      }
      if waiting && |queue| > 0 {
        woken := Value(queue[0]);
        assert delivered + queue == (delivered + [queue[0]]) + queue[1..];
        delivered := delivered + [queue[0]];
        queue := queue[1..];
        waiting := false;
      } else {
        woken := Pending;
      }
    }

    method OnEnd() returns (woken: Settled)
      requires Valid()
      modifies this`done, this`waiting
      ensures Valid() && done && !waiting
      ensures woken == if old(waiting) then Finished else Pending
    {
      done := true;
      woken := if waiting then Finished else Pending;
      waiting := false;
    }

    method OnError() returns (woken: Settled)
      requires Valid()
      modifies this`done, this`failed, this`waiting
      ensures Valid() && done && failed && !waiting
      ensures woken == if old(waiting) then Rejected else Pending
    {
      done, failed := true, true;
      woken := if waiting then Rejected else Pending;
      waiting := false;
    }

    /**
     * next: queued frames come before the end and before any error. A call that has to wait while
     * another waits takes its place, and that one's promise is abandoned.
     */
    method Next() returns (result: Settled)
      requires Valid()
      modifies this`queue, this`waiting, this`delivered, this`abandoned
      ensures Valid()
      ensures old(queue) != [] ==> result == Value(old(queue)[0]) && delivered == old(delivered) + [old(queue)[0]]
      ensures old(queue) == [] ==>
                && delivered == old(delivered)
                && result == if !done then Pending else if failed then Rejected else Finished
      ensures waiting <==> old(waiting) || result == Pending
      ensures abandoned == old(abandoned) + if old(waiting) && result == Pending then 1 else 0
    {
      if |queue| > 0 {
        result := Value(queue[0]);
        assert delivered + queue == (delivered + [queue[0]]) + queue[1..];
        delivered := delivered + [queue[0]];
        queue := queue[1..];
      } else if done {
        result := if failed then Rejected else Finished;
      } else {
        abandoned := abandoned + if waiting then 1 else 0;
        waiting := true;
        result := Pending;
      }
    }

    /** return: later calls see the end once the queue is drained. */
    method Return() returns (result: Settled)
      requires Valid()
      modifies this`done
      ensures Valid() && done && result == Finished
    {
      done := true;
      result := Finished;
    }
  }
}
