/** The HTTP/2 envelope: its encoder and the reassembly buffer. */
module H2 {
  import opened Text
  import opened Lists

  type byte = x: int | 0 <= x < 256

  datatype AnyFrame = Frame(kind: byte, payload: seq<byte>)

  /** A frame whose payload fits the size limit. */
  type Frame = f: AnyFrame | |f.payload| < MAX_FRAME witness AnyFrame.Frame(1, [])

  /** kH2MaxFrameSize: 1 MiB, counting the type octet. */
  const MAX_FRAME := 0x10_0000

  function Be32(n: nat): (r: seq<byte>)
    requires n < 0x1_0000_0000
    ensures |r| == 4
  {
    var b2 := n / 0x100;
    var b1 := b2 / 0x100;
    [b1 / 0x100, b1 % 0x100, b2 % 0x100, n % 0x100]
  }

  function FromBe32(b: seq<byte>): nat
    requires |b| >= 4
  {
    ((b[0] as int * 0x100 + b[1] as int) * 0x100 + b[2] as int) * 0x100 + b[3] as int
  }

  function Envelope(f: Frame): (r: seq<byte>)
    ensures |r| == 5 + |f.payload|
  {
    Be32(1 + |f.payload|) + [f.kind] + f.payload
  }

  /** The byte stream of a frame sequence. */
  function Wire(fs: seq<Frame>): seq<byte>
  {
    if fs == [] then [] else Envelope(fs[0]) + Wire(fs[1..])
  }

  /** encode_h2_envelope; a payload of MAX_FRAME bytes or more throws. */
  method EncodeEnvelope(kind: byte, payload: seq<byte>) returns (r: Option<seq<byte>>)
    ensures r.Some? <==> |payload| < 1_048_576
    ensures r.Some? ==> r.value == Envelope(AnyFrame.Frame(kind, payload))
  {
    if |payload| >= MAX_FRAME {
      return None;
    }
    var len := 1 + |payload|;
    var out := Be32(len) + [kind];
    for i := 0 to |payload|
      invariant out == Be32(len) + [kind] + payload[..i]
    {
      out := out + [payload[i]];
    }
    return Some(out);
  }

  // ---- Reassembly -----------------------------------------------------------

  datatype Drained = Drained(frames: seq<Frame>, rest: seq<byte>)

  /** The length prefix at the front of a buffer is one the receiver refuses. */
  predicate BadLength(buf: seq<byte>)
    requires |buf| >= 5
  {
    FromBe32(buf) == 0 || FromBe32(buf) > MAX_FRAME
  }

  /** The buffer starts with a whole frame. */
  predicate HasFrame(buf: seq<byte>) {
    |buf| >= 5 && !BadLength(buf) && |buf| >= 4 + FromBe32(buf)
  }

  function Head(buf: seq<byte>): Frame
    requires HasFrame(buf)
  {
    AnyFrame.Frame(buf[4], buf[5..4 + FromBe32(buf)])
  }

  function Tail(buf: seq<byte>): (r: seq<byte>)
    requires HasFrame(buf)
    ensures |r| < |buf|
  {
    buf[4 + FromBe32(buf)..]
  }

  /** Everything drain_frames takes out of a buffer, and what it leaves. */
  function Drain(buf: seq<byte>): Drained
    decreases |buf|
  {
    if HasFrame(buf) then
      var d := Drain(Tail(buf));
      Drained([Head(buf)] + d.frames, d.rest)
    else if |buf| >= 5 && BadLength(buf) then Drained([], [])
    else Drained([], buf)
  }

  /** Draining `buf` meets a malformed length and throws the rest of the buffer away. */
  predicate Discards(buf: seq<byte>)
    decreases |buf|
  {
    if HasFrame(buf) then Discards(Tail(buf)) else |buf| >= 5 && BadLength(buf)
  }

  /** One turn of the drain loop: take the frame at the front, throw a malformed buffer away, or stop. */
  lemma {:induction false} DrainFrom(result: seq<Frame>, buf: seq<byte>)
    ensures var all := Drained(result + Drain(buf).frames, Drain(buf).rest);
            && (result == [] ==> all == Drain(buf))
            && if HasFrame(buf) then
                 all == Drained((result + [Head(buf)]) + Drain(Tail(buf)).frames, Drain(Tail(buf)).rest)
               else all == Drained(result, if |buf| >= 5 && BadLength(buf) then [] else buf)
  {
    hide FromBe32, Head, Tail;
    if HasFrame(buf) {
      Regroup(result, [Head(buf)], Drain(Tail(buf)).frames);
    } else {
      assert result + [] == result;
    }
    if result == [] {
      assert [] + Drain(buf).frames == Drain(buf).frames;
    }
  }

  class RecvState {
    var buf: seq<byte>

    constructor ()
      ensures buf == []
    {
      buf := [];
    }

    /** RecvState::drain_frames. */
    method DrainFrames() returns (result: seq<Frame>)
      modifies this
      ensures Drained(result, buf) == Drain(old(buf))
    {
      result := [];
      hide Drain, FromBe32;
      DrainFrom([], buf);
      while |buf| >= 5
        invariant Drain(old(buf)) == Drained(result + Drain(buf).frames, Drain(buf).rest)
        decreases |buf|
      {
        DrainFrom(result, buf);
        var len := FromBe32(buf);
        if len == 0 || len > MAX_FRAME {
          buf := [];
          return;
        }
        if |buf| < 4 + len {
          return;
        }
        result := result + [AnyFrame.Frame(buf[4], buf[5..4 + len])];
        buf := buf[4 + len..];
      }
      DrainFrom(result, buf);
    }

    /** on_data_chunk_recv_callback: append the chunk, then drain. */
    method OnDataChunk(data: seq<byte>) returns (frames: seq<Frame>)
      modifies this
      ensures Drained(frames, buf) == Drain(old(buf) + data)
    {
      buf := buf + data;
      frames := DrainFrames();
    }
  }

  lemma {:induction false} FrameKept(buf: seq<byte>, more: seq<byte>)
    requires HasFrame(buf)
    ensures HasFrame(buf + more) && Head(buf + more) == Head(buf) && Tail(buf + more) == Tail(buf) + more
  {
  }

  lemma {:induction false} DrainSplit(buf: seq<byte>, more: seq<byte>)
    ensures !Discards(buf) ==>
              Drain(buf + more) == Drained(Drain(buf).frames + Drain(Drain(buf).rest + more).frames,
                                           Drain(Drain(buf).rest + more).rest)
    ensures Discards(buf) ==> Drain(buf + more) == Drained(Drain(buf).frames, [])
    decreases |buf|
  {
    hide HasFrame, Head, Tail, BadLength;
    if HasFrame(buf) {
      FrameKept(buf, more);
      DrainSplit(Tail(buf), more);
      var ahead, behind := Drain(Tail(buf)).frames, Drain(Drain(buf).rest + more).frames;
      Regroup([Head(buf)], ahead, behind);
    } else {
      DrainStuck(buf, more);
    }
  }

  lemma {:induction false} DrainStuck(buf: seq<byte>, more: seq<byte>)
    requires !HasFrame(buf)
    ensures Drain(buf) == Drained([], if Discards(buf) then [] else buf)
    ensures Discards(buf) ==> Drain(buf + more) == Drained([], [])
    ensures [] + Drain(buf + more).frames == Drain(buf + more).frames
  {
  }

  /** A buffer can be cut anywhere without changing the frames exactly when it is not malformed. */
  lemma {:induction false} ChunkingIndependentIff(buf: seq<byte>)
    ensures (forall more :: Drain(buf + more).frames
               == Drain(buf).frames + Drain(Drain(buf).rest + more).frames)
            <==> !Discards(buf)
  {
    if Discards(buf) {
      var f := AnyFrame.Frame(1, []);
      var more := Envelope(f) + [];
      DrainSplit(buf, more);
      DrainEnvelope(f, []);
      DiscardLeavesNothing(buf);
      hide Envelope, Discards;
      assert Drain(buf).rest + more == more;
      assert |Drain(buf).frames + Drain(more).frames| > |Drain(buf + more).frames|;
    } else {
      forall more
        ensures Drain(buf + more).frames == Drain(buf).frames + Drain(Drain(buf).rest + more).frames
      {
        DrainSplit(buf, more);
      }
    }
  }

  lemma {:induction false} DiscardLeavesNothing(buf: seq<byte>)
    requires Discards(buf)
    ensures Drain(buf).rest == []
    decreases |buf|
  {
    if HasFrame(buf) {
      DiscardLeavesNothing(Tail(buf));
    }
  }

  lemma {:induction false} DrainEnvelope(f: Frame, more: seq<byte>)
    ensures HasFrame(Envelope(f) + more)
    ensures Drain(Envelope(f) + more) == Drained([f] + Drain(more).frames, Drain(more).rest)
  {
  }

  lemma {:induction false} DrainPartial(f: Frame, buf: seq<byte>)
    requires buf < Envelope(f)
    ensures !HasFrame(buf) && !Discards(buf) && Drain(buf) == Drained([], buf)
  {
  }

  /** The remaining stream after `k` frames. */
  lemma {:induction false} WireSplit(fs: seq<Frame>, k: nat)
    requires k <= |fs|
    ensures Wire(fs) == Wire(fs[..k]) + Wire(fs[k..])
  {
    hide Envelope;
    if k == 0 {
      assert fs[..0] == [] && fs[0..] == fs;
    } else {
      WireSplit(fs[1..], k - 1);
      assert fs[..k][1..] == fs[1..][..k - 1] && fs[k..] == fs[1..][k - 1..];
    }
  }

  /** Draining a prefix of a frame stream: the first `k` frames whole, then part of the next. */
  lemma {:induction false} DrainPrefix(fs: seq<Frame>, buf: seq<byte>) returns (k: nat)
    requires buf <= Wire(fs)
    ensures !Discards(buf)
    ensures k <= |fs| && Drain(buf).frames == fs[..k]
    ensures buf == Wire(fs[..k]) + Drain(buf).rest
    ensures buf == Wire(fs) ==> k == |fs|
  {
    hide Envelope, HasFrame, Discards, Head, Tail, BadLength, Drain;
    k := 0;
    if fs == [] {
      DrainNothing();
    } else {
      WireCons(fs, 1);
      var env, rest := Envelope(fs[0]), Wire(fs[1..]);
      hide Wire;
      if |buf| < |env| {
        assert buf == env[..|buf|];
        DrainPartial(fs[0], buf);
        assert fs[..0] == [];
        DrainNothing();
      } else {
        var more := buf[|env|..];
        PrefixSplit(buf, env, rest);
        DrainEnvelope(fs[0], more);
        DiscardsAfter(fs[0], more);
        k := DrainPrefix(fs[1..], more);
        WireCons(fs, k + 1);
        k := k + 1;
      }
    }
  }

  lemma {:induction false} DrainNothing()
    ensures Drain([]) == Drained([], []) && !Discards([]) && Wire([]) == []
  {
  }

  lemma {:induction false} WireCons(fs: seq<Frame>, k: nat)
    requires 0 < k <= |fs|
    ensures fs[..k] == [fs[0]] + fs[1..][..k - 1]
    ensures Wire(fs[..k]) == Envelope(fs[0]) + Wire(fs[1..][..k - 1])
    ensures Wire(fs) == Envelope(fs[0]) + Wire(fs[1..])
  {
  }

  lemma {:induction false} DiscardsAfter(f: Frame, more: seq<byte>)
    ensures Discards(Envelope(f) + more) == Discards(more)
  {
  }

  lemma {:induction false} PrefixSplit(buf: seq<byte>, a: seq<byte>, b: seq<byte>)
    requires buf <= a + b && |a| <= |buf|
    ensures buf == a + buf[|a|..] && buf[|a|..] <= b
    ensures buf == a + b ==> buf[|a|..] == b
  {
  }

  /**
   * A buffer of five bytes or more that begins with length `n` is thrown away exactly when `n` is zero
   * or over one mebibyte, yields a frame exactly when the rest of it is there, and waits otherwise.
   */
  lemma {:induction false} LengthExactly(n: nat, more: seq<byte>)
    requires n < 0x1_0000_0000 && more != []
    ensures var buf := Be32(n) + more;
            if n == 0 || n > 1_048_576 then Drain(buf) == Drained([], [])
            else if |more| < n then Drain(buf) == Drained([], buf)
            else
              && Drain(buf).frames != []
              && Drain(buf).frames[0] == AnyFrame.Frame(more[0], more[1..n])
              && Drain(buf).rest == Drain(more[n..]).rest && Drain(buf).frames[1..] == Drain(more[n..]).frames
  {
    var buf := Be32(n) + more;
    assert FromBe32(buf) == n by { LengthReads(n, more); }
    assert buf[4] == more[0];
    hide Be32, FromBe32;
    if 0 < n <= |more| {
      assert buf[5..4 + n] == more[1..n] && buf[4 + n..] == more[n..];
    }
  }

  lemma {:induction false} LengthReads(n: nat, more: seq<byte>)
    requires n < 0x1_0000_0000
    ensures FromBe32(Be32(n) + more) == n
  {
    var b := Be32(n) + more;
    assert b[0] == Be32(n)[0] && b[1] == Be32(n)[1] && b[2] == Be32(n)[2] && b[3] == Be32(n)[3];
  }
}
