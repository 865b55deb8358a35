/** Offsets of one direction: what the receiver expects, what is in flight, what the sender uses next. */
module TwoPartyFlow {
  import opened Text
  import opened TsStreams
  import opened TwoParty

  type Catalog = map<string, Stream>

  /** A media frame such as a session of role `sender` sends on these streams. */
  predicate Legit(env: Env, streams: Catalog, sender: Role, f: Frame)
    requires f.Media?
  {
    && f.id in streams
    && AllowsSender(streams[f.id].decl.direction, sender)
    && f.contentType == streams[f.id].decl.contentType
    && Increment(env, streams[f.id].decl, f.bytes).Some?
  }

  function Width(env: Env, streams: Catalog, f: Frame): nat {
    if f.Media? && f.id in streams then OrZero(Increment(env, streams[f.id].decl, f.bytes)) else 0
  }

  /** The offsets that the frames of one stream cover together. */
  function Moved(env: Env, streams: Catalog, frames: seq<Frame>, id: string): nat {
    if frames == [] then 0
    else
      var f := frames[|frames| - 1];
      Moved(env, streams, frames[..|frames| - 1], id) + if f.Media? && f.id == id then Width(env, streams, f) else 0
  }

  /** From `base`, the frames take consecutive offsets of each stream and end at `next`. */
  ghost predicate Flow(env: Env, streams: Catalog, sender: Role, ch: seq<Frame>, base: map<string, nat>,
                       next: map<string, nat>) {
    if ch == [] then base == next
    else if ch[0].Media? then
      && Legit(env, streams, sender, ch[0])
      && ch[0].id in base && ch[0].offset == base[ch[0].id]
      && Flow(env, streams, sender, ch[1..], base[ch[0].id := base[ch[0].id] + Width(env, streams, ch[0])], next)
    else Flow(env, streams, sender, ch[1..], base, next)
  }

  function Nexts(t: Tracker): map<string, nat> {
    map k | k in t :: t[k].next
  }

  /** What the receiver would expect had it accepted everything it was handed. */
  function Base(env: Env, streams: Catalog, t: Tracker, lost: seq<Frame>): map<string, nat> {
    map k | k in t :: t[k].expected + Moved(env, streams, lost, k)
  }

  ghost predicate Line(env: Env, streams: Catalog, sender: Role, ch: seq<Frame>, lost: seq<Frame>, recv: Tracker,
                       send: Tracker) {
    && recv.Keys == send.Keys == streams.Keys
    && Flow(env, streams, sender, ch, Base(env, streams, recv, lost), Nexts(send))
  }

  predicate Medialess(ch: seq<Frame>) {
    forall i | 0 <= i < |ch| :: !ch[i].Media?
  }

  lemma {:induction false} MovedSnoc(env: Env, streams: Catalog, frames: seq<Frame>, f: Frame, id: string)
    ensures Moved(env, streams, frames + [f], id)
            == Moved(env, streams, frames, id) + if f.Media? && f.id == id then Width(env, streams, f) else 0
  {
  }

  lemma {:induction false} MovedNothing(env: Env, streams: Catalog, frames: seq<Frame>, id: string)
    requires Medialess(frames)
    ensures Moved(env, streams, frames, id) == 0
  {
    if frames != [] {
      MovedNothing(env, streams, frames[..|frames| - 1], id);
    }
  }

  lemma {:induction false} MovedCons(env: Env, streams: Catalog, frames: seq<Frame>, id: string)
    requires frames != []
    ensures Moved(env, streams, frames, id)
            == (if frames[0].Media? && frames[0].id == id then Width(env, streams, frames[0]) else 0)
               + Moved(env, streams, frames[1..], id)
  {
    hide Width;
    if |frames| > 1 {
      var init := frames[..|frames| - 1];
      MovedCons(env, streams, init, id);
      assert init[1..] == frames[1..][..|frames| - 2];
    }
  }

  // ---- Flow -----------------------------------------------------------------

  lemma {:induction false} FlowPush(env: Env, streams: Catalog, sender: Role, ch: seq<Frame>, f: Frame,
                                    base: map<string, nat>, next: map<string, nat>)
    requires Flow(env, streams, sender, ch, base, next)
    requires f.Media? && Legit(env, streams, sender, f) && f.id in next && f.offset == next[f.id]
    ensures Flow(env, streams, sender, ch + [f], base, next[f.id := next[f.id] + Width(env, streams, f)])
    decreases |ch|
  {
    hide Legit, Width;
    var to := next[f.id := next[f.id] + Width(env, streams, f)];
    assert (ch + [f])[1..] == if ch == [] then [] else ch[1..] + [f];
    if ch == [] {
      assert Flow(env, streams, sender, [], to, to);
    } else if ch[0].Media? {
      FlowPush(env, streams, sender, ch[1..], f, base[ch[0].id := base[ch[0].id] + Width(env, streams, ch[0])], next);
    } else {
      FlowPush(env, streams, sender, ch[1..], f, base, next);
    }
  }

  lemma {:induction false} FlowPad(env: Env, streams: Catalog, sender: Role, ch: seq<Frame>, more: seq<Frame>,
                                   base: map<string, nat>, next: map<string, nat>)
    requires Flow(env, streams, sender, ch, base, next) && Medialess(more)
    ensures Flow(env, streams, sender, ch + more, base, next)
    decreases |ch| + |more|
  {
    hide Legit, Width;
    if ch == [] {
      assert ch + more == more;
      if more != [] {
        FlowPad(env, streams, sender, [], more[1..], base, next);
        assert [] + more[1..] == more[1..];
      }
    } else {
      assert (ch + more)[1..] == ch[1..] + more;
      var b := if ch[0].Media? then base[ch[0].id := base[ch[0].id] + Width(env, streams, ch[0])] else base;
      FlowPad(env, streams, sender, ch[1..], more, b, next);
    }
  }

  /** The sender's next offset is the base plus everything in flight. */
  lemma {:induction false} FlowSum(env: Env, streams: Catalog, sender: Role, ch: seq<Frame>,
                                   base: map<string, nat>, next: map<string, nat>, id: string)
    requires Flow(env, streams, sender, ch, base, next) && id in base
    ensures id in next && next[id] == base[id] + Moved(env, streams, ch, id)
    decreases |ch|
  {
    hide Legit, Width;
    if ch != [] {
      MovedCons(env, streams, ch, id);
      hide Moved;
      var b := if ch[0].Media? then base[ch[0].id := base[ch[0].id] + Width(env, streams, ch[0])] else base;
      FlowSum(env, streams, sender, ch[1..], b, next, id);
    }
  }

  // ---- Lines ----------------------------------------------------------------

  lemma {:induction false} LineStart(env: Env, streams: Catalog, sender: Role, ch: seq<Frame>, lost: seq<Frame>,
                                     t: Tracker)
    requires Medialess(ch) && Medialess(lost) && t.Keys == streams.Keys
    requires forall k | k in t :: t[k].next == t[k].expected
    ensures Line(env, streams, sender, ch, lost, t, t)
  {
    forall k | k in t
      ensures Moved(env, streams, lost, k) == 0
    {
      MovedNothing(env, streams, lost, k);
    }
    hide Moved;
    var base := Base(env, streams, t, lost);
    assert base == Nexts(t);
    assert Flow(env, streams, sender, [], base, base);
    FlowPad(env, streams, sender, [], ch, base, base);
    assert [] + ch == ch;
  }

  /** The receiver's sending and the sender's receiving leave a direction alone. */
  lemma {:induction false} LineFrame(env: Env, streams: Catalog, sender: Role, ch: seq<Frame>, lost: seq<Frame>,
                  recv: Tracker, send: Tracker, recv': Tracker, send': Tracker)
    requires Line(env, streams, sender, ch, lost, recv, send)
    requires recv'.Keys == recv.Keys && send'.Keys == send.Keys
    requires forall k | k in recv :: recv'[k].expected == recv[k].expected
    requires forall k | k in send :: send'[k].next == send[k].next
    ensures Line(env, streams, sender, ch, lost, recv', send')
  {
    hide Flow, Moved;
    assert Base(env, streams, recv', lost) == Base(env, streams, recv, lost);
    assert Nexts(send') == Nexts(send);
  }

  lemma {:induction false} LinePad(env: Env, streams: Catalog, sender: Role, ch: seq<Frame>, more: seq<Frame>,
                                   lost: seq<Frame>,
                recv: Tracker, send: Tracker)
    requires Line(env, streams, sender, ch, lost, recv, send) && Medialess(more)
    ensures Line(env, streams, sender, ch + more, lost, recv, send)
  {
    hide Flow, Base, Nexts;
    FlowPad(env, streams, sender, ch, more, Base(env, streams, recv, lost), Nexts(send));
  }

  lemma {:induction false} LineSend(env: Env, streams: Catalog, sender: Role, ch: seq<Frame>, lost: seq<Frame>,
                 recv: Tracker, send: Tracker, f: Frame, inc: Option<nat>)
    requires Line(env, streams, sender, ch, lost, recv, send)
    requires f.Media? && Legit(env, streams, sender, f) && f.id in send && f.offset == send[f.id].next
    requires inc == Increment(env, streams[f.id].decl, f.bytes)
    ensures Line(env, streams, sender, ch + [f], lost, recv, Allocated(send, f.id, inc))
  {
    hide Flow, Base, Increment;
    FlowPush(env, streams, sender, ch, f, Base(env, streams, recv, lost), Nexts(send));
    assert Nexts(Allocated(send, f.id, inc)) == Nexts(send)[f.id := send[f.id].next + Width(env, streams, f)];
  }

  lemma {:induction false} LineSkip(env: Env, streams: Catalog, sender: Role, ch: seq<Frame>, lost: seq<Frame>,
                                    recv: Tracker, send: Tracker)
    requires Line(env, streams, sender, ch, lost, recv, send) && ch != [] && !ch[0].Media?
    ensures Line(env, streams, sender, ch[1..], lost, recv, send)
  {
  }

  lemma {:induction false} LineLose(env: Env, streams: Catalog, sender: Role, ch: seq<Frame>, lost: seq<Frame>,
                                    recv: Tracker, send: Tracker)
    requires Line(env, streams, sender, ch, lost, recv, send) && ch != [] && ch[0].Media?
    ensures Line(env, streams, sender, ch[1..], lost + [ch[0]], recv, send)
  {
    hide Legit, Nexts, Width;
    var f := ch[0];
    var base := Base(env, streams, recv, lost);
    forall k | k in recv
      ensures Moved(env, streams, lost + [f], k)
              == Moved(env, streams, lost, k) + if f.id == k then Width(env, streams, f) else 0
    {
      MovedSnoc(env, streams, lost, f, k);
    }
    hide Moved;
    assert Base(env, streams, recv, lost + [f]) == base[f.id := base[f.id] + Width(env, streams, f)];
  }

  lemma {:induction false} LineTake(env: Env, streams: Catalog, sender: Role, ch: seq<Frame>, lost: seq<Frame>,
                                    recv: Tracker, send: Tracker,
                 inc: nat)
    requires Line(env, streams, sender, ch, lost, recv, send) && ch != [] && ch[0].Media?
    requires ch[0].id in recv && recv[ch[0].id].expected == ch[0].offset && inc == Width(env, streams, ch[0])
    ensures Line(env, streams, sender, ch[1..], lost, Received(recv, ch[0].id, ch[0].offset, inc).value, send)
  {
    hide Legit, Nexts, Width, Moved;
    var f := ch[0];
    var base := Base(env, streams, recv, lost);
    var recv' := Received(recv, f.id, f.offset, inc).value;
    assert Base(env, streams, recv', lost) == base[f.id := base[f.id] + inc];
  }
}
