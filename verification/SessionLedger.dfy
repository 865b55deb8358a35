/** The offsets frames carry, over every interleaving of session calls. */
module SessionLedger {
  import opened Text
  import opened Decimal
  import opened Lists
  import opened Streams
  import opened Session
  import opened SessionSafety
  import Auth = AuthRefresh

  /** The ledger entries of one stream, in lock order. */
  function Of(ledger: seq<Segment>, id: string): seq<Segment> {
    if ledger == [] then []
    else
      var last := ledger[|ledger| - 1];
      Of(ledger[..|ledger| - 1], id) + if last.id == id then [last] else []
  }

  /** The segments follow each other without gap or overlap and cover [from, to). */
  ghost predicate Tiles(segments: seq<Segment>, from: nat, to: nat) {
    && (segments == [] ==> from == to)
    && (segments != [] ==> segments[0].from == from && segments[|segments| - 1].to == to)
    && (forall i | 0 <= i < |segments| :: segments[i].from <= segments[i].to)
    && forall i | 0 < i < |segments| :: segments[i - 1].to == segments[i].from
  }

  lemma {:induction false} OfSnoc(ledger: seq<Segment>, s: Segment, id: string)
    ensures Of(ledger + [s], id) == Of(ledger, id) + if s.id == id then [s] else []
  {
  }

  /** Every stream's entries tile the range from its first offset to its current one. */
  ghost predicate BooksInv(s: Session) {
    && (s.accepted == [] ==> s.registry == map[] && s.ledger == [] && s.sessionId == "")
    && GoodRegistry(s.registry)
    && forall id | id in s.registry ::
         id in s.initial && Tiles(Of(s.ledger, id), s.initial[id], s.registry[id].offset)
  }

  predicate SameBooks(s: Session, t: Session) {
    && t.registry == s.registry && t.ledger == s.ledger && t.initial == s.initial
    && t.sessionId == s.sessionId && t.accepted == s.accepted
  }

  /** One frame that carried the current offset of one stream was booked on it. */
  predicate Taken(s: Session, t: Session, id: string, bytes: nat) {
    && id in s.registry && Advance(s.registry[id], bytes).Some?
    && SameBooks(TakeOffsets(s, id, s.registry[id].offset, bytes), t)
  }

  /** An init was accepted. */
  ghost predicate Opened(cfg: Config, s: Session, t: Session, f: InitFrame, draw: Draw) {
    Agree(cfg, f, draw).Some? && SameBooks(Establish(cfg, s, f, draw, Agree(cfg, f, draw).value), t)
  }

  /** All a step can do to the books. */
  ghost predicate BooksMove(cfg: Config, s: Session, t: Session, e: Event) {
    || SameBooks(s, t)
    || (exists id, bytes :: Taken(s, t, id, bytes))
    || (exists f, draw :: Sourced(cfg, s, e, f, draw) && Opened(cfg, s, t, f, draw))
  }

  /**
   * The init in hand when an event accepts one: without a token check the one that enters, with a
   * supported version; with one, that whose check has just succeeded.
   */
  predicate Sourced(cfg: Config, s: Session, e: Event, f: InitFrame, draw: Draw) {
    match e
    case Enter(op) => op == Init(f, draw) && !cfg.hasValidator && Supported(cfg, f)
    case Resume(c, ok, d) => ok && d == draw && c in s.calls && s.calls[c] == Validating(f)
  }

  predicate Supported(cfg: Config, f: InitFrame) {
    f.version.Some? && f.version.value in cfg.versions
  }

  predicate DrawOf(e: Event, d: Draw) {
    (e.Resume? && e.draw == d) || (e.Enter? && e.op.Init? && e.op.draw == d)
  }

  lemma {:induction false} InitMovesBooks(cfg: Config, s: Session, f: InitFrame, draw: Draw)
    ensures BooksMove(cfg, s, HandleInit(cfg, s, f, draw), Enter(Init(f, draw)))
  {
    hide Agree, Stored;
    var t := HandleInit(cfg, s, f, draw);
    assert SameBooks(s, t) || (Sourced(cfg, s, Enter(Init(f, draw)), f, draw) && Opened(cfg, s, t, f, draw));
  }

  lemma {:induction false} MediaMovesBooks(cfg: Config, s: Session, f: MediaFrame, e: Event)
    ensures BooksMove(cfg, s, HandleMedia(s, f), e)
  {
    hide Agree, TakeOffsets, Advance;
    var t := HandleMedia(s, f);
    if s.state == Established && Judge(s.registry, f).None? {
      assert Taken(s, t, f.streamId.value, f.bytes);
    } else {
      assert SameBooks(s, t);
    }
  }

  lemma {:induction false} SendMovesBooks(cfg: Config, s: Session, id: string, bytes: nat, e: Event)
    ensures BooksMove(cfg, s, HandleSendMedia(s, id, bytes), e)
  {
    hide Agree, TakeOffsets, Advance;
    var t := HandleSendMedia(s, id, bytes);
    assert SameBooks(s, t) || Taken(s, t, id, bytes);
  }

  lemma {:induction false} ParkNoBooks(s: Session, t: Session, pc: Pc)
    requires SameBooks(s, t)
    ensures SameBooks(s, Park(t, pc))
  {
  }

  lemma {:induction false} AuthMovesNoBooks(cfg: Config, s: Session, op: Op)
    requires op.AuthResponse? || op.SendAuthRefresh?
    ensures SameBooks(s, Entered(cfg, s, op))
  {
    hide Park, HandleInit, HandleMedia, HandleSendMedia, Auth.Judge, Auth.MayIssue;
    forall t, pc | SameBooks(s, t)
      ensures SameBooks(s, Park(t, pc))
    {
      ParkNoBooks(s, t, pc);
    }
  }

  lemma {:induction false} OtherMovesNoBooks(cfg: Config, s: Session, op: Op)
    requires !op.Init? && !op.MediaReceived? && !op.SendMedia? && !op.AuthResponse? && !op.SendAuthRefresh?
    ensures SameBooks(s, Entered(cfg, s, op))
  {
    hide Park, HandleInit, HandleMedia, HandleSendMedia, HandleAuthResponse, HandleSendAuthRefresh;
    forall t, pc | SameBooks(s, t)
      ensures SameBooks(s, Park(t, pc))
    {
      ParkNoBooks(s, t, pc);
    }
  }

  lemma {:induction false} EnterMovesBooks(cfg: Config, s: Session, op: Op)
    ensures BooksMove(cfg, s, Entered(cfg, s, op), Enter(op))
  {
    hide SameBooks, Taken, Opened, HandleInit, HandleMedia, HandleSendMedia, HandleAuthResponse, HandleSendAuthRefresh;
    match op
    case Init(f, draw) => InitMovesBooks(cfg, s, f, draw);
    case MediaReceived(f) => MediaMovesBooks(cfg, s, f, Enter(op));
    case SendMedia(id, bytes) => SendMovesBooks(cfg, s, id, bytes, Enter(op));
    case AuthResponse(_, _) => AuthMovesNoBooks(cfg, s, op);
    case SendAuthRefresh(_, _) => AuthMovesNoBooks(cfg, s, op);
    case _ => OtherMovesNoBooks(cfg, s, op);
  }

  lemma {:induction false} ResumeMovesBooks(cfg: Config, s: Session, c: nat, ok: bool, draw: Draw)
    requires c in s.calls
    ensures BooksMove(cfg, s, Resumed(cfg, s, c, ok, draw), Resume(c, ok, draw))
  {
    hide Agree, Stored;
    var t := Resumed(cfg, s, c, ok, draw);
    match s.calls[c]
    case Validating(f) =>
      assert SameBooks(s, t) || (Sourced(cfg, s, Resume(c, ok, draw), f, draw) && Opened(cfg, s, t, f, draw));
    case _ => assert SameBooks(s, t);
  }

  lemma {:induction false} StepMovesBooks(cfg: Config, s: Session, e: Event)
    ensures BooksMove(cfg, s, Step(cfg, s, e), e)
  {
    hide Taken, Opened, Entered, Resumed, Sourced;
    match e
    case Enter(op) => EnterMovesBooks(cfg, s, op);
    case Resume(c, ok, draw) =>
      if c in s.calls {
        ResumeMovesBooks(cfg, s, c, ok, draw);
      }
  }

  // ---- What the moves keep --------------------------------------------------

  lemma {:induction false} TakenEffect(s: Session, t: Session, id: string, bytes: nat)
    requires Taken(s, t, id, bytes)
    ensures id in s.registry && Advance(s.registry[id], bytes).Some?
    ensures var next := Advance(s.registry[id], bytes).value;
            && s.registry[id].offset <= next.offset
            && t.registry == s.registry[id := next]
            && t.ledger == s.ledger + [Segment(id, s.registry[id].offset, next.offset)]
            && t.initial == s.initial && t.sessionId == s.sessionId && t.accepted == s.accepted
  {
    hide Increment;
  }

  lemma {:induction false} TakeKeepsBooks(s: Session, t: Session, id: string, bytes: nat)
    requires BooksInv(s) && Taken(s, t, id, bytes)
    ensures BooksInv(t)
  {
    hide Taken, Advance, Of, GoodRegistry;
    TakenEffect(s, t, id, bytes);
    AdvanceGood(s.registry, id, bytes);
    var next := Advance(s.registry[id], bytes).value;
    var seg := Segment(id, s.registry[id].offset, next.offset);
    hide Tiles;
    forall k | k in t.registry
      ensures k in t.initial && Tiles(Of(t.ledger, k), t.initial[k], t.registry[k].offset)
    {
      OfSnoc(s.ledger, seg, k);
      assert Tiles(Of(s.ledger, k), s.initial[k], s.registry[k].offset);
      if k != id {
        assert Of(s.ledger, k) + [] == Of(s.ledger, k);
      } else {
        TilesSnoc(Of(s.ledger, k), seg, s.initial[k]);
      }
    }
  }

  lemma {:induction false} TilesSnoc(segments: seq<Segment>, s: Segment, from: nat)
    requires Tiles(segments, from, s.from) && s.from <= s.to
    ensures Tiles(segments + [s], from, s.to)
  {
  }

  /** The configured prior state, if any, came from a good session. */
  ghost predicate GoodConfig(cfg: Config) {
    cfg.prior.Some? ==> GoodStreams(cfg.prior.value.streams)
  }

  /** Ids are drawn distinct. */
  ghost predicate DistinctIds(e: Event) {
    forall d | DrawOf(e, d) :: Distinct(d.ids)
  }

  lemma {:induction false} AgreementGood(cfg: Config, f: InitFrame, draw: Draw)
    requires GoodConfig(cfg) && Distinct(draw.ids) && Agree(cfg, f, draw).Some?
    ensures GoodStreams(Agree(cfg, f, draw).value.streams)
  {
    hide GoodStreams;
    var ds := f.declarations.value;
    if f.sessionId.Some? {
      var pair := ResumeKeepsStreams(ds, cfg.prior.value.streams);
    } else {
      FreshGood(ds, draw.ids[..|ds|]);
    }
  }

  lemma {:induction false} OpenKeepsBooks(cfg: Config, s: Session, t: Session, f: InitFrame, draw: Draw)
    requires GoodConfig(cfg) && Distinct(draw.ids) && Opened(cfg, s, t, f, draw)
    requires BooksInv(s) && s.accepted == []
    ensures BooksInv(t)
  {
    hide Stored, GoodRegistry, GoodStreams, Agree;
    AgreementGood(cfg, f, draw);
    StoredGood(Agree(cfg, f, draw).value.streams);
    assert forall id :: Of(t.ledger, id) == [];
  }

  /** An acceptance is the first one. */
  lemma {:induction false} OpenedFirst(cfg: Config, s: Session, t: Session, f: InitFrame, draw: Draw)
    requires Opened(cfg, s, t, f, draw) && AcceptInv(t)
    ensures s.accepted == [] && t.accepted == [Acceptance(f, draw)]
  {
    hide Agree, Stored, Window;
  }

  lemma {:induction false} StepKeepsBooks(cfg: Config, s: Session, e: Event)
    requires GoodConfig(cfg) && DistinctIds(e) && SafeInv(s) && BooksInv(s)
    ensures BooksInv(Step(cfg, s, e))
  {
    StepMovesBooks(cfg, s, e);
    StepSafe(cfg, s, e);
    hide Step, Taken, Opened, GoodRegistry, Tiles, Of, CloseInv, AckInv, AcceptInv;
    var t := Step(cfg, s, e);
    if id, bytes :| Taken(s, t, id, bytes) {
      TakeKeepsBooks(s, t, id, bytes);
    } else if f, draw :| Sourced(cfg, s, e, f, draw) && Opened(cfg, s, t, f, draw) {
      assert DrawOf(e, draw);
      OpenedFirst(cfg, s, t, f, draw);
      OpenKeepsBooks(cfg, s, t, f, draw);
    }
  }

  // ---- What is sent is booked -----------------------------------------------

  /** A media frame starts one of the booked segments of its stream. */
  ghost predicate Booked(ledger: seq<Segment>, w: Wire) {
    w.Media? ==> exists i :: 0 <= i < |ledger| && ledger[i].id == w.id && ledger[i].from == w.offset
  }

  ghost predicate PcBooked(ledger: seq<Segment>, pc: Pc) {
    pc.Sending? || pc.Failing? ==> Booked(ledger, pc.frame)
  }

  ghost predicate WireInv(s: Session) {
    && (forall i | 0 <= i < |s.wire| :: Booked(s.ledger, s.wire[i]))
    && forall c | c in s.calls :: PcBooked(s.ledger, s.calls[c])
  }

  lemma {:induction false} StillBooked(ledger: seq<Segment>, more: seq<Segment>, w: Wire)
    requires Booked(ledger, w)
    ensures Booked(ledger + more, w)
  {
    if w.Media? {
      var i :| 0 <= i < |ledger| && ledger[i].id == w.id && ledger[i].from == w.offset;
      assert (ledger + more)[i] == ledger[i];
    }
  }

  /** How a step can touch calls, wire and ledger. */
  ghost predicate WireMove(s: Session, t: Session) {
    && s.ledger <= t.ledger
    && (forall i | 0 <= i < |t.wire| ::
          (i < |s.wire| && t.wire[i] == s.wire[i]) || exists c :: c in s.calls && FrameOf(s.calls[c], t.wire[i]))
    && forall c | c in t.calls :: (c in s.calls && t.calls[c] == s.calls[c]) || PcBooked(t.ledger, t.calls[c])
  }

  predicate FrameOf(pc: Pc, w: Wire) {
    (pc.Sending? || pc.Failing?) && pc.frame == w
  }

  lemma {:induction false} WireMoveKeeps(s: Session, t: Session)
    requires WireInv(s) && WireMove(s, t)
    ensures WireInv(t)
  {
    var more := t.ledger[|s.ledger|..];
    assert t.ledger == s.ledger + more;
    forall w | Booked(s.ledger, w)
      ensures Booked(t.ledger, w)
    {
      StillBooked(s.ledger, more, w);
    }
    hide Booked;
  }

  /** A region that sends nothing and books at most more. */
  predicate Mute(s: Session, t: Session) {
    t.calls == s.calls && t.next == s.next && t.wire == s.wire && s.ledger <= t.ledger
  }

  predicate NoMedia(pc: Pc) {
    !(pc.Sending? && pc.frame.Media?) && !(pc.Failing? && pc.frame.Media?)
  }

  lemma {:induction false} MuteMoves(s: Session)
    ensures forall t | Mute(s, t) :: WireMove(s, t)
    ensures forall t, pc | Mute(s, t) && NoMedia(pc) :: WireMove(s, Park(t, pc))
  {
    forall t | Mute(s, t)
      ensures WireMove(s, t)
    {
    }
    forall t, pc | Mute(s, t) && NoMedia(pc)
      ensures WireMove(s, Park(t, pc))
    {
    }
  }

  lemma {:induction false} InitMovesWire(cfg: Config, s: Session, f: InitFrame, draw: Draw)
    ensures WireMove(s, HandleInit(cfg, s, f, draw))
  {
    hide Agree, Stored, Window, WireMove, Park;
    MuteMoves(s);
  }

  lemma {:induction false} EnterMovesWire(cfg: Config, s: Session, op: Op)
    ensures WireMove(s, Entered(cfg, s, op))
  {
    hide HandleInit, HandleSendMedia, WireMove, Park, Judge, Advance, Increment, Auth.Judge, Auth.MayIssue;
    MuteMoves(s);
    match op
    case SendMedia(id, bytes) => SendMovesWire(s, id, bytes);
    case Init(f, draw) => InitMovesWire(cfg, s, f, draw);
    case _ =>
  }

  lemma {:induction false} SendMovesWire(s: Session, id: string, bytes: nat)
    ensures WireMove(s, HandleSendMedia(s, id, bytes))
  {
    hide Advance, Increment;
    var t := HandleSendMedia(s, id, bytes);
    if t != s {
      assert t.ledger[|s.ledger|].id == id && t.ledger[|s.ledger|].from == s.registry[id].offset;
      assert PcBooked(t.ledger, t.calls[s.next]);
    }
  }

  lemma {:induction false} ResumeMovesWire(cfg: Config, s: Session, c: nat, ok: bool, draw: Draw)
    requires c in s.calls
    ensures WireMove(s, Resumed(cfg, s, c, ok, draw))
  {
    hide Agree, Stored, Window, Booked;
    var t := Resumed(cfg, s, c, ok, draw);
    match s.calls[c]
    case Sending(frame) => assert FrameOf(s.calls[c], frame);
    case Failing(frame) => assert FrameOf(s.calls[c], frame);
    case Validating(f) => assert Booked(t.ledger, InitAck) && Booked(t.ledger, InitError) by { BookedOther(t.ledger); }
    case _ => BookedOther(t.ledger);
  }

  lemma {:induction false} BookedOther(ledger: seq<Segment>)
    ensures forall w: Wire | !w.Media? :: Booked(ledger, w)
  {
  }

  lemma {:induction false} StepKeepsWire(cfg: Config, s: Session, e: Event)
    requires WireInv(s)
    ensures WireInv(Step(cfg, s, e))
  {
    hide WireInv, WireMove, Entered, Resumed;
    match e
    case Enter(op) =>
      EnterMovesWire(cfg, s, op);
      WireMoveKeeps(s, Entered(cfg, s, op));
    case Resume(c, ok, draw) =>
      if c in s.calls {
        ResumeMovesWire(cfg, s, c, ok, draw);
        WireMoveKeeps(s, Resumed(cfg, s, c, ok, draw));
      }
  }

  // ---- Runs -----------------------------------------------------------------

  ghost predicate LedgerInv(s: Session) {
    SafeInv(s) && BooksInv(s) && WireInv(s)
  }

  lemma {:induction false} RunKeepsLedger(cfg: Config, s: Session, es: seq<Event>)
    requires GoodConfig(cfg) && LedgerInv(s) && forall i | 0 <= i < |es| :: DistinctIds(es[i])
    ensures LedgerInv(Run(cfg, s, es))
    decreases |es|
  {
    hide SafeInv, BooksInv, WireInv, Step, DistinctIds;
    if es != [] {
      StepSafe(cfg, s, es[0]);
      StepKeepsBooks(cfg, s, es[0]);
      StepKeepsWire(cfg, s, es[0]);
      RunKeepsLedger(cfg, Step(cfg, s, es[0]), es[1..]);
    }
  }

  lemma {:induction false} NewLedger()
    ensures LedgerInv(NEW)
  {
  }

  /**
   * Every interleaving: on each stream the offsets carried by the frames received and sent, in lock
   * order, tile the range from its initial to its current offset, which never passes 2^64 - 1; and
   * every media frame on the wire carries the start of such a tile.
   */
  lemma {:induction false} OffsetsTile(cfg: Config, es: seq<Event>)
    requires GoodConfig(cfg) && forall i | 0 <= i < |es| :: DistinctIds(es[i])
    ensures var s := Run(cfg, NEW, es);
            && (forall id | id in s.registry ::
                  && id in s.initial
                  && Tiles(Of(s.ledger, id), s.initial[id], s.registry[id].offset)
                  && s.registry[id].offset <= MAX_U64)
            && forall i | 0 <= i < |s.wire| :: Booked(s.ledger, s.wire[i])
  {
    NewLedger();
    RunKeepsLedger(cfg, NEW, es);
    var s := Run(cfg, NEW, es);
    hide Run, Tiles, Of, Booked, SafeInv;
    assert forall id | id in s.registry :: Sound(s.registry[id]);
  }

  lemma {:induction false} JudgeNone(reg: Registry, f: MediaFrame)
    ensures Judge(reg, f).None? ==>
              && f.streamId.Some? && f.streamId.value in reg && f.offset.Some?
              && Read(f.offset.value, MAX_U64) == Some(reg[f.streamId.value].offset)
              && Advance(reg[f.streamId.value], f.bytes).Some?
  {
    hide Read, Advance;
  }

  /** A media frame on an established session: accepted on its own stream alone, or refused by closing. */
  lemma {:induction false} MediaAllOrNothing(s: Session, f: MediaFrame)
    requires s.state == Established
    ensures var t := HandleMedia(s, f);
            if t.state != Established then
              t.state == Closed && SameBooks(s, t)
            else
              && f.streamId.Some?
              && var id := f.streamId.value;
              && id in s.registry
              && f.offset.Some? && f.offset.value == Render(s.registry[id].offset)
              && t.registry.Keys == s.registry.Keys
              && (forall k | k in s.registry && k != id :: t.registry[k] == s.registry[k])
              && t.registry[id] == s.registry[id].(offset := t.registry[id].offset)
              && t.ledger == s.ledger + [Segment(id, s.registry[id].offset, t.registry[id].offset)]
  {
    hide Read, Judge;
    JudgeNone(s.registry, f);
    if Judge(s.registry, f).None? {
      var id := f.streamId.value;
      hide Increment;
      ReadExactly(f.offset.value, MAX_U64, s.registry[id].offset);
    }
  }
}
