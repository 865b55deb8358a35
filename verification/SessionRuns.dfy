/** Closing over whole runs, and chains of sessions linked by export and resume. */
module SessionRuns {
  import opened Text
  import opened Lists
  import opened Pcm
  import opened Streams
  import opened Session
  import opened SessionSafety
  import opened SessionLedger

  // ---- Closing over runs ----------------------------------------------------

  lemma {:induction false} RunSplit(cfg: Config, s: Session, es: seq<Event>, more: seq<Event>)
    ensures Run(cfg, s, es + more) == Run(cfg, Run(cfg, s, es), more)
    decreases |es|
  {
    hide Step;
    if es == [] {
      assert es + more == more;
    } else {
      assert (es + more)[0] == es[0] && (es + more)[1..] == es[1..] + more;
      RunSplit(cfg, Step(cfg, s, es[0]), es[1..], more);
    }
  }

  /** The record of having been closed is never taken back. */
  lemma {:induction false} EverClosedStays(cfg: Config, s: Session, e: Event)
    requires CloseInv(s) && s.everClosed
    ensures Step(cfg, s, e).everClosed
  {
    hide CloseInv, Entered, Resumed;
    match e
    case Enter(op) =>
      EnterMoves(cfg, s, op);
    case Resume(c, ok, draw) =>
      if c in s.calls {
        ResumeMoves(cfg, s, c, ok, draw);
      }
  }

  lemma {:induction false} LaterMoments(cfg: Config, s: Session, es: seq<Event>)
    requires SafeInv(s)
    ensures s.everClosed ==> Run(cfg, s, es).everClosed
    ensures s.state != Uninitialized ==> Run(cfg, s, es).state != Uninitialized
    decreases |es|
  {
    hide CloseInv, AckInv, Step;
    if es != [] {
      StepSafe(cfg, s, es[0]);
      if s.everClosed {
        EverClosedStays(cfg, s, es[0]);
      }
      if s.state != Uninitialized {
        NeverUninitializedAgain(cfg, s, es[0]);
      }
      LaterMoments(cfg, Step(cfg, s, es[0]), es[1..]);
    }
  }

  /**
   * However calls interleave: a session that left the uninitialized state never returns to it, and
   * one that was closed at some moment is closed, with no challenge outstanding, at every later
   * moment with no call in flight.
   */
  lemma {:induction false} ClosedForGood(cfg: Config, es: seq<Event>, more: seq<Event>)
    ensures var s, t := Run(cfg, NEW, es), Run(cfg, NEW, es + more);
            && (s.state != Uninitialized ==> t.state != Uninitialized)
            && (s.state == Closed && t.calls == map[] ==> t.state == Closed && t.auth.pending.None?)
  {
    hide AckInv, Run, Step;
    NewSafe();
    RunSafe(cfg, NEW, es);
    var s := Run(cfg, NEW, es);
    RunSplit(cfg, NEW, es, more);
    LaterMoments(cfg, s, more);
    RunSafe(cfg, s, more);
  }

  predicate IsInit(e: Event) {
    e.Enter? && e.op.Init?
  }

  lemma {:induction false} ClosedStep(cfg: Config, s: Session, e: Event)
    requires s.state == Closed
    ensures Step(cfg, s, e).state == Closed <==> !IsInit(e)
  {
    hide Negotiate;
    match e
    case Enter(op) =>
    case Resume(c, ok, draw) =>
  }

  /** A closed session is closed at every moment of a run exactly when no init arrives in it. */
  lemma {:induction false} ClosedThroughoutIff(cfg: Config, s: Session, es: seq<Event>)
    requires s.state == Closed
    ensures (forall k | 0 <= k <= |es| :: Run(cfg, s, es[..k]).state == Closed)
            <==> (forall i | 0 <= i < |es| :: !IsInit(es[i]))
    decreases |es|
  {
    hide Step, Run;
    if es == [] {
      assert es[..0] == [];
      RunNone(cfg, s);
    } else {
      ClosedStep(cfg, s, es[0]);
      var t := Step(cfg, s, es[0]);
      RunNone(cfg, s);
      forall k | 0 < k <= |es|
        ensures Run(cfg, s, es[..k]) == Run(cfg, t, es[1..][..k - 1])
      {
        RunPrefix(cfg, s, es, k);
      }
      RunNone(cfg, t);
      assert es[1..][..0] == [] && es[..0] == [];
      if IsInit(es[0]) {
        assert Run(cfg, s, es[..1]) == t;
      } else {
        ClosedThroughoutIff(cfg, t, es[1..]);
        ClosedTail(cfg, s, t, es);
      }
    }
  }

  lemma {:induction false} RunNone(cfg: Config, s: Session)
    ensures Run(cfg, s, []) == s
  {
  }

  lemma {:induction false} RunPrefix(cfg: Config, s: Session, es: seq<Event>, k: nat)
    requires 0 < k <= |es|
    ensures Run(cfg, s, es[..k]) == Run(cfg, Step(cfg, s, es[0]), es[1..][..k - 1])
  {
    hide Step;
    assert es[..k][0] == es[0] && es[..k][1..] == es[1..][..k - 1];
  }

  lemma {:induction false} ClosedTail(cfg: Config, s: Session, t: Session, es: seq<Event>)
    requires es != [] && s.state == Closed && !IsInit(es[0])
    requires Run(cfg, s, es[..0]) == s
    requires forall k | 0 < k <= |es| :: Run(cfg, s, es[..k]) == Run(cfg, t, es[1..][..k - 1])
    requires (forall k | 0 <= k <= |es[1..]| :: Run(cfg, t, es[1..][..k]).state == Closed)
             <==> (forall i | 0 <= i < |es[1..]| :: !IsInit(es[1..][i]))
    ensures (forall k | 0 <= k <= |es| :: Run(cfg, s, es[..k]).state == Closed)
            <==> (forall i | 0 <= i < |es| :: !IsInit(es[i]))
  {
    hide Run, IsInit;
    var rest := es[1..];
    if forall k | 0 <= k <= |es| :: Run(cfg, s, es[..k]).state == Closed {
      forall k | 0 <= k <= |rest|
        ensures Run(cfg, t, rest[..k]).state == Closed
      {
        assert Run(cfg, s, es[..k + 1]).state == Closed;
      }
      forall i | 0 <= i < |es|
        ensures !IsInit(es[i])
      {
        assert i > 0 ==> !IsInit(rest[i - 1]);
      }
    }
    if forall i | 0 <= i < |es| :: !IsInit(es[i]) {
      forall i | 0 <= i < |rest|
        ensures !IsInit(rest[i])
      {
        assert !IsInit(es[i + 1]);
      }
    }
  }

  // ---- Reopening ------------------------------------------------------------

  /** A parked init that would be accepted if its token check succeeds. */
  ghost predicate Acceptable(cfg: Config, s: Session, c: nat, draw: Draw) {
    c in s.calls && s.calls[c].Validating? && Agree(cfg, s.calls[c].init, draw).Some?
  }

  /** Past initialization, not established, and no parked init that could be accepted. */
  ghost predicate Hopeless(cfg: Config, s: Session) {
    && s.state != Uninitialized && s.state != Established
    && forall c, draw :: !Acceptable(cfg, s, c, draw)
  }

  lemma {:induction false} EnterHopeless(cfg: Config, s: Session, op: Op)
    requires SafeInv(s) && Hopeless(cfg, s)
    ensures Hopeless(cfg, Entered(cfg, s, op))
  {
    AckEnters(cfg, s, op);
    if op.Init? {
      AcceptInit(cfg, s, op.init, op.draw);
    } else {
      AcceptOther(cfg, s, op);
    }
    hide CloseInv, AckInv, AcceptInv, Agree, Entered;
    var t := Entered(cfg, s, op);
    forall c, draw
      ensures !Acceptable(cfg, t, c, draw)
    {
      assert !Acceptable(cfg, s, c, draw);
    }
  }

  lemma {:induction false} ResumeHopeless(cfg: Config, s: Session, c: nat, ok: bool, draw: Draw)
    requires SafeInv(s) && Hopeless(cfg, s) && c in s.calls
    ensures Hopeless(cfg, Resumed(cfg, s, c, ok, draw))
  {
    AckResumes(cfg, s, c, ok, draw);
    AcceptResumes(cfg, s, c, ok, draw);
    AcceptedAgrees(cfg, s, c, ok, draw);
    hide CloseInv, AckInv, AcceptInv, Agree, Resumed;
    var t := Resumed(cfg, s, c, ok, draw);
    assert !Acceptable(cfg, s, c, draw);
    forall d, other
      ensures !Acceptable(cfg, t, d, other)
    {
      assert !Acceptable(cfg, s, d, other);
    }
  }

  lemma {:induction false} AcceptedAgrees(cfg: Config, s: Session, c: nat, ok: bool, draw: Draw)
    requires c in s.calls
    ensures Resumed(cfg, s, c, ok, draw).accepted != s.accepted ==> Acceptable(cfg, s, c, draw)
  {
    hide Agree, Stored, Window;
  }

  lemma {:induction false} StepHopeless(cfg: Config, s: Session, e: Event)
    requires SafeInv(s) && Hopeless(cfg, s)
    ensures Hopeless(cfg, Step(cfg, s, e))
  {
    hide SafeInv, Hopeless, Entered, Resumed;
    match e
    case Enter(op) => EnterHopeless(cfg, s, op);
    case Resume(c, ok, draw) =>
      if c in s.calls {
        ResumeHopeless(cfg, s, c, ok, draw);
      }
  }

  lemma {:induction false} RunHopeless(cfg: Config, s: Session, es: seq<Event>)
    requires SafeInv(s) && Hopeless(cfg, s)
    ensures Hopeless(cfg, Run(cfg, s, es))
    decreases |es|
  {
    hide SafeInv, Hopeless, Step;
    if es != [] {
      StepSafe(cfg, s, es[0]);
      StepHopeless(cfg, s, es[0]);
      RunHopeless(cfg, Step(cfg, s, es[0]), es[1..]);
    }
  }

  /**
   * Another init arrives while a parked one waits for its token check: the first is then accepted
   * although the session was closed, and acknowledged; only the second call's return closes it again.
   */
  lemma {:induction false} Reopens(cfg: Config, s: Session, c: nat, f: InitFrame, draw: Draw)
    requires SafeInv(s) && s.state == Closed && Acceptable(cfg, s, c, draw)
    ensures var reopened := Step(cfg, s, Enter(Init(f, draw)));
            var agreed := Step(cfg, reopened, Resume(c, true, draw));
            var acked := Step(cfg, agreed, Resume(c, true, draw));
            && reopened.state == Initializing
            && agreed.state == Established
            && acked.state == Established && acked.wire == s.wire + [InitAck]
            && s.next in acked.calls && acked.calls[s.next] == Failing(InitError)
  {
    hide AckInv, AcceptInv, Agree, Stored, Window, Negotiate, Establish, Resumed, ClosingUnderWay;
    var reopened := Refuse(s);
    ValidatedStep(cfg, reopened, c, s.calls[c].init, draw);
    var agreed := Resumed(cfg, reopened, c, true, draw);
    AckStep(cfg, agreed, c, draw);
  }

  lemma {:induction false} ValidatedStep(cfg: Config, s: Session, c: nat, f: InitFrame, draw: Draw)
    requires c in s.calls && s.calls[c] == Validating(f) && s.state != Closed && Agree(cfg, f, draw).Some?
    ensures var t := Resumed(cfg, s, c, true, draw);
            t.state == Established && t.wire == s.wire && t.calls == s.calls[c := Sending(InitAck)]
  {
  }

  lemma {:induction false} AckStep(cfg: Config, s: Session, c: nat, draw: Draw)
    requires c in s.calls && s.calls[c] == Sending(InitAck)
    ensures var t := Resumed(cfg, s, c, true, draw);
            t.state == s.state && t.wire == s.wire + [InitAck] && t.calls == s.calls - {c}
  {
  }

  /**
   * A closed session can be established again, by some continuation, exactly when some parked init
   * would be accepted for some draw.
   */
  lemma {:induction false} ReopensExactly(cfg: Config, s: Session)
    requires SafeInv(s) && s.state == Closed
    ensures (exists es :: Run(cfg, s, es).state == Established) <==> exists c, draw :: Acceptable(cfg, s, c, draw)
  {
    if c, draw :| Acceptable(cfg, s, c, draw) {
      var f := s.calls[c].init;
      hide SafeInv, Acceptable, Step;
      Reopens(cfg, s, c, f, draw);
      Run2(cfg, s, Enter(Init(f, draw)), Resume(c, true, draw));
      assert Run(cfg, s, [Enter(Init(f, draw)), Resume(c, true, draw)]).state == Established;
    } else {
      hide SafeInv, Acceptable, Run;
      assert Hopeless(cfg, s);
      forall es
        ensures Run(cfg, s, es).state != Established
      {
        RunHopeless(cfg, s, es);
      }
    }
  }

  /** A whole run from the start in which an init is acknowledged after the session was closed. */
  lemma {:induction false} AckAfterClose(cfg: Config, f: InitFrame, draw: Draw)
    requires cfg.hasValidator && f.version.Some? && f.version.value in cfg.versions && Agree(cfg, f, draw).Some?
    ensures var init := Enter(Init(f, draw));
            var closed := Run(cfg, NEW, [init, Enter(Close)]);
            var acked := Run(cfg, closed, [init, Resume(0, true, draw), Resume(0, true, draw)]);
            && closed.state == Closed && closed.wire == []
            && acked.state == Established && acked.wire == [InitAck]
  {
    hide Agree, Run, SafeInv;
    var init := Enter(Init(f, draw));
    NewSafe();
    RunSafe(cfg, NEW, [init, Enter(Close)]);
    Run2(cfg, NEW, init, Enter(Close));
    var closed := Shut(HandleInit(cfg, NEW, f, draw));
    assert Run(cfg, NEW, [init, Enter(Close)]) == closed;
    assert Acceptable(cfg, closed, 0, draw);
    assert closed.state == Closed && closed.wire == [];
    hide Step, Acceptable;
    Reopens(cfg, closed, 0, f, draw);
    Run3(cfg, closed, init, Resume(0, true, draw), Resume(0, true, draw));
    assert [] + [InitAck] == [InitAck];
  }

  lemma {:induction false} Run2(cfg: Config, s: Session, a: Event, b: Event)
    ensures Run(cfg, s, [a, b]) == Step(cfg, Step(cfg, s, a), b)
  {
    hide Step;
    var t := Step(cfg, s, a);
    assert [a, b][1..] == [b] && [b][1..] == [];
    assert Run(cfg, t, [b]) == Run(cfg, Step(cfg, t, b), []);
  }

  lemma {:induction false} Run3(cfg: Config, s: Session, a: Event, b: Event, c: Event)
    ensures Run(cfg, s, [a, b, c]) == Step(cfg, Step(cfg, Step(cfg, s, a), b), c)
  {
    hide Step;
    assert [a, b, c][1..] == [b, c];
    Run2(cfg, Step(cfg, s, a), b, c);
  }

  // ---- Where a session's streams come from ----------------------------------

  /** The streams of `s` are those agreed on, moved only in their offsets. */
  ghost predicate From(s: Session, a: Agreement) {
    && s.sessionId == a.sessionId
    && s.registry.Keys == Stored(a.streams).Keys == s.initial.Keys
    && forall k | k in s.registry ::
         && s.registry[k] == Stored(a.streams)[k].(offset := s.registry[k].offset)
         && s.initial[k] == Stored(a.streams)[k].offset
  }

  ghost predicate InitIn(es: seq<Event>, f: InitFrame) {
    exists i :: 0 <= i < |es| && IsInit(es[i]) && es[i].op.init == f
  }

  /** The draw belongs to an event that can accept an init: its arrival, or a token check that succeeded. */
  ghost predicate DrawIn(cfg: Config, es: seq<Event>, draw: Draw) {
    exists i :: 0 <= i < |es| && Accepts(cfg, es[i], draw)
  }

  predicate Accepts(cfg: Config, e: Event, draw: Draw) {
    DrawOf(e, draw) && if cfg.hasValidator then e.Resume? && e.ok else e.Enter? || (e.Resume? && e.ok)
  }

  /**
   * An accepted init was received in the run, names a supported version, was accepted by an event of
   * the run with its draw, after a successful token check if there is one, and the streams are its own.
   */
  ghost predicate Rooted(cfg: Config, es: seq<Event>, s: Session, a: Acceptance) {
    && InitIn(es, a.init) && Supported(cfg, a.init) && DrawIn(cfg, es, a.draw)
    && Agree(cfg, a.init, a.draw).Some? && From(s, Agree(cfg, a.init, a.draw).value)
  }

  /** Every init being checked or accepted is one that the run received. */
  ghost predicate Origin(cfg: Config, es: seq<Event>, s: Session) {
    && (forall c | c in s.calls && s.calls[c].Validating? ::
          InitIn(es, s.calls[c].init) && Supported(cfg, s.calls[c].init))
    && forall i | 0 <= i < |s.accepted| :: Rooted(cfg, es, s, s.accepted[i])
  }

  lemma {:induction false} InMore(cfg: Config, es: seq<Event>, e: Event)
    ensures forall f | InitIn(es, f) :: InitIn(es + [e], f)
    ensures forall d | DrawIn(cfg, es, d) :: DrawIn(cfg, es + [e], d)
    ensures IsInit(e) ==> InitIn(es + [e], e.op.init)
    ensures forall d | Accepts(cfg, e, d) :: DrawIn(cfg, es + [e], d)
  {
    var all := es + [e];
    assert all[|es|] == e;
    forall f | InitIn(es, f)
      ensures InitIn(all, f)
    {
      var i :| 0 <= i < |es| && IsInit(es[i]) && es[i].op.init == f;
      assert all[i] == es[i];
    }
    forall d | DrawIn(cfg, es, d)
      ensures DrawIn(cfg, all, d)
    {
      var i :| 0 <= i < |es| && Accepts(cfg, es[i], d);
      assert all[i] == es[i];
    }
  }

  /** Only an init that enters is ever parked in a token check. */
  ghost predicate ChecksEntered(cfg: Config, s: Session, t: Session, e: Event) {
    forall c | c in t.calls && t.calls[c].Validating? ::
      || (c in s.calls && t.calls[c] == s.calls[c])
      || (IsInit(e) && t.calls[c].init == e.op.init && Supported(cfg, e.op.init))
  }

  lemma {:induction false} InitChecksEntered(cfg: Config, s: Session, f: InitFrame, draw: Draw)
    ensures ChecksEntered(cfg, s, HandleInit(cfg, s, f, draw), Enter(Init(f, draw)))
  {
    hide Agree, Stored, Window;
  }

  lemma {:induction false} StepChecksEntered(cfg: Config, s: Session, e: Event)
    requires SafeInv(s)
    ensures ChecksEntered(cfg, s, Step(cfg, s, e), e)
  {
    hide CloseInv, AcceptInv, Entered, Resumed, Acks;
    match e
    case Enter(op) =>
      AckEnters(cfg, s, op);
      if op.Init? {
        InitChecksEntered(cfg, s, op.init, op.draw);
        assert Entered(cfg, s, op) == HandleInit(cfg, s, op.init, op.draw) by { EnteredInit(cfg, s, op); }
      } else {
        AcceptOther(cfg, s, op);
      }
    case Resume(c, ok, draw) =>
      if c in s.calls {
        AckResumes(cfg, s, c, ok, draw);
        AcceptResumes(cfg, s, c, ok, draw);
      }
  }

  lemma {:induction false} EnteredInit(cfg: Config, s: Session, op: Op)
    requires op.Init?
    ensures Entered(cfg, s, op) == HandleInit(cfg, s, op.init, op.draw)
  {
    hide HandleInit;
  }

  lemma {:induction false} TakeKeepsFrom(s: Session, t: Session, id: string, bytes: nat, a: Agreement)
    requires From(s, a) && Taken(s, t, id, bytes)
    ensures From(t, a)
  {
    hide Taken, Advance, Stored;
    TakenEffect(s, t, id, bytes);
    AdvanceShape(s.registry[id], bytes);
  }

  lemma {:induction false} AdvanceShape(s: StreamInfo, bytes: nat)
    requires Advance(s, bytes).Some?
    ensures Advance(s, bytes).value == s.(offset := Advance(s, bytes).value.offset)
  {
  }

  lemma {:induction false} TakeKeepsRoots(cfg: Config, es: seq<Event>, e: Event, s: Session, t: Session,
                                          id: string, bytes: nat)
    requires Origin(cfg, es, s) && Taken(s, t, id, bytes)
    ensures forall i | 0 <= i < |t.accepted| :: Rooted(cfg, es + [e], t, t.accepted[i])
  {
    hide Taken, Agree, From, Advance, InitIn, DrawIn;
    TakenEffect(s, t, id, bytes);
    InMore(cfg, es, e);
    forall i | 0 <= i < |t.accepted|
      ensures Rooted(cfg, es + [e], t, t.accepted[i])
    {
      var a := s.accepted[i];
      assert Rooted(cfg, es, s, a);
      TakeKeepsFrom(s, t, id, bytes, Agree(cfg, a.init, a.draw).value);
    }
  }

  lemma {:induction false} SameKeepsRoots(cfg: Config, es: seq<Event>, e: Event, s: Session, t: Session)
    requires Origin(cfg, es, s) && SameBooks(s, t)
    ensures forall i | 0 <= i < |t.accepted| :: Rooted(cfg, es + [e], t, t.accepted[i])
  {
    hide Agree, Stored, InitIn, DrawIn;
    InMore(cfg, es, e);
    forall i | 0 <= i < |t.accepted|
      ensures Rooted(cfg, es + [e], t, t.accepted[i])
    {
      assert Rooted(cfg, es, s, s.accepted[i]);
    }
  }

  lemma {:induction false} OpenRoots(cfg: Config, es: seq<Event>, e: Event, s: Session, t: Session, f: InitFrame,
                                     draw: Draw)
    requires Origin(cfg, es, s) && AcceptInv(t) && Sourced(cfg, s, e, f, draw) && Opened(cfg, s, t, f, draw)
    ensures forall i | 0 <= i < |t.accepted| :: Rooted(cfg, es + [e], t, t.accepted[i])
  {
    OpenedFirst(cfg, s, t, f, draw);
    InMore(cfg, es, e);
    hide Agree, Stored, InitIn, DrawIn, AcceptInv;
    assert Accepts(cfg, e, draw);
    assert InitIn(es + [e], f);
    assert Rooted(cfg, es + [e], t, Acceptance(f, draw));
  }

  lemma {:induction false} StepKeepsOrigin(cfg: Config, es: seq<Event>, s: Session, e: Event)
    requires SafeInv(s) && Origin(cfg, es, s)
    ensures Origin(cfg, es + [e], Step(cfg, s, e))
  {
    StepMovesBooks(cfg, s, e);
    StepSafe(cfg, s, e);
    StepChecksEntered(cfg, s, e);
    InMore(cfg, es, e);
    hide Step, Taken, Opened, SameBooks, Sourced, Rooted, InitIn, DrawIn, CloseInv, AckInv, AcceptInv;
    var t := Step(cfg, s, e);
    if id, bytes :| Taken(s, t, id, bytes) {
      TakeKeepsRoots(cfg, es, e, s, t, id, bytes);
    } else if f, draw :| Sourced(cfg, s, e, f, draw) && Opened(cfg, s, t, f, draw) {
      OpenRoots(cfg, es, e, s, t, f, draw);
    } else {
      SameKeepsRoots(cfg, es, e, s, t);
    }
  }

  lemma {:induction false} RunKeepsOrigin(cfg: Config, before: seq<Event>, s: Session, es: seq<Event>)
    requires SafeInv(s) && Origin(cfg, before, s)
    ensures Origin(cfg, before + es, Run(cfg, s, es))
    decreases |es|
  {
    hide SafeInv, Origin, Step;
    if es == [] {
      assert before + es == before;
    } else {
      StepSafe(cfg, s, es[0]);
      StepKeepsOrigin(cfg, before, s, es[0]);
      RunKeepsOrigin(cfg, before + [es[0]], Step(cfg, s, es[0]), es[1..]);
      assert before + [es[0]] + es[1..] == before + es;
    }
  }

  /**
   * In every run, a session that is established, or has acknowledged an init, or has a session id,
   * has accepted exactly one init; the run received that init and drew what it was accepted with, and
   * the session's id and streams are those agreed on for it, moved only in their offsets.
   */
  lemma {:induction false} OneOrigin(cfg: Config, es: seq<Event>)
    requires GoodConfig(cfg) && forall i | 0 <= i < |es| :: DistinctIds(es[i])
    ensures var s := Run(cfg, NEW, es);
            s.state == Established || Acks(s.wire) > 0 || s.sessionId != "" ==>
              |s.accepted| == 1 && Rooted(cfg, es, s, s.accepted[0])
  {
    hide Run, DistinctIds, Rooted, Acks;
    NewLedger();
    RunKeepsLedger(cfg, NEW, es);
    RunKeepsOrigin(cfg, [], NEW, es);
    assert [] + es == es;
    hide GoodRegistry, Tiles, Of, WireInv;
  }

  // ---- Chains ---------------------------------------------------------------

  /** One session of a chain: how it was set up, what happened in it, and what was exported. */
  datatype Link = Link(cfg: Config, events: seq<Event>, out: Persisted)

  ghost function Final(link: Link): Session {
    Run(link.cfg, NEW, link.events)
  }

  /** export_state, at the end of a run and in any order of the registry. */
  ghost predicate Exported(s: Session, out: Persisted) {
    && s.sessionId != "" && out.sessionId == s.sessionId && out.window == s.window
    && Enumerates(out.streams, s.registry)
  }

  /** Each session resumes from the one before it; the first has nothing to resume from. */
  ghost predicate Chain(links: seq<Link>) {
    && (forall k | 0 <= k < |links| ::
          && Exported(Final(links[k]), links[k].out)
          && forall i | 0 <= i < |links[k].events| :: DistinctIds(links[k].events[i]))
    && (links != [] ==> links[0].cfg.prior.None?)
    && forall k | 0 < k < |links| :: links[k].cfg.prior == Some(links[k - 1].out)
  }

  lemma {:induction false} LinkKeeps(link: Link)
    requires GoodConfig(link.cfg) && Exported(Final(link), link.out)
    requires forall i | 0 <= i < |link.events| :: DistinctIds(link.events[i])
    ensures BooksInv(Final(link)) && GoodStreams(link.out.streams)
    ensures var s := Final(link); |s.accepted| == 1 && Rooted(link.cfg, link.events, s, s.accepted[0])
  {
    hide Run, Enumerates, GoodStreams, BooksInv, SafeInv, WireInv, DistinctIds, Rooted;
    NewLedger();
    RunKeepsLedger(link.cfg, NEW, link.events);
    BooksGood(Final(link));
    ExportGood(Final(link).registry, link.out.streams);
    OneOrigin(link.cfg, link.events);
  }

  lemma {:induction false} BooksGood(s: Session)
    requires BooksInv(s)
    ensures GoodRegistry(s.registry)
  {
  }

  /** Every session of a chain keeps its ledger and exports streams fit for resumption. */
  lemma {:induction false} ChainKeeps(links: seq<Link>, k: nat)
    requires Chain(links) && k < |links|
    ensures GoodConfig(links[k].cfg) && BooksInv(Final(links[k])) && GoodStreams(links[k].out.streams)
    ensures var s := Final(links[k]); |s.accepted| == 1 && Rooted(links[k].cfg, links[k].events, s, s.accepted[0])
  {
    hide Final, BooksInv, GoodStreams, Rooted, DistinctIds, Exported;
    if k > 0 {
      ChainKeeps(links, k - 1);
    }
    LinkKeeps(links[k]);
  }

  /** A stream that went through a resumed session: same id, identity and PCM data. */
  ghost predicate Continued(before: StreamInfo, s: Session, requested: nat) {
    && before.id in s.registry && before.id in s.initial
    && s.registry[before.id] == before.(offset := s.registry[before.id].offset)
    && s.initial[before.id] == requested <= before.offset
    && Tiles(Of(s.ledger, before.id), requested, s.registry[before.id].offset)
  }

  /** A resumed session against what the one before it exported. */
  ghost predicate Resumes(before: Persisted, s: Session, ds: seq<Declaration>, pair: seq<nat>) {
    && s.sessionId == before.sessionId
    && Pairs(ds, before.streams, pair)
    && |s.registry| == |before.streams|
    && forall i | 0 <= i < |pair| ::
         Continued(before.streams[i], s, Requested(ds[pair[i]], before.streams[i]))
  }

  /** A stream as declared, under a drawn id, from offset zero. */
  ghost predicate Begun(s: Session, d: Declaration, id: string) {
    && id in s.registry && id in s.initial
    && var t := s.registry[id];
       && t.id == id && t.direction == d.direction && t.contentType == d.contentType && t.purpose == d.purpose
       && d.offsetType == Some(t.offsetType) && t.pcm == PcmOf(d.contentType)
       && s.initial[id] == 0 && Tiles(Of(s.ledger, id), 0, t.offset)
  }

  /** A session that started afresh: one stream a declaration. */
  ghost predicate Starts(s: Session, ds: seq<Declaration>, draw: Draw) {
    |s.registry| == |ds| <= |draw.ids| && forall i | 0 <= i < |ds| :: Begun(s, ds[i], draw.ids[i])
  }

  /**
   * Along any chain, every session accepted exactly one init, one it received. If that init asked for
   * a resumption, its declarations are paired one to one with the streams exported before, the
   * session has exactly their ids, and each stream went on from its own declaration's request, never
   * above the exported offset; otherwise the session started afresh from its declarations.
   */
  lemma {:induction false} ChainResumes(links: seq<Link>, k: nat) returns (pair: seq<nat>)
    requires Chain(links) && 0 < k < |links|
    ensures var s := Final(links[k]);
            && |s.accepted| == 1 && InitIn(links[k].events, s.accepted[0].init)
            && s.accepted[0].init.declarations.Some?
            && var f := s.accepted[0].init;
               if f.sessionId.Some? then Resumes(links[k - 1].out, s, f.declarations.value, pair)
               else Starts(s, f.declarations.value, s.accepted[0].draw)
  {
    hide Final, DistinctIds, Exported, BooksInv, GoodStreams, Resumes, Starts, From, InitIn;
    ChainKeeps(links, k - 1);
    ChainKeeps(links, k);
    var s := Final(links[k]);
    var a := s.accepted[0];
    pair := [];
    if a.init.sessionId.Some? {
      hide Agree;
      pair := ResumedFrom(links[k].cfg, s, a.init, a.draw);
    } else {
      DrawsDistinct(links[k].cfg, links[k].events, a.draw) by { assert Chain(links); }
      StartedFrom(links[k].cfg, s, a.init, a.draw);
    }
    AgreeDeclares(links[k].cfg, a.init, a.draw);
    hide Agree;
  }

  lemma {:induction false} DrawsDistinct(cfg: Config, es: seq<Event>, draw: Draw)
    requires DrawIn(cfg, es, draw) && forall i | 0 <= i < |es| :: DistinctIds(es[i])
    ensures Distinct(draw.ids)
  {
  }

  lemma {:induction false} AgreeDeclares(cfg: Config, f: InitFrame, draw: Draw)
    requires Agree(cfg, f, draw).Some?
    ensures f.declarations.Some?
  {
  }

  lemma {:induction false} ResumedFrom(cfg: Config, s: Session, f: InitFrame, draw: Draw) returns (pair: seq<nat>)
    requires cfg.prior.Some? && GoodStreams(cfg.prior.value.streams) && BooksInv(s)
    requires Agree(cfg, f, draw).Some? && From(s, Agree(cfg, f, draw).value) && f.sessionId.Some?
    ensures f.declarations.Some? && Resumes(cfg.prior.value, s, f.declarations.value, pair)
  {
    hide GoodStreams, GoodRegistry, Tiles, Of, Stored;
    var ds, before := f.declarations.value, cfg.prior.value;
    pair := ResumeKeepsStreams(ds, before.streams);
    var rs := Streams.Resume(ds, before.streams).value;
    hide Streams.Resume;
    StoredGood(rs);
    KeysSize(s.registry, Stored(rs));
    forall i | 0 <= i < |pair|
      ensures Continued(before.streams[i], s, Requested(ds[pair[i]], before.streams[i]))
    {
      assert rs[i].id in Stored(rs) && Stored(rs)[rs[i].id] == rs[i];
    }
  }

  lemma {:induction false} StartedFrom(cfg: Config, s: Session, f: InitFrame, draw: Draw)
    requires Distinct(draw.ids) && BooksInv(s)
    requires Agree(cfg, f, draw).Some? && From(s, Agree(cfg, f, draw).value) && f.sessionId.None?
    ensures f.declarations.Some? && Starts(s, f.declarations.value, draw)
  {
    hide GoodStreams, GoodRegistry, Tiles, Of, Stored, Fresh;
    var ds := f.declarations.value;
    var rs := FreshAll(ds, draw.ids[..|ds|]);
    FreshGood(ds, draw.ids[..|ds|]);
    StoredGood(rs);
    KeysSize(s.registry, Stored(rs));
    forall i | 0 <= i < |ds|
      ensures Begun(s, ds[i], draw.ids[i])
    {
      FreshShape(ds[i], draw.ids[i]);
      assert rs[i].id in Stored(rs) && Stored(rs)[rs[i].id] == rs[i];
    }
  }

  lemma {:induction false} FreshShape(d: Declaration, id: string)
    requires d.offsetType.Some?
    ensures var t := Fresh(d, id);
            && t.id == id && t.direction == d.direction && t.contentType == d.contentType && t.purpose == d.purpose
            && d.offsetType == Some(t.offsetType) && t.pcm == PcmOf(d.contentType) && t.offset == 0
  {
  }

  lemma {:induction false} KeysSize(m: Registry, n: Registry)
    requires m.Keys == n.Keys
    ensures |m| == |n|
  {
    assert |m| == |m.Keys| && |n| == |n.Keys|;
  }
}
