/** What every interleaving of session calls keeps. */
module SessionSafety {
  import opened Text
  import opened Streams
  import opened Session
  import Auth = AuthRefresh

  // ---- Closing --------------------------------------------------------------

  predicate Committed(pc: Pc) {
    pc.Failing? || pc.Relocking?
  }

  /** Some parked call will close the session before it returns. */
  ghost predicate ClosingUnderWay(s: Session) {
    exists c :: c in s.calls && Committed(s.calls[c])
  }

  /** Once closed, the session is closed now or some call is committed to closing it. */
  ghost predicate CloseInv(s: Session) {
    && (forall c | c in s.calls :: c < s.next)
    && (s.state == Closed ==> s.auth.pending.None?)
    && (s.everClosed && s.state != Closed ==> ClosingUnderWay(s))
    && (s.state == Closed ==> s.everClosed)
    && (s.state == Uninitialized ==> !s.everClosed)
    && (s.state == Initializing ==> ClosingUnderWay(s) || exists c :: c in s.calls && s.calls[c].Validating?)
  }

  /** How the first region of a call can change what closing is about. */
  ghost predicate EnterMove(s: Session, t: Session) {
    && (forall c | c in s.calls :: c in t.calls && t.calls[c] == s.calls[c])
    && (forall c | c in t.calls :: c < t.next)
    && (t.state == Closed ==> t.auth.pending.None? && t.everClosed)
    && (t.state != Closed ==> t.everClosed == s.everClosed)
    && (|| t.state == s.state
        || t.state == Closed
        || (t.state == Initializing && s.next in t.calls && Committed(t.calls[s.next]))
        || (t.state == Initializing && s.state == Uninitialized && s.next in t.calls && t.calls[s.next].Validating?)
        || (t.state == Established && s.state == Uninitialized))
  }

  lemma {:induction false} InitMoves(cfg: Config, s: Session, f: InitFrame, draw: Draw)
    requires CloseInv(s)
    ensures EnterMove(s, HandleInit(cfg, s, f, draw))
  {
    hide Agree, Window, ClosingUnderWay;
  }

  /** A region that keeps the parked calls and either keeps or closes the state. */
  predicate Quiet(s: Session, t: Session) {
    && t.calls == s.calls && t.next == s.next
    && (if t.state == Closed then t.auth.pending.None? && t.everClosed
        else t.everClosed == s.everClosed && t.state == s.state)
  }

  lemma {:induction false} QuietMoves(s: Session)
    requires CloseInv(s)
    ensures forall t | Quiet(s, t) :: EnterMove(s, t)
    ensures forall t, pc | Quiet(s, t) :: EnterMove(s, Park(t, pc))
    ensures EnterMove(s, Refuse(s))
  {
    hide ClosingUnderWay;
    forall t, pc | Quiet(s, t)
      ensures EnterMove(s, t) && EnterMove(s, Park(t, pc))
    {
    }
  }

  lemma {:induction false} OtherMoves(cfg: Config, s: Session, op: Op)
    requires CloseInv(s) && !op.Init?
    ensures EnterMove(s, Entered(cfg, s, op))
  {
    hide HandleInit, EnterMove, Park, Refuse, Judge, Advance, Auth.Judge, Auth.MayIssue, ClosingUnderWay;
    QuietMoves(s);
    assert s.state == Closed ==> s.auth.pending.None? && s.everClosed;
    hide CloseInv;
  }

  lemma {:induction false} EnterMoves(cfg: Config, s: Session, op: Op)
    requires CloseInv(s)
    ensures EnterMove(s, Entered(cfg, s, op))
  {
    hide EnterMove, CloseInv, HandleInit, HandleMedia, HandleSendMedia, HandleAuthResponse, HandleSendAuthRefresh;
    if op.Init? {
      InitMoves(cfg, s, op.init, op.draw);
    } else {
      OtherMoves(cfg, s, op);
    }
  }

  lemma {:induction false} EnterKeepsClose(cfg: Config, s: Session, op: Op)
    requires CloseInv(s)
    ensures CloseInv(Entered(cfg, s, op))
  {
    EnterMoves(cfg, s, op);
    hide Entered;
    var t := Entered(cfg, s, op);
    if ClosingUnderWay(s) {
      var c :| c in s.calls && Committed(s.calls[c]);
      assert c in t.calls && Committed(t.calls[c]);
    }
    if c :| c in s.calls && s.calls[c].Validating? {
      assert c in t.calls && t.calls[c].Validating?;
    }
    assert s.next in t.calls && Committed(t.calls[s.next]) ==> ClosingUnderWay(t);
  }

  /** How a parked call that moves on can change it: it returns, stays committed, or closes. */
  ghost predicate ResumeMove(s: Session, t: Session, c: nat)
    requires c in s.calls
  {
    && t.next == s.next
    && (forall d | d in s.calls && d != c :: d in t.calls && t.calls[d] == s.calls[d])
    && (forall d | d in t.calls :: d in s.calls)
    && (t.state == Closed ==> t.auth.pending.None? && t.everClosed)
    && (t.state != Closed ==> t.everClosed == s.everClosed)
    && (t.state == Closed || (t.state == s.state && !s.calls[c].Validating?)
        || (c in t.calls && t.state == s.state && Committed(t.calls[c]))
        || (s.calls[c].Validating? && s.state != Closed && t.state == Established))
    && (Committed(s.calls[c]) ==> t.state == Closed || (c in t.calls && Committed(t.calls[c])))
  }

  lemma {:induction false} ResumeMoves(cfg: Config, s: Session, c: nat, ok: bool, draw: Draw)
    requires CloseInv(s) && c in s.calls
    ensures ResumeMove(s, Resumed(cfg, s, c, ok, draw), c)
  {
    hide Agree, Window, ClosingUnderWay;
    match s.calls[c]
    case Validating(f) => ValidatingMoves(cfg, s, c, f, ok, draw);
    case _ => hide Negotiate;
  }

  lemma {:induction false} ValidatingMoves(cfg: Config, s: Session, c: nat, f: InitFrame, ok: bool, draw: Draw)
    requires CloseInv(s) && c in s.calls && s.calls[c] == Validating(f)
    ensures ResumeMove(s, Resumed(cfg, s, c, ok, draw), c)
  {
    hide Agree, Window, ClosingUnderWay, Stored;
  }

  lemma {:induction false} ResumeKeepsClose(cfg: Config, s: Session, c: nat, ok: bool, draw: Draw)
    requires CloseInv(s) && c in s.calls
    ensures CloseInv(Resumed(cfg, s, c, ok, draw))
  {
    ResumeMoves(cfg, s, c, ok, draw);
    hide Resumed;
    var t := Resumed(cfg, s, c, ok, draw);
    if ClosingUnderWay(s) {
      var d :| d in s.calls && Committed(s.calls[d]);
      assert d != c ==> d in t.calls && Committed(t.calls[d]);
    }
    if d :| d in s.calls && s.calls[d].Validating? && d != c {
      assert d in t.calls && t.calls[d].Validating?;
    }
    assert c in t.calls && Committed(t.calls[c]) ==> ClosingUnderWay(t);
  }

  // ---- One acknowledgement --------------------------------------------------

  /** A call that can still lead to an init-ack. */
  predicate Ackable(pc: Pc) {
    pc.Validating? || pc == Sending(InitAck)
  }

  function Acks(wire: seq<Wire>): nat {
    if wire == [] then 0
    else Acks(wire[..|wire| - 1]) + if wire[|wire| - 1] == InitAck then 1 else 0
  }

  /** At most one init-ack is sent or can still be sent; none before an init was received. */
  ghost predicate AckInv(s: Session) {
    && (forall c | c in s.calls :: c < s.next && s.calls[c] != Failing(InitAck))
    && (forall c, d | c in s.calls && d in s.calls && Ackable(s.calls[c]) && Ackable(s.calls[d]) :: c == d)
    && Acks(s.wire) <= 1
    && (Acks(s.wire) == 1 ==> forall c | c in s.calls :: !Ackable(s.calls[c]))
    && (s.state == Uninitialized ==> Acks(s.wire) == 0 && forall c | c in s.calls :: !Ackable(s.calls[c]))
  }

  /** A first region sends nothing, adds at most one call, and starts an init only when uninitialized. */
  ghost predicate AckEnter(s: Session, t: Session) {
    && t.wire == s.wire
    && s.next <= t.next
    && (forall c | c in t.calls ::
          c < t.next && ((c in s.calls && t.calls[c] == s.calls[c]) || c == s.next))
    && (s.next in t.calls ==> t.calls[s.next] != Failing(InitAck))
    && (s.next in t.calls && Ackable(t.calls[s.next]) ==> s.state == Uninitialized && t.state != Uninitialized)
    && (t.state == Uninitialized ==> s.state == Uninitialized)
  }

  lemma {:induction false} AckInit(cfg: Config, s: Session, f: InitFrame, draw: Draw)
    requires AckInv(s)
    ensures AckEnter(s, HandleInit(cfg, s, f, draw))
  {
    hide Agree, Window, Acks;
  }

  predicate Silent(s: Session, t: Session) {
    && t.calls == s.calls && t.next == s.next && t.wire == s.wire
    && (t.state == Uninitialized ==> s.state == Uninitialized)
  }

  lemma {:induction false} SilentAck(s: Session)
    requires AckInv(s)
    ensures forall t | Silent(s, t) :: AckEnter(s, t)
    ensures forall t, pc | Silent(s, t) && !Ackable(pc) && pc != Failing(InitAck) :: AckEnter(s, Park(t, pc))
  {
  }

  lemma {:induction false} AckOther(cfg: Config, s: Session, op: Op)
    requires AckInv(s) && !op.Init?
    ensures AckEnter(s, Entered(cfg, s, op))
  {
    hide HandleInit, AckEnter, AckInv, Park, Judge, Advance, Auth.Judge, Auth.MayIssue;
    SilentAck(s);
  }

  lemma {:induction false} AckEnters(cfg: Config, s: Session, op: Op)
    requires AckInv(s)
    ensures AckEnter(s, Entered(cfg, s, op))
  {
    hide AckEnter, AckInv, HandleInit, HandleMedia, HandleSendMedia, HandleAuthResponse, HandleSendAuthRefresh;
    if op.Init? {
      AckInit(cfg, s, op.init, op.draw);
    } else {
      AckOther(cfg, s, op);
    }
  }

  lemma {:induction false} EnterKeepsAck(cfg: Config, s: Session, op: Op)
    requires AckInv(s)
    ensures AckInv(Entered(cfg, s, op))
  {
    AckEnters(cfg, s, op);
    hide Entered, Acks;
  }

  /** A parked call sends what it holds, and can only lead to an ack if it could before. */
  ghost predicate AckResume(s: Session, t: Session, c: nat)
    requires c in s.calls
  {
    && t.next == s.next
    && (forall d | d in t.calls :: d in s.calls && (d != c ==> t.calls[d] == s.calls[d]))
    && (c in t.calls && Ackable(t.calls[c]) ==> s.calls[c].Validating?)
    && (c in t.calls ==> t.calls[c] != Failing(InitAck))
    && (if s.calls[c] == Sending(InitAck) then t.wire == s.wire + [InitAck] && c !in t.calls
        else Acks(t.wire) == Acks(s.wire))
    && (t.state == Uninitialized ==> s.state == Uninitialized)
  }

  lemma {:induction false} AckResumes(cfg: Config, s: Session, c: nat, ok: bool, draw: Draw)
    requires AckInv(s) && c in s.calls
    ensures AckResume(s, Resumed(cfg, s, c, ok, draw), c)
  {
    hide Acks, Negotiate;
    match s.calls[c]
    case Validating(f) => AckValidates(cfg, s, c, f, ok, draw);
    case Sending(frame) => AckAppends(s.wire, frame);
    case Failing(frame) => AckAppends(s.wire, frame);
    case _ =>
  }

  lemma {:induction false} AckAppends(wire: seq<Wire>, frame: Wire)
    ensures frame != InitAck ==> Acks(wire + [frame]) == Acks(wire)
  {
  }

  lemma {:induction false} AckValidates(cfg: Config, s: Session, c: nat, f: InitFrame, ok: bool, draw: Draw)
    requires AckInv(s) && c in s.calls && s.calls[c] == Validating(f)
    ensures AckResume(s, Resumed(cfg, s, c, ok, draw), c)
  {
    hide Acks, Agree, Window, Stored;
  }

  lemma {:induction false} ResumeKeepsAck(cfg: Config, s: Session, c: nat, ok: bool, draw: Draw)
    requires AckInv(s) && c in s.calls
    ensures AckInv(Resumed(cfg, s, c, ok, draw))
  {
    AckResumes(cfg, s, c, ok, draw);
    assert (s.wire + [InitAck])[..|s.wire|] == s.wire;
    assert Acks(s.wire + [InitAck]) == Acks(s.wire) + 1;
    hide Resumed, Acks;
  }

  // ---- One acceptance -------------------------------------------------------

  /** At most one init is ever accepted; nothing is established or acknowledged before. */
  ghost predicate AcceptInv(s: Session) {
    && |s.accepted| <= 1
    && (s.state == Uninitialized ==> s.accepted == [])
    && (s.accepted != [] ==> forall c | c in s.calls :: !s.calls[c].Validating?)
    && (s.accepted == [] ==>
          && s.state != Established && Acks(s.wire) == 0
          && forall c | c in s.calls :: s.calls[c] != Sending(InitAck))
  }

  /** A first region accepts an init only when uninitialized, and then its call goes on to acknowledge it. */
  ghost predicate AcceptEnter(s: Session, t: Session) {
    && (t.state == Uninitialized ==> s.state == Uninitialized)
    && if t.accepted == s.accepted then
         && (t.state == Established ==> s.state == Established)
         && (s.next in t.calls ==> t.calls[s.next] != Sending(InitAck))
         && (s.next in t.calls && t.calls[s.next].Validating? ==> s.state == Uninitialized)
       else
         && s.state == Uninitialized && t.state == Established && |t.accepted| == |s.accepted| + 1
         && s.next in t.calls && t.calls[s.next] == Sending(InitAck)
  }

  lemma {:induction false} AcceptInit(cfg: Config, s: Session, f: InitFrame, draw: Draw)
    requires AckInv(s)
    ensures AcceptEnter(s, HandleInit(cfg, s, f, draw))
  {
    hide Agree, Window, Acks, Stored;
  }

  /** A region that accepts nothing and establishes nothing. */
  predicate Idle(s: Session, t: Session) {
    && t.calls == s.calls && t.next == s.next && t.accepted == s.accepted
    && (t.state == Uninitialized ==> s.state == Uninitialized)
    && (t.state == Established ==> s.state == Established)
  }

  /** The new call of a first region waits in a token check. */
  predicate Checks(s: Session, t: Session) {
    s.next in t.calls && t.calls[s.next].Validating?
  }

  /** What every first region does, other than that of an init. */
  ghost predicate AcceptsNone(s: Session, t: Session) {
    AcceptEnter(s, t) && !Checks(s, t)
  }

  lemma {:induction false} IdleAccepts(s: Session)
    requires AckInv(s)
    ensures forall t | Idle(s, t) :: AcceptsNone(s, t)
    ensures forall t, pc | Idle(s, t) && !Ackable(pc) :: AcceptsNone(s, Park(t, pc))
  {
    hide Acks;
    forall t | Idle(s, t)
      ensures AcceptsNone(s, t)
    {
    }
    forall t, pc | Idle(s, t) && !Ackable(pc)
      ensures AcceptsNone(s, Park(t, pc))
    {
    }
  }

  lemma {:induction false} AcceptOther(cfg: Config, s: Session, op: Op)
    requires AckInv(s) && !op.Init?
    ensures AcceptsNone(s, Entered(cfg, s, op))
  {
    hide HandleInit, AcceptsNone, AckInv, Park, Judge, Advance, Auth.Judge, Auth.MayIssue;
    IdleAccepts(s);
  }

  lemma {:induction false} EnterKeepsAccept(cfg: Config, s: Session, op: Op)
    requires AckInv(s) && AcceptInv(s)
    ensures AcceptInv(Entered(cfg, s, op))
  {
    if op.Init? {
      AcceptInit(cfg, s, op.init, op.draw);
    } else {
      AcceptOther(cfg, s, op);
    }
    AckEnters(cfg, s, op);
    hide Entered, Acks;
  }

  /** A parked call accepts only out of the token check of an init. */
  ghost predicate AcceptResume(s: Session, t: Session, c: nat)
    requires c in s.calls
  {
    && (t.state == Uninitialized ==> s.state == Uninitialized)
    && if t.accepted == s.accepted then
         && (t.state == Established ==> s.state == Established)
         && (c in t.calls ==> !Ackable(t.calls[c]))
       else
         && s.calls[c].Validating? && t.state == Established && |t.accepted| == |s.accepted| + 1
         && c in t.calls && t.calls[c] == Sending(InitAck)
  }

  lemma {:induction false} AcceptValidates(cfg: Config, s: Session, c: nat, f: InitFrame, ok: bool, draw: Draw)
    requires c in s.calls && s.calls[c] == Validating(f)
    ensures AcceptResume(s, Resumed(cfg, s, c, ok, draw), c)
  {
    hide Agree, Window, Stored;
  }

  lemma {:induction false} AcceptResumes(cfg: Config, s: Session, c: nat, ok: bool, draw: Draw)
    requires AckInv(s) && c in s.calls
    ensures AcceptResume(s, Resumed(cfg, s, c, ok, draw), c)
  {
    hide Acks, Negotiate;
    match s.calls[c]
    case Validating(f) => AcceptValidates(cfg, s, c, f, ok, draw);
    case _ =>
  }

  lemma {:induction false} ResumeKeepsAccept(cfg: Config, s: Session, c: nat, ok: bool, draw: Draw)
    requires AckInv(s) && AcceptInv(s) && c in s.calls
    ensures AcceptInv(Resumed(cfg, s, c, ok, draw))
  {
    AcceptResumes(cfg, s, c, ok, draw);
    AckResumes(cfg, s, c, ok, draw);
    hide Resumed, Acks;
  }

  // ---- Runs -----------------------------------------------------------------

  ghost predicate SafeInv(s: Session) {
    CloseInv(s) && AckInv(s) && AcceptInv(s)
  }

  lemma {:induction false} StepSafe(cfg: Config, s: Session, e: Event)
    requires SafeInv(s)
    ensures SafeInv(Step(cfg, s, e))
  {
    hide CloseInv, AckInv, AcceptInv, Entered, Resumed;
    match e
    case Enter(op) =>
      EnterKeepsClose(cfg, s, op);
      EnterKeepsAck(cfg, s, op);
      EnterKeepsAccept(cfg, s, op);
    case Resume(c, ok, draw) =>
      if c in s.calls {
        ResumeKeepsClose(cfg, s, c, ok, draw);
        ResumeKeepsAck(cfg, s, c, ok, draw);
        ResumeKeepsAccept(cfg, s, c, ok, draw);
      }
  }

  lemma {:induction false} RunSafe(cfg: Config, s: Session, es: seq<Event>)
    requires SafeInv(s)
    ensures SafeInv(Run(cfg, s, es))
    decreases |es|
  {
    hide SafeInv, Step;
    if es != [] {
      StepSafe(cfg, s, es[0]);
      RunSafe(cfg, Step(cfg, s, es[0]), es[1..]);
    }
  }

  lemma {:induction false} NewSafe()
    ensures SafeInv(NEW)
  {
  }

  /**
   * Every interleaving of calls: at most one init is accepted and at most one init-ack sent, only
   * for an accepted init; a session that was closed is
   * closed now or some call in flight is committed to closing it, so with no call in flight it is
   * closed, and then no challenge is outstanding; and no session is left initializing by nobody.
   */
  lemma {:induction false} EveryInterleaving(cfg: Config, es: seq<Event>)
    ensures var s := Run(cfg, NEW, es);
            && Acks(s.wire) <= |s.accepted| <= 1
            && (s.state == Established ==> s.accepted != [])
            && (s.everClosed && s.state != Closed ==> ClosingUnderWay(s))
            && (s.everClosed && s.calls == map[] ==> s.state == Closed)
            && (s.state == Closed ==> s.auth.pending.None?)
            && (s.state == Initializing ==> s.calls != map[])
  {
    hide Run, Acks;
    NewSafe();
    RunSafe(cfg, NEW, es);
  }

  /** No step goes back to the uninitialized state. */
  lemma {:induction false} NeverUninitializedAgain(cfg: Config, s: Session, e: Event)
    requires SafeInv(s) && s.state != Uninitialized
    ensures Step(cfg, s, e).state != Uninitialized
  {
    hide CloseInv, AckInv, Entered, Resumed;
    match e
    case Enter(op) =>
      AckEnters(cfg, s, op);
    case Resume(c, ok, draw) =>
      if c in s.calls {
        AckResumes(cfg, s, c, ok, draw);
      }
  }
}
