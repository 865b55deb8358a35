/** Resuming a TypeScript session from the snapshots its two sides took. */
module TwoPartyResume {
  import opened Text
  import opened Lists
  import opened TsStreams
  import opened TwoParty
  import opened TwoPartyFlow
  import opened TwoPartySafety
  import opened TwoPartyRuns

  // ---- What a snapshot offset can be ----------------------------------------

  /** The last offsets sent and received are not past the counters. */
  ghost predicate Bounded(t: Tracker) {
    forall k | k in t :: OrZero(t[k].lastSent) <= t[k].next && OrZero(t[k].lastReceived) <= t[k].expected
  }

  lemma {:induction false} EntriesBounded(t: Tracker, ss: seq<Stream>)
    requires Bounded(t)
    ensures Bounded(EnterAll(t, ss))
  {
    if ss != [] {
      EntriesBounded(t, ss[..|ss| - 1]);
    }
  }

  lemma {:induction false} AllocatedBounded(t: Tracker, id: string, increment: Option<nat>)
    requires Bounded(t) && id in t
    ensures Bounded(Allocated(t, id, increment))
  {
  }

  lemma {:induction false} AcceptedBounded(env: Env, r: Registry, role: Role, f: Frame)
    requires Bounded(r.tracker) && f.Media?
    requires Accepted(env, r, role, f.id, f.offset, f.contentType, f.bytes).Some?
    ensures Bounded(Accepted(env, r, role, f.id, f.offset, f.contentType, f.bytes).value.tracker)
  {
    hide Increment;
  }

  ghost predicate BothBounded(w: World) {
    Bounded(w.client.registry.tracker) && Bounded(w.server.registry.tracker)
  }

  lemma {:induction false} DeliverBounded(env: Env, cfg: Config, w: World, role: Role, late: bool, now: nat)
    requires BothBounded(w) && Inbox(w, role) != []
    ensures BothBounded(Delivered(env, cfg, w, role, late, now))
  {
    var f := Inbox(w, role)[0];
    Reactions(env, cfg, w, role, f, late, now);
    hide Bounded, Receive, EnterAll, ById, Valid, Agreed, Accepted;
    var p, r := Get(w, role), Receive(env, cfg, w, role, f, late, now);
    if Takes(env, role, p, f, r) {
      AcceptedBounded(env, p.registry, role, f);
    } else if role == Client && Joins(env, cfg, p, f, r) {
      EntriesBounded(p.registry.tracker, f.streams);
    } else if role == Server && Serves(env, cfg, p, f, now, r) && Agreed(env, cfg, f, now).Some? {
      EntriesBounded(p.registry.tracker, Agreed(env, cfg, f, now).value);
    }
  }

  lemma {:induction false} StepBounded(env: Env, cfg: Config, w: World, e: Event)
    requires BothBounded(w)
    ensures BothBounded(Step(env, cfg, w, e))
  {
    hide Bounded, Delivered, InitStreams, Allocated, Increment;
    match e
    case SendMedia(role, id, bytes) =>
      var r := Get(w, role).registry;
      if MaySend(r, role, id) {
        AllocatedBounded(r.tracker, id, Increment(env, r.streams[id].decl, bytes));
      }
    case Deliver(role, late, now) =>
      if Inbox(w, role) != [] {
        DeliverBounded(env, cfg, w, role, late, now);
      }
    case _ =>
  }

  lemma {:induction false} RunBounded(env: Env, cfg: Config, w: World, es: seq<Event>)
    requires BothBounded(w)
    ensures BothBounded(Run(env, cfg, w, es))
    decreases |es|
  {
    hide BothBounded, Step;
    if es != [] {
      StepBounded(env, cfg, w, es[0]);
      RunBounded(env, cfg, Step(env, cfg, w, es[0]), es[1..]);
    }
  }

  lemma {:induction false} OrderTracked(env: Env, cfg: Config, w: World, role: Role)
    requires Inv(env, cfg, w) && Get(w, role).registry.order != []
    ensures var r := Get(w, role).registry;
            && r.order == w.server.registry.order && r.streams == w.server.registry.streams
            && Valid(env, Declarations(r.order)) && Distinct(Ids(r.order))
            && SamePlan(Declarations(r.order), cfg.planned)
            && Tracked(r)
            && (forall i | 0 <= i < |r.order| :: r.order[i].id in r.streams)
            && forall k | k in r.streams :: exists i | 0 <= i < |r.order| :: r.order[i].id == k
  {
    hide Flow, Valid, Distinct, EnterAll, ById;
    assert !Before(w);
    FreshEntries(w.server.registry.order);
  }

  lemma {:induction false} SnapshotSame(r: Registry)
    requires Tracked(r)
    ensures SamePlan(Declarations(r.order), Declarations(SnapshotOf(r)))
    ensures forall i | 0 <= i < |r.order| ::
              SnapshotOf(r)[i].decl.resumeOffset == Some(ResumeOffset(r.tracker[r.order[i].id]))
  {
    hide ResumeOffset;
  }

  /**
   * Both sides' snapshots keep distinct ids and the planned, valid declarations in their order, and
   * ask for no offset the side has not reached, so either can be resumed from.
   */
  lemma {:induction false} SnapshotGood(env: Env, cfg: Config, es: seq<Event>, role: Role)
    requires GoodConfig(env, cfg)
    requires Get(Run(env, cfg, START, es), role).registry.order != []
    ensures var r := Get(Run(env, cfg, START, es), role).registry;
            && Tracked(r)
            && Distinct(Ids(SnapshotOf(r)))
            && Valid(env, Declarations(SnapshotOf(r)))
            && SamePlan(Declarations(SnapshotOf(r)), cfg.planned)
            && forall i | 0 <= i < |r.order| ::
                 var c := r.tracker[r.order[i].id];
                 OrZero(SnapshotOf(r)[i].decl.resumeOffset) <= (if c.next < c.expected then c.expected else c.next)
  {
    hide Run, GoodConfig, Inv, Valid, Distinct, SamePlan;
    StartInv(env, cfg);
    RunKeeps(env, cfg, START, es);
    RunBounded(env, cfg, START, es);
    var w := Run(env, cfg, START, es);
    OrderTracked(env, cfg, w, role);
    var r := Get(w, role).registry;
    SnapshotSame(r);
    ValidSame(env, Declarations(r.order), Declarations(SnapshotOf(r)));
    SamePlanBack(Declarations(r.order), Declarations(SnapshotOf(r)), cfg.planned);
    hide SnapshotOf;
  }

  // ---- When the server accepts ----------------------------------------------

  /** Valid requests in the order of the snapshot can only be matched place by place. */
  lemma {:induction false} InPlace(env: Env, ds: seq<Declaration>, avail: seq<Stream>)
    requires Valid(env, ds) && SamePlan(ds, Declarations(avail))
    ensures Confirmation(env, ds, Some(avail)).Some? <==> forall i | 0 <= i < |ds| :: Suits(ds[i], avail[i])
  {
    ResumesExactly(env, ds, avail);
    hide Confirmation, Suits;
    if forall i | 0 <= i < |ds| :: Suits(ds[i], avail[i]) {
      assert Pairing(ds, avail, avail);
    }
    if sources :| Pairing(ds, avail, sources) {
      forall i | 0 <= i < |ds|
        ensures Suits(ds[i], avail[i])
      {
        InItsPlace(env, ds, avail, sources, i);
      }
    }
  }

  lemma {:induction false} InItsPlace(env: Env, ds: seq<Declaration>, avail: seq<Stream>, sources: seq<Stream>, i: nat)
    requires Valid(env, ds) && SamePlan(ds, Declarations(avail)) && Pairing(ds, avail, sources) && i < |ds|
    ensures sources[i] == avail[i] && Suits(ds[i], avail[i])
  {
    assert Suits(ds[i], sources[i]);
    assert sources[i] in multiset(avail);
    var j :| 0 <= j < |avail| && avail[j] == sources[i];
    assert Same(ds[j], Declarations(avail)[j]);
    assert Same(ds[i], ds[j]);
  }

  /** Place by place, the one snapshot asks for no more than the other has. */
  ghost predicate NoMore(mine: seq<Stream>, theirs: seq<Stream>) {
    && |mine| == |theirs|
    && forall i | 0 <= i < |mine| :: OrZero(mine[i].decl.resumeOffset) <= OrZero(theirs[i].decl.resumeOffset)
  }

  lemma {:induction false} OwnResume(env: Env, planned: seq<Declaration>, mine: seq<Stream>, theirs: seq<Stream>)
    requires Valid(env, planned)
    requires SamePlan(planned, Declarations(mine)) && SamePlan(planned, Declarations(theirs))
    ensures Confirmation(env, InitStreams(planned, Some(mine)), Some(theirs)).Some? <==> NoMore(mine, theirs)
    ensures Valid(env, InitStreams(planned, Some(mine)))
  {
    var ds := InitStreams(planned, Some(mine));
    SamePlanTurned(ds, planned);
    ValidSame(env, planned, ds);
    SamePlanBack(planned, ds, Declarations(theirs));
    InPlace(env, ds, theirs);
    forall i | 0 <= i < |planned|
      ensures Suits(ds[i], theirs[i]) <==> OrZero(mine[i].decl.resumeOffset) <= OrZero(theirs[i].decl.resumeOffset)
    {
      InitAsksOwn(planned, mine, i);
      assert Same(ds[i], Declarations(theirs)[i]);
    }
    hide Suits, InitStreams, Confirmation, Valid;
  }

  lemma {:induction false} SamePlanTurned(a: seq<Declaration>, b: seq<Declaration>)
    requires SamePlan(a, b)
    ensures SamePlan(b, a)
  {
  }

  /** The side with these counters sent or received a frame at this offset or a later one. */
  predicate Reached(c: Counters, offset: nat) {
    || offset == 0
    || (c.lastSent.Some? && offset <= c.lastSent.value)
    || (c.lastReceived.Some? && offset <= c.lastReceived.value)
  }

  /** The other side reached the last offsets of this one. */
  predicate NotAhead(c: Counters, other: Counters) {
    && (c.lastSent.Some? ==> Reached(other, c.lastSent.value))
    && (c.lastReceived.Some? ==> Reached(other, c.lastReceived.value))
  }

  /** On no stream is the client ahead of the server. */
  ghost predicate NowhereAhead(c: Registry, s: Registry) {
    forall id | id in c.streams :: id in c.tracker && id in s.tracker && NotAhead(c.tracker[id], s.tracker[id])
  }

  lemma {:induction false} NotAheadExactly(c: Counters, other: Counters)
    ensures ResumeOffset(c) <= ResumeOffset(other) <==> NotAhead(c, other)
  {
    ResumeOffsetExactly(c);
    ResumeOffsetExactly(other);
    hide ResumeOffset;
  }

  /** The init a client sends to resume from its own snapshot. */
  ghost function Resumption(cfg: Config, sessionId: string, client: Registry): Frame
    requires Tracked(client)
  {
    Init(true, cfg.version, Some(sessionId), InitStreams(cfg.planned, Some(SnapshotOf(client))))
  }

  /** A server set up to resume the session from its own snapshot, in time. */
  ghost predicate Offers(cfg: Config, again: Config, sessionId: string, server: Registry, now: nat)
    requires Tracked(server)
  {
    && again.snapshot.Some? && again.snapshot.value.sessionId == sessionId
    && again.snapshot.value.streams == SnapshotOf(server)
    && cfg.version in again.supported && !Expired(again, now)
  }

  /**
   * After any run of a session, a client that resumes from its own snapshot is accepted by a server
   * that holds its own snapshot exactly when on every stream the server has sent or received a frame
   * at the client's last offsets, sent and received, or later.
   */
  lemma {:induction false} ResumeAcceptedExactly(env: Env, cfg: Config, es: seq<Event>, again: Config, sid: string,
                                                 now: nat)
    requires GoodConfig(env, cfg)
    requires var w := Run(env, cfg, START, es); w.client.registry.order != [] && w.server.registry.order != []
    ensures var w := Run(env, cfg, START, es);
            var c, s := w.client.registry, w.server.registry;
            && Tracked(c) && Tracked(s)
            && (Offers(cfg, again, sid, s, now) ==>
                  (Agreed(env, again, Resumption(cfg, sid, c), now).Some? <==> NowhereAhead(c, s)))
  {
    hide Run, Inv, ResumeOffset, InitStreams, Confirmation, Valid, SamePlan;
    StartInv(env, cfg);
    RunKeeps(env, cfg, START, es);
    var w := Run(env, cfg, START, es);
    OrderTracked(env, cfg, w, Client);
    OrderTracked(env, cfg, w, Server);
    if Offers(cfg, again, sid, w.server.registry, now) {
      ResumeInWorld(env, cfg, w, again, sid, now);
    }
  }

  lemma {:induction false} ResumeInWorld(env: Env, cfg: Config, w: World, again: Config, sid: string, now: nat)
    requires GoodConfig(env, cfg) && Inv(env, cfg, w)
    requires w.client.registry.order != [] && w.server.registry.order != []
    requires Tracked(w.client.registry) && Tracked(w.server.registry)
    requires Offers(cfg, again, sid, w.server.registry, now)
    ensures var c, s := w.client.registry, w.server.registry;
            Agreed(env, again, Resumption(cfg, sid, c), now).Some? <==> NowhereAhead(c, s)
  {
    hide Inv, ResumeOffset, NowhereAhead, NoMore, Resumption, InitStreams, Confirmation, Valid, SamePlan;
    hide Distinct, Injective, Agreed, Offers, SnapshotOf, Tracked;
    var c, s := w.client.registry, w.server.registry;
    OrderTracked(env, cfg, w, Client);
    OrderTracked(env, cfg, w, Server);
    SnapshotPlanned(cfg, c);
    SnapshotPlanned(cfg, s);
    OwnResume(env, cfg.planned, SnapshotOf(c), SnapshotOf(s));
    AgreedIfConfirmed(env, cfg, again, sid, c, s, now);
    PlacesExactly(c, s);
  }

  lemma {:induction false} SnapshotPlanned(cfg: Config, r: Registry)
    requires Tracked(r) && SamePlan(Declarations(r.order), cfg.planned)
    ensures SamePlan(cfg.planned, Declarations(SnapshotOf(r))) && |cfg.planned| == |r.order|
  {
    SnapshotSame(r);
    SamePlanBack(Declarations(r.order), cfg.planned, Declarations(SnapshotOf(r)));
    SamePlanSize(Declarations(r.order), cfg.planned);
    hide SamePlan, SnapshotOf;
  }

  lemma {:induction false} PlacesExactly(c: Registry, s: Registry)
    requires Tracked(c) && Tracked(s) && c.order == s.order
    requires forall i | 0 <= i < |c.order| :: c.order[i].id in c.streams
    requires forall k | k in c.streams :: exists i | 0 <= i < |c.order| :: c.order[i].id == k
    ensures NoMore(SnapshotOf(c), SnapshotOf(s)) <==> NowhereAhead(c, s)
  {
    hide ResumeOffset, NotAhead;
    SnapshotSame(c);
    SnapshotSame(s);
    forall a, b
      ensures ResumeOffset(a) <= ResumeOffset(b) <==> NotAhead(a, b)
    {
      NotAheadExactly(a, b);
    }
    if NowhereAhead(c, s) {
      forall i | 0 <= i < |c.order|
        ensures ResumeOffset(c.tracker[c.order[i].id]) <= ResumeOffset(s.tracker[c.order[i].id])
      {
        assert c.order[i].id in c.streams;
      }
    }
  }

  /** Once offered, only the matching of the streams decides. */
  lemma {:induction false} AgreedIfConfirmed(env: Env, cfg: Config, again: Config, sid: string, c: Registry,
                                             s: Registry, now: nat)
    requires Tracked(c) && Tracked(s)
    requires Offers(cfg, again, sid, s, now) && Valid(env, InitStreams(cfg.planned, Some(SnapshotOf(c))))
    ensures Agreed(env, again, Resumption(cfg, sid, c), now)
            == Confirmation(env, InitStreams(cfg.planned, Some(SnapshotOf(c))), Some(SnapshotOf(s)))
  {
    hide Valid, InitStreams, SnapshotOf, Confirmation;
  }

  lemma {:induction false} SamePlanSize(a: seq<Declaration>, b: seq<Declaration>)
    requires SamePlan(a, b)
    ensures |a| == |b|
  {
  }

  // ---- A frame lost in flight -----------------------------------------------

  /** Two messages the server has not seen. */
  lemma {:induction false} TwoUnseen(env: Env, cfg: Config) returns (es: seq<Event>)
    requires GoodConfig(env, cfg) && OneStream(cfg)
    ensures var w := Run(env, cfg, START, es);
            var id := env.generate(1);
            && w.client.registry.order != [] && w.server.registry.order != []
            && id in w.client.registry.streams && id in w.client.registry.tracker && id in w.server.registry.tracker
            && !NotAhead(w.client.registry.tracker[id], w.server.registry.tracker[id])
  {
    var id := env.generate(1);
    var send := SendMedia(Client, id, 0);
    var w := Handshake(env, cfg);
    es := [Start(true, None), Deliver(Server, false, 0), Deliver(Client, false, 0), send, send];
    var a := Step(env, cfg, w, send);
    var b := Step(env, cfg, a, send);
    MessageCounted(env, cfg, w, id);
    MessageCounted(env, cfg, a, id);
    assert Run(env, cfg, START, es) == b by { FiveSteps(env, cfg, es); }
  }

  lemma {:induction false} FiveSteps(env: Env, cfg: Config, es: seq<Event>)
    requires |es| == 5
    ensures Run(env, cfg, START, es)
            == var w := Step(env, cfg, Step(env, cfg, Step(env, cfg, START, es[0]), es[1]), es[2]);
               Step(env, cfg, Step(env, cfg, w, es[3]), es[4])
  {
    hide Step;
    Run3(env, cfg, START, es);
    var w := Step(env, cfg, Step(env, cfg, Step(env, cfg, START, es[0]), es[1]), es[2]);
    assert es[3..][1..] == [es[4]] && [es[4]][1..] == [];
    var a := Step(env, cfg, w, es[3]);
    assert Run(env, cfg, a, [es[4]]) == Run(env, cfg, Step(env, cfg, a, es[4]), []);
  }

  lemma {:induction false} MessageCounted(env: Env, cfg: Config, w: World, id: string)
    requires w.client.state == Established && id in w.client.registry.streams && id in w.client.registry.tracker
    requires w.client.registry.streams[id].decl.direction == Input
    requires w.client.registry.streams[id].decl.offsetType == Message
    ensures var v := Step(env, cfg, w, SendMedia(Client, id, 0));
            && v.server == w.server && v.client.state == Established
            && v.client.registry.order == w.client.registry.order
            && v.client.registry.streams == w.client.registry.streams
            && id in v.client.registry.tracker
            && var t := w.client.registry.tracker[id];
               v.client.registry.tracker[id] == t.(lastSent := Some(t.next), next := t.next + 1)
  {
  }

  /** A run after which the client's resume is refused although both sides hold their own snapshots. */
  lemma {:induction false} LostFrameRefusesResume(env: Env, cfg: Config, again: Config, sid: string, now: nat)
    returns (es: seq<Event>)
    requires GoodConfig(env, cfg) && OneStream(cfg)
    ensures var w := Run(env, cfg, START, es);
            && w.client.registry.order != [] && w.server.registry.order != []
            && Tracked(w.client.registry) && Tracked(w.server.registry)
            && (Offers(cfg, again, sid, w.server.registry, now) ==>
                  Agreed(env, again, Resumption(cfg, sid, w.client.registry), now).None?)
  {
    hide Run, Inv, ResumeOffset, Valid, Injective, Agreed, Offers;
    es := TwoUnseen(env, cfg);
    var w := Run(env, cfg, START, es);
    StartInv(env, cfg);
    RunKeeps(env, cfg, START, es);
    OrderTracked(env, cfg, w, Client);
    OrderTracked(env, cfg, w, Server);
    if Offers(cfg, again, sid, w.server.registry, now) {
      ResumeInWorld(env, cfg, w, again, sid, now);
    }
  }
}
