/** The offset a side resumes from is the largest it has used in the run. */
module TwoPartyHistory {
  import opened Text
  import opened Lists
  import opened TsStreams
  import opened TwoParty
  import opened TwoPartySafety
  import opened TwoPartyResume

  /** The seed an acknowledged list gives a stream. */
  function SeedOf(streams: map<string, Stream>, id: string): seq<nat> {
    if id in streams && streams[id].decl.resumeOffset.Some? then [streams[id].decl.resumeOffset.value] else []
  }

  /**
   * The offsets of a stream that one event makes a side use: that of a frame it sends, or fails to
   * send for an uncountable payload; that of a frame it accepts; and the seed when it confirms.
   */
  ghost function Uses(env: Env, cfg: Config, w: World, e: Event, role: Role, id: string): seq<nat> {
    var p := Get(w, role);
    match e
    case SendMedia(r, i, _) =>
      if r == role && i == id && p.state == Established && MaySend(p.registry, role, id) then
        [p.registry.tracker[id].next]
      else []
    case Deliver(r, late, now) =>
      if r != role || Inbox(w, role) == [] then []
      else
        var f := Inbox(w, role)[0];
        var reaction := Receive(env, cfg, w, role, f, late, now);
        if reaction.taken then (if f.Media? && f.id == id then [f.offset] else [])
        else if reaction.party.registry != p.registry then SeedOf(reaction.party.registry.streams, id)
        else []
    case _ => []
  }

  /** All of them over a run. */
  ghost function Used(env: Env, cfg: Config, es: seq<Event>, role: Role, id: string): seq<nat>
    decreases |es|
  {
    if es == [] then []
    else
      var init := es[..|es| - 1];
      Used(env, cfg, init, role, id) + Uses(env, cfg, Run(env, cfg, START, init), es[|es| - 1], role, id)
  }

  /** The counters remember the last use of each kind, and no use went past both. */
  ghost predicate Remembers(c: Counters, used: seq<nat>) {
    && (c.lastSent.Some? ==> c.lastSent.value in used)
    && (c.lastReceived.Some? ==> c.lastReceived.value in used)
    && (c.lastSent.None? && c.lastReceived.None? ==> used == [])
    && forall x | x in used :: x <= OrZero(c.lastSent) || x <= OrZero(c.lastReceived)
  }

  ghost predicate Recalls(t: Tracker, id: string, used: seq<nat>) {
    if id in t then Remembers(t[id], used) else used == []
  }

  lemma {:induction false} RunSnoc(env: Env, cfg: Config, w: World, es: seq<Event>, e: Event)
    ensures Run(env, cfg, w, es + [e]) == Step(env, cfg, Run(env, cfg, w, es), e)
    decreases |es|
  {
    hide Step;
    if es == [] {
      assert es + [e] == [e] && [e][1..] == [];
      assert Run(env, cfg, w, [e]) == Run(env, cfg, Step(env, cfg, w, e), []);
    } else {
      assert (es + [e])[0] == es[0] && (es + [e])[1..] == es[1..] + [e];
      RunSnoc(env, cfg, Step(env, cfg, w, es[0]), es[1..], e);
    }
  }

  lemma {:induction false} SendRecalled(t: Tracker, id: string, k: string, inc: Option<nat>, used: seq<nat>)
    requires id in t && Bounded(t) && Recalls(t, k, used)
    ensures Recalls(Allocated(t, id, inc), k, if k == id then used + [t[id].next] else used)
  {
  }

  lemma {:induction false} AcceptRecalled(env: Env, r: Registry, role: Role, f: Frame, k: string, used: seq<nat>)
    requires f.Media? && Bounded(r.tracker) && Recalls(r.tracker, k, used)
    requires Accepted(env, r, role, f.id, f.offset, f.contentType, f.bytes).Some?
    ensures Recalls(Accepted(env, r, role, f.id, f.offset, f.contentType, f.bytes).value.tracker, k,
                    if k == f.id then used + [f.offset] else used)
  {
    hide Increment;
  }

  lemma {:induction false} SeedRecalled(ss: seq<Stream>, k: string)
    requires Distinct(Ids(ss))
    ensures Recalls(EnterAll(map[], ss), k, SeedOf(ById(ss), k))
  {
    FreshEntries(ss);
    hide ById, EnterAll;
  }

  lemma {:induction false} QuietUse(env: Env, cfg: Config, w: World, role: Role, late: bool, now: nat, k: string)
    requires Inbox(w, role) != []
    requires var r := Receive(env, cfg, w, role, Inbox(w, role)[0], late, now);
             !r.taken && r.party.registry == Get(w, role).registry
    ensures Uses(env, cfg, w, Deliver(role, late, now), role, k) == []
  {
    hide Receive;
  }

  /** What a delivery does to the receiver's registry. */
  lemma {:induction false} DeliveredRegistry(env: Env, cfg: Config, w: World, role: Role, late: bool, now: nat)
    requires Inbox(w, role) != []
    ensures var f := Inbox(w, role)[0];
            var v := Delivered(env, cfg, w, role, late, now);
            && Get(v, role).registry == Receive(env, cfg, w, role, f, late, now).party.registry
            && Get(v, Other(role)) == Get(w, Other(role))
  {
    hide Receive;
  }

  lemma {:induction false} DeliverRecalled(env: Env, cfg: Config, w: World, role: Role, late: bool, now: nat,
                                           k: string, used: seq<nat>)
    requires GoodConfig(env, cfg) && Inv(env, cfg, w) && Bounded(Get(w, role).registry.tracker) && Inbox(w, role) != []
    requires Recalls(Get(w, role).registry.tracker, k, used)
    ensures Recalls(Get(Delivered(env, cfg, w, role, late, now), role).registry.tracker, k,
                    used + Uses(env, cfg, w, Deliver(role, late, now), role, k))
  {
    hide Recalls, Bounded, Receive, Delivered, GoodConfig, Inv, Uses, Accepted;
    var p, f := Get(w, role), Inbox(w, role)[0];
    var r := Receive(env, cfg, w, role, f, late, now);
    DeliveredRegistry(env, cfg, w, role, late, now);
    TakenUse(env, cfg, w, role, late, now, k);
    assert used + [] == used;
    if r.taken {
      AcceptRecalled(env, p.registry, role, f, k, used);
    } else if r.party.registry == p.registry {
      QuietUse(env, cfg, w, role, late, now, k);
    } else {
      ConfirmRecalled(env, cfg, w, role, late, now, k, used);
    }
  }

  lemma {:induction false} TakenUse(env: Env, cfg: Config, w: World, role: Role, late: bool, now: nat, k: string)
    requires Inbox(w, role) != []
    ensures var f := Inbox(w, role)[0];
            var r := Receive(env, cfg, w, role, f, late, now);
            r.taken ==>
              && Takes(env, role, Get(w, role), f, r)
              && Uses(env, cfg, w, Deliver(role, late, now), role, k) == if k == f.id then [f.offset] else []
  {
    Reactions(env, cfg, w, role, Inbox(w, role)[0], late, now);
    hide Receive, QuietMove, Accepted;
  }

  lemma {:induction false} ConfirmRecalled(env: Env, cfg: Config, w: World, role: Role, late: bool, now: nat,
                                           k: string, used: seq<nat>)
    requires GoodConfig(env, cfg) && Inv(env, cfg, w) && Inbox(w, role) != []
    requires Recalls(Get(w, role).registry.tracker, k, used)
    requires var r := Receive(env, cfg, w, role, Inbox(w, role)[0], late, now);
             !r.taken && r.party.registry != Get(w, role).registry
    ensures Recalls(Receive(env, cfg, w, role, Inbox(w, role)[0], late, now).party.registry.tracker, k,
                    used + Uses(env, cfg, w, Deliver(role, late, now), role, k))
  {
    hide Receive, GoodConfig, Inv, ById, EnterAll, SeedOf, Distinct, Remembers;
    ConfirmedFresh(env, cfg, w, role, late, now);
    var r := Receive(env, cfg, w, role, Inbox(w, role)[0], late, now);
    SeedRecalled(r.party.registry.order, k);
    assert used == [];
    assert [] + SeedOf(r.party.registry.streams, k) == SeedOf(r.party.registry.streams, k);
    hide Recalls;
  }

  /** A registry that a delivery replaces was empty, and is filled from a list of distinct ids. */
  lemma {:induction false} ConfirmedFresh(env: Env, cfg: Config, w: World, role: Role, late: bool, now: nat)
    requires GoodConfig(env, cfg) && Inv(env, cfg, w) && Inbox(w, role) != []
    requires var r := Receive(env, cfg, w, role, Inbox(w, role)[0], late, now);
             !r.taken && r.party.registry != Get(w, role).registry
    ensures Get(w, role).registry == EMPTY
    ensures var g := Receive(env, cfg, w, role, Inbox(w, role)[0], late, now).party.registry;
            g == Registry(g.order, ById(g.order), EnterAll(map[], g.order)) && Distinct(Ids(g.order))
  {
    var f := Inbox(w, role)[0];
    var r := Receive(env, cfg, w, role, f, late, now);
    Reactions(env, cfg, w, role, f, late, now);
    hide Lines, ById, EnterAll, Receive, Valid, Distinct, GoodConfig, Agreed;
    if role == Client {
      assert Joins(env, cfg, w.client, f, r);
    } else {
      assert Serves(env, cfg, w.server, f, now, r);
      AgreedGood(env, cfg, f, now);
    }
  }

  lemma {:induction false} SendStepRecalled(env: Env, cfg: Config, w: World, e: Event, role: Role, k: string,
                                            used: seq<nat>)
    requires e.SendMedia? && Bounded(Get(w, role).registry.tracker) && Recalls(Get(w, role).registry.tracker, k, used)
    ensures Recalls(Get(Step(env, cfg, w, e), role).registry.tracker, k, used + Uses(env, cfg, w, e, role, k))
  {
    assert used + [] == used;
    var p := Get(w, role);
    if e.role == role && p.state == Established && MaySend(p.registry, role, e.id) {
      SendRecalled(p.registry.tracker, e.id, k, Increment(env, p.registry.streams[e.id].decl, e.bytes), used);
    }
    hide Recalls, Allocated, Increment;
  }

  lemma {:induction false} StepRecalled(env: Env, cfg: Config, w: World, e: Event, role: Role, k: string,
                                        used: seq<nat>)
    requires GoodConfig(env, cfg) && Inv(env, cfg, w) && BothBounded(w)
    requires Recalls(Get(w, role).registry.tracker, k, used)
    ensures Recalls(Get(Step(env, cfg, w, e), role).registry.tracker, k, used + Uses(env, cfg, w, e, role, k))
  {
    hide Recalls, Inv, GoodConfig, Bounded, Delivered, Uses, MediaSent, Started, Closing, Continued;
    assert used + [] == used;
    match e
    case SendMedia(_, _, _) => SendStepRecalled(env, cfg, w, e, role, k, used);
    case Deliver(r, late, now) =>
      if Inbox(w, r) != [] {
        DeliveredRegistry(env, cfg, w, r, late, now);
        if r == role {
          DeliverRecalled(env, cfg, w, role, late, now, k, used);
        } else {
          OtherUse(env, cfg, w, e, role, k);
        }
      } else {
        OtherUse(env, cfg, w, e, role, k);
      }
    case _ => NoUse(env, cfg, w, e, role, k);
  }

  lemma {:induction false} NoUse(env: Env, cfg: Config, w: World, e: Event, role: Role, k: string)
    requires !e.SendMedia? && !e.Deliver?
    ensures Uses(env, cfg, w, e, role, k) == []
    ensures Get(Step(env, cfg, w, e), role).registry == Get(w, role).registry
  {
    hide InitStreams;
  }

  lemma {:induction false} OtherUse(env: Env, cfg: Config, w: World, e: Event, role: Role, k: string)
    requires e.Deliver? && (e.role != role || Inbox(w, role) == [])
    ensures Uses(env, cfg, w, e, role, k) == []
  {
    hide Receive;
  }

  lemma {:induction false} RunRecalled(env: Env, cfg: Config, es: seq<Event>, role: Role, k: string)
    requires GoodConfig(env, cfg)
    ensures Recalls(Get(Run(env, cfg, START, es), role).registry.tracker, k, Used(env, cfg, es, role, k))
    decreases |es|
  {
    if es != [] {
      var init, e := es[..|es| - 1], es[|es| - 1];
      assert es == init + [e];
      RunRecalled(env, cfg, init, role, k);
      RunSnoc(env, cfg, START, init, e);
      hide Recalls, Run, Step, Uses, GoodConfig;
      StartInv(env, cfg);
      RunKeeps(env, cfg, START, init);
      RunBounded(env, cfg, START, init);
      hide Inv, BothBounded;
      StepRecalled(env, cfg, Run(env, cfg, START, init), e, role, k, Used(env, cfg, init, role, k));
    }
  }

  /**
   * In every run, the offset a side's snapshot gives for a stream is the largest it has used there,
   * in a frame it sent or accepted or as the seed of a resumption, and zero if it has used none.
   */
  lemma {:induction false} SnapshotIsLargest(env: Env, cfg: Config, es: seq<Event>, role: Role, id: string)
    requires GoodConfig(env, cfg)
    requires id in Get(Run(env, cfg, START, es), role).registry.tracker
    ensures var r := ResumeOffset(Get(Run(env, cfg, START, es), role).registry.tracker[id]);
            var used := Used(env, cfg, es, role, id);
            if used == [] then r == 0 else r in used && forall x | x in used :: x <= r
  {
    hide Run, GoodConfig, Used;
    RunRecalled(env, cfg, es, role, id);
    var used := Used(env, cfg, es, role, id);
    var c := Get(Run(env, cfg, START, es), role).registry.tracker[id];
    ResumeOffsetExactly(c);
    if used != [] && ResumeOffset(c) == 0 {
      assert used[0] in used;
    }
  }
}
