/** The main results about whole runs of the two TypeScript sessions. */
module TwoPartyRuns {
  import opened Text
  import opened Lists
  import opened TsStreams
  import opened TwoParty
  import opened TwoPartyFlow
  import opened TwoPartySafety

  /**
   * In every reachable world in which both sides have confirmed, each direction of each stream
   * balances: the sender's next offset is the receiver's expected one plus what is in flight plus
   * what the receiver was handed and did not accept.
   */
  lemma {:induction false} EveryDirectionBalances(env: Env, cfg: Config, es: seq<Event>, id: string)
    requires GoodConfig(env, cfg)
    requires var w := Run(env, cfg, START, es); id in w.client.registry.streams
    ensures var w := Run(env, cfg, START, es);
            var streams, c, s := w.client.registry.streams, w.client.registry.tracker, w.server.registry.tracker;
            && streams == w.server.registry.streams
            && id in c && id in s
            && c[id].next == s[id].expected + Moved(env, streams, w.lostUp, id) + Moved(env, streams, w.up, id)
            && s[id].next == c[id].expected + Moved(env, streams, w.lostDown, id) + Moved(env, streams, w.down, id)
  {
    StartInv(env, cfg);
    RunKeeps(env, cfg, START, es);
    var w := Run(env, cfg, START, es);
    hide Run, GoodConfig, Valid, Distinct, ById, EnterAll, Flow, Moved;
    assert !Before(w);
    var streams, c, s := w.client.registry.streams, w.client.registry.tracker, w.server.registry.tracker;
    FlowSum(env, streams, Client, w.up, Base(env, streams, s, w.lostUp), Nexts(c), id);
    FlowSum(env, streams, Server, w.down, Base(env, streams, c, w.lostDown), Nexts(s), id);
  }

  /** The receiver's side of the invariant: the next media frame fits in all but perhaps its offset. */
  lemma {:induction false} HeadFits(env: Env, cfg: Config, w: World, role: Role)
    requires Inv(env, cfg, w) && Inbox(w, role) != [] && Inbox(w, role)[0].Media? && Get(w, role).state == Established
    ensures var f, r := Inbox(w, role)[0], Get(w, role).registry;
            && Legit(env, r.streams, Other(role), f) && f.id in r.tracker
            && f.offset == r.tracker[f.id].expected + Moved(env, r.streams, Lost(w, role), f.id)
  {
  }

  lemma {:induction false} AcceptsWhen(env: Env, r: Registry, role: Role, f: Frame)
    requires f.Media? && Legit(env, r.streams, Other(role), f) && f.id in r.tracker
    ensures Accepted(env, r, role, f.id, f.offset, f.contentType, f.bytes).Some?
            <==> f.offset == r.tracker[f.id].expected
  {
  }

  lemma {:induction false} AcceptedHere(env: Env, cfg: Config, w: World, role: Role, now: nat)
    requires Inv(env, cfg, w)
    requires Get(w, role).state == Established && Inbox(w, role) != [] && Inbox(w, role)[0].Media?
    ensures Receive(env, cfg, w, role, Inbox(w, role)[0], false, now).taken
            <==> Moved(env, Get(w, role).registry.streams, Lost(w, role), Inbox(w, role)[0].id) == 0
  {
    hide Inv, Moved, Legit, Accepted;
    HeadFits(env, cfg, w, role);
    AcceptsWhen(env, Get(w, role).registry, role, Inbox(w, role)[0]);
  }

  /**
   * In every run, an established session accepts the next media frame of its peer exactly when the
   * frames of that stream it was handed earlier and did not accept cover no offsets. Never is a
   * frame refused for its stream, direction, content type or alignment.
   */
  lemma {:induction false} AcceptedExactly(env: Env, cfg: Config, es: seq<Event>, role: Role, now: nat)
    requires GoodConfig(env, cfg)
    requires var w := Run(env, cfg, START, es);
             Get(w, role).state == Established && Inbox(w, role) != [] && Inbox(w, role)[0].Media?
    ensures var w := Run(env, cfg, START, es);
            var f := Inbox(w, role)[0];
            Receive(env, cfg, w, role, f, false, now).taken
            <==> Moved(env, Get(w, role).registry.streams, Lost(w, role), f.id) == 0
  {
    hide Run, GoodConfig, Inv, Moved, Receive;
    StartInv(env, cfg);
    RunKeeps(env, cfg, START, es);
    AcceptedHere(env, cfg, Run(env, cfg, START, es), role, now);
  }

  // ---- Frames handed over one at a time -------------------------------------

  /** No frame reaches the server while it awaits the sending of its init-ack. */
  ghost predicate Awaited(w: World, e: Event) {
    e.Deliver? && e.role == Server ==> ToEstablished !in w.server.todo
  }

  ghost predicate AwaitedRun(env: Env, cfg: Config, w: World, es: seq<Event>)
    decreases |es|
  {
    es != [] ==> Awaited(w, es[0]) && AwaitedRun(env, cfg, Step(env, cfg, w, es[0]), es[1..])
  }

  /** A session that let media go by is closed and will not be reopened. */
  predicate Settled(p: Party, lost: seq<Frame>) {
    !Medialess(lost) ==> p.state == Closed && ToEstablished !in p.todo
  }

  ghost predicate NothingMissed(w: World) {
    Settled(w.client, w.lostDown) && Settled(w.server, w.lostUp)
  }

  lemma {:induction false} DeliverMissesNothing(env: Env, cfg: Config, w: World, role: Role, late: bool, now: nat)
    requires Inv(env, cfg, w) && NothingMissed(w) && Inbox(w, role) != []
    requires role == Server ==> ToEstablished !in w.server.todo
    ensures NothingMissed(Delivered(env, cfg, w, role, late, now))
  {
    var f := Inbox(w, role)[0];
    var r := Receive(env, cfg, w, role, f, late, now);
    assert ToEstablished !in Get(w, role).todo;
    hide Medialess;
    if Get(w, role).state == Closed {
    } else if f.Media? && !r.taken {
      MediaRefused(env, cfg, w, role, late, now);
    } else {
      assert Medialess(Lost(w, role));
    }
  }

  lemma {:induction false} MediaRefused(env: Env, cfg: Config, w: World, role: Role, late: bool, now: nat)
    requires Inv(env, cfg, w) && NothingMissed(w) && Inbox(w, role) != [] && Inbox(w, role)[0].Media?
    requires ToEstablished !in Get(w, role).todo
    requires !Receive(env, cfg, w, role, Inbox(w, role)[0], late, now).taken
    ensures var p := Receive(env, cfg, w, role, Inbox(w, role)[0], late, now).party;
            p.state == Closed && ToEstablished !in p.todo
  {
    hide Inv, Medialess, Accepted;
    var p, f := Get(w, role), Inbox(w, role)[0];
    if p.state == Established && !(role == Server && late) {
      HeadFits(env, cfg, w, role);
      MovedNothing(env, p.registry.streams, Lost(w, role), f.id);
      AcceptsWhen(env, p.registry, role, f);
      assert false;
    }
  }

  lemma {:induction false} StepMissesNothing(env: Env, cfg: Config, w: World, e: Event)
    requires Inv(env, cfg, w) && NothingMissed(w) && Awaited(w, e)
    ensures NothingMissed(Step(env, cfg, w, e))
  {
    hide Medialess, Delivered;
    match e
    case Deliver(role, late, now) =>
      if Inbox(w, role) != [] {
        DeliverMissesNothing(env, cfg, w, role, late, now);
      }
    case _ =>
      hide InitStreams, Increment, Allocated, MaySend;
  }

  lemma {:induction false} RunMissesNothing(env: Env, cfg: Config, w: World, es: seq<Event>)
    requires GoodConfig(env, cfg) && Inv(env, cfg, w) && NothingMissed(w) && AwaitedRun(env, cfg, w, es)
    ensures NothingMissed(Run(env, cfg, w, es))
    decreases |es|
  {
    hide Inv, GoodConfig, NothingMissed, Step, Awaited;
    if es != [] {
      StepKeeps(env, cfg, w, es[0]);
      StepMissesNothing(env, cfg, w, es[0]);
      RunMissesNothing(env, cfg, Step(env, cfg, w, es[0]), es[1..]);
    }
  }

  /**
   * If frames are handed to the server only once it has finished with the init, no established
   * session ever refuses a media frame its peer sent.
   */
  lemma {:induction false} EstablishedNeverRefuses(env: Env, cfg: Config, es: seq<Event>, role: Role, now: nat)
    requires GoodConfig(env, cfg) && AwaitedRun(env, cfg, START, es)
    requires var w := Run(env, cfg, START, es);
             Get(w, role).state == Established && Inbox(w, role) != [] && Inbox(w, role)[0].Media?
    ensures var w := Run(env, cfg, START, es);
            Receive(env, cfg, w, role, Inbox(w, role)[0], false, now).taken
  {
    var w := Run(env, cfg, START, es);
    StartInv(env, cfg);
    AcceptedExactly(env, cfg, es, role, now);
    hide Inv, GoodConfig, Run, Receive, AwaitedRun, Moved;
    RunMissesNothing(env, cfg, START, es);
    MovedNothing(env, Get(w, role).registry.streams, Lost(w, role), Inbox(w, role)[0].id);
  }

  /**
   * Without that discipline it fails: media that arrives while the server awaits its init-ack closes
   * the session, the awaited call then reopens it, and from there on every frame of that stream is
   * refused although both sides are established.
   */
  lemma {:induction false} ReopenedAfterClose(env: Env, cfg: Config, w: World, now: nat)
    requires w.server.state == Initializing && !w.server.closeSent && w.server.todo == [ToEstablished]
    requires w.up != [] && w.up[0].Media?
    ensures var closed := Step(env, cfg, w, Deliver(Server, false, now));
            var v := Step(env, cfg, closed, Continue(Server, 0));
            && closed.server.state == Closed
            && v.server == w.server.(state := Established, closeSent := true, todo := [])
            && v.down == w.down + [CloseFrame]
            && v.lostUp == w.lostUp + [w.up[0]]
            && (forall id :: Moved(env, w.server.registry.streams, v.lostUp, id)
                             == Moved(env, w.server.registry.streams, w.lostUp, id)
                                + if id == w.up[0].id then Width(env, w.server.registry.streams, w.up[0]) else 0)
  {
  }

  // ---- The race, from the start ---------------------------------------------

  /** One stream counted by messages that the client may send on, and nothing to resume. */
  ghost predicate OneStream(cfg: Config) {
    && |cfg.planned| == 1 && cfg.planned[0].offsetType == Message && cfg.planned[0].direction == Input
    && cfg.version in cfg.supported && cfg.snapshot.None?
  }

  /** The run that ends in the race. */
  function Racing(env: Env): seq<Event> {
    var id := env.generate(1);
    [Start(true, None), Deliver(Server, false, 0), Deliver(Client, false, 0),
     SendMedia(Client, id, 0), SendMedia(Client, id, 0), Deliver(Server, false, 0), Continue(Server, 0)]
  }

  /** Handshake up to the point where the client is established and the server still awaits. */
  lemma {:induction false} Handshake(env: Env, cfg: Config) returns (w: World)
    requires GoodConfig(env, cfg) && OneStream(cfg)
    ensures w == Step(env, cfg, Step(env, cfg, Step(env, cfg, START, Start(true, None)), Deliver(Server, false, 0)),
                      Deliver(Client, false, 0))
    ensures Inv(env, cfg, w)
    ensures w.client.state == Established && w.up == [] && w.lostUp == []
    ensures w.server.state == Initializing && w.server.todo == [ToEstablished] && !w.server.closeSent
    ensures var id := env.generate(1);
            && w.client.registry.streams == w.server.registry.streams
            && w.client.registry.order != [] && w.server.registry.order != []
            && w.client.registry.tracker == w.server.registry.tracker
            && id in w.client.registry.streams && id in w.client.registry.tracker
            && w.client.registry.streams[id].decl == cfg.planned[0].(resumeOffset := None)
            && w.client.registry.tracker[id] == Counters(0, 0, None, None)
  {
    hide Inv, GoodConfig;
    StartInv(env, cfg);
    var a := Step(env, cfg, START, Start(true, None));
    StepKeeps(env, cfg, START, Start(true, None));
    assert a.up == [Init(true, cfg.version, None, cfg.planned)];
    StepKeeps(env, cfg, a, Deliver(Server, false, 0));
    var b := Step(env, cfg, a, Deliver(Server, false, 0));
    FirstInit(env, cfg, a, b);
    StepKeeps(env, cfg, b, Deliver(Client, false, 0));
    AckJoins(env, cfg, b);
    w := Step(env, cfg, b, Deliver(Client, false, 0));
    hide HandleAck, EnterAll, ById;
    assert w.up == [];
  }

  lemma {:induction false} FirstInit(env: Env, cfg: Config, a: World, b: World)
    requires GoodConfig(env, cfg) && OneStream(cfg)
    requires a.up == [Init(true, cfg.version, None, cfg.planned)] && a.server == NEW_PARTY && a.down == []
    requires a.client.state == Initializing && a.client.registry == EMPTY && a.lostUp == []
    requires b == Step(env, cfg, a, Deliver(Server, false, 0))
    ensures b.up == [] && b.client == a.client && b.lostUp == []
    ensures b.down != [] && b.down[0].InitAck?
    ensures b.server.state == Initializing && b.server.todo == [ToEstablished] && !b.server.closeSent
    ensures var id := env.generate(1);
            && b.server.registry.order != [] && b.server.registry.tracker == ClientTracker(b)
            && id in b.server.registry.streams && id in ClientTracker(b)
            && b.server.registry.streams[id].decl == cfg.planned[0].(resumeOffset := None)
            && ClientTracker(b)[id] == Counters(0, 0, None, None)
  {
    var f := a.up[0];
    var s := Stream(env.generate(1), cfg.planned[0].(resumeOffset := None));
    var ss := FreshStreams(env, cfg.planned);
    assert ss == [s];
    assert Agreed(env, cfg, f, 0) == Some(ss);
    AgreedGood(env, cfg, f, 0);
    FreshEntries(ss);
    assert ById(ss) == map[s.id := s] by { assert ss[..0] == []; }
    hide GoodConfig, Agreed, Valid, Distinct, EnterAll, ById;
  }

  /**
   * A concrete run from the start: both sessions established, the client's frame next on the
   * channel, and the server refuses it.
   */
  lemma {:induction false} OverlapRefuses(env: Env, cfg: Config, now: nat)
    requires GoodConfig(env, cfg) && OneStream(cfg)
    ensures var w := Run(env, cfg, START, Racing(env));
            && w.client.state == Established && w.server.state == Established
            && w.up != [] && w.up[0].Media?
            && !Receive(env, cfg, w, Server, w.up[0], false, now).taken
  {
    hide Inv, GoodConfig, Step, Receive, Moved;
    var id := env.generate(1);
    var a := Handshake(env, cfg);
    var b := Step(env, cfg, a, SendMedia(Client, id, 0));
    MessageSent(env, cfg, a, id);
    StepKeeps(env, cfg, a, SendMedia(Client, id, 0));
    var c := Step(env, cfg, b, SendMedia(Client, id, 0));
    MessageSent(env, cfg, b, id);
    StepKeeps(env, cfg, b, SendMedia(Client, id, 0));
    var d := Step(env, cfg, c, Deliver(Server, false, 0));
    StepKeeps(env, cfg, c, Deliver(Server, false, 0));
    var e := Step(env, cfg, d, Continue(Server, 0));
    StepKeeps(env, cfg, d, Continue(Server, 0));
    ReopenedAfterClose(env, cfg, c, 0);
    UpAfterRace(env, cfg, c);
    Unrolled(env, cfg);
    AcceptedHere(env, cfg, e, Server, now);
  }

  lemma {:induction false} MessageSent(env: Env, cfg: Config, w: World, id: string)
    requires w.client.state == Established && id in w.client.registry.streams && id in w.client.registry.tracker
    requires w.client.registry.streams[id].decl.direction == Input
    requires w.client.registry.streams[id].decl.offsetType == Message
    ensures var v := Step(env, cfg, w, SendMedia(Client, id, 0));
            && |v.up| == |w.up| + 1 && v.up[..|w.up|] == w.up
            && v.up[|w.up|].Media? && v.up[|w.up|].id == id
            && Width(env, w.client.registry.streams, v.up[|w.up|]) == 1
            && v.server == w.server && v.lostUp == w.lostUp
            && v.client.state == Established && v.client.registry.streams == w.client.registry.streams
            && id in v.client.registry.tracker
  {
  }

  lemma {:induction false} UpAfterRace(env: Env, cfg: Config, w: World)
    requires |w.up| == 2 && w.up[0].Media? && w.server.state == Initializing && w.server.todo == [ToEstablished]
    ensures var v := Step(env, cfg, Step(env, cfg, w, Deliver(Server, false, 0)), Continue(Server, 0));
            v.up == w.up[1..] && v.client == w.client
  {
  }

  lemma {:induction false} Unrolled(env: Env, cfg: Config)
    ensures var id := env.generate(1);
            var a := Step(env, cfg, Step(env, cfg, Step(env, cfg, START, Start(true, None)), Deliver(Server, false, 0)),
                          Deliver(Client, false, 0));
            var c := Step(env, cfg, Step(env, cfg, a, SendMedia(Client, id, 0)), SendMedia(Client, id, 0));
            Run(env, cfg, START, Racing(env))
            == Step(env, cfg, Step(env, cfg, c, Deliver(Server, false, 0)), Continue(Server, 0))
  {
    hide Step;
    var id := env.generate(1);
    var es := Racing(env);
    var a := Step(env, cfg, Step(env, cfg, Step(env, cfg, START, es[0]), es[1]), es[2]);
    Run3(env, cfg, START, es);
    var c := Step(env, cfg, Step(env, cfg, a, es[3]), es[4]);
    Run3(env, cfg, a, es[3..]);
    assert es[3..][3..] == [es[6]];
    var d := Step(env, cfg, c, es[5]);
    assert Run(env, cfg, d, [es[6]]) == Run(env, cfg, Step(env, cfg, d, es[6]), []);
  }

  lemma {:induction false} Run3(env: Env, cfg: Config, w: World, es: seq<Event>)
    requires |es| >= 3
    ensures Run(env, cfg, w, es)
            == Run(env, cfg, Step(env, cfg, Step(env, cfg, Step(env, cfg, w, es[0]), es[1]), es[2]), es[3..])
  {
    hide Step;
    var v := Step(env, cfg, w, es[0]);
    assert es[1..][1..] == es[2..] && es[2..][1..] == es[3..];
    assert Run(env, cfg, v, es[1..]) == Run(env, cfg, Step(env, cfg, v, es[1]), es[2..]);
  }
}
