/** What every run of the two TypeScript sessions keeps. */
module TwoPartySafety {
  import opened Text
  import opened Lists
  import opened TsStreams
  import opened TwoParty
  import opened TwoPartyFlow

  /** A client that passed its constructor, an id generator without repetition, a sound snapshot. */
  ghost predicate GoodConfig(env: Env, cfg: Config) {
    && Valid(env, cfg.planned)
    && Injective(env.generate)
    && (cfg.snapshot.Some? ==> Distinct(Ids(cfg.snapshot.value.streams)))
  }

  predicate Ackless(ch: seq<Frame>) {
    forall i | 0 <= i < |ch| :: !ch[i].InitAck?
  }

  /** Whatever init or acknowledgement is on its way is the one both sides will agree on. */
  ghost predicate Announced(cfg: Config, w: World) {
    && (forall i | 0 <= i < |w.up| :: w.up[i].Init? ==> SamePlan(w.up[i].declarations, cfg.planned))
    && (forall i | 0 <= i < |w.down| :: w.down[i].InitAck? ==> w.down[i].streams == w.server.registry.order)
    && ToEstablished !in w.client.todo
  }

  /** The server has not confirmed any streams. */
  predicate Before(w: World) {
    && w.server.registry == EMPTY && w.client.registry == EMPTY
    && w.server.state != Established && w.client.state != Established
    && ToEstablished !in w.server.todo
    && Medialess(w.up) && Medialess(w.down) && Medialess(w.lostUp) && Medialess(w.lostDown)
    && Ackless(w.down)
  }

  /** The client's counters, or those it will have once it handles the acknowledgement. */
  function ClientTracker(w: World): Tracker {
    if w.client.registry.order == [] then EnterAll(map[], w.server.registry.order) else w.client.registry.tracker
  }

  ghost predicate Lines(env: Env, w: World) {
    var streams := w.server.registry.streams;
    && Line(env, streams, Client, w.up, w.lostUp, w.server.registry.tracker, ClientTracker(w))
    && Line(env, streams, Server, w.down, w.lostDown, ClientTracker(w), w.server.registry.tracker)
  }

  ghost predicate Agreement(env: Env, cfg: Config, w: World) {
    var r := w.server.registry;
    && Distinct(Ids(r.order)) && Valid(env, Declarations(r.order)) && SamePlan(Declarations(r.order), cfg.planned)
    && r.order != [] && r.streams == ById(r.order)
    && w.server.state != Uninitialized
    && (if w.client.registry.order == [] then w.client.registry == EMPTY && w.client.state != Established
        else && w.client.registry.order == r.order && w.client.registry.streams == r.streams
             && (w.client.state == Established || w.client.state == Closed))
  }

  ghost predicate Inv(env: Env, cfg: Config, w: World) {
    && Announced(cfg, w)
    && (Before(w) || (Agreement(env, cfg, w) && Lines(env, w)))
  }

  lemma {:induction false} StartInv(env: Env, cfg: Config)
    ensures Inv(env, cfg, START)
  {
  }

  // ---- Steps that touch no registry -----------------------------------------

  /** One party moves without touching its registry, and sends no media and no acknowledgement. */
  ghost predicate QuietMove(cfg: Config, role: Role, p: Party, q: Party, out: seq<Frame>) {
    && q.registry == p.registry
    && Medialess(out) && Ackless(out)
    && (forall i | 0 <= i < |out| :: out[i].Init? ==> SamePlan(out[i].declarations, cfg.planned))
    && (q.state == Uninitialized ==> p.state == Uninitialized)
    && (q.state == Initializing ==> p.state == Initializing || p.state == Uninitialized)
    && (q.state == Established ==> p.state == Established || ToEstablished in p.todo)
    && (ToEstablished in q.todo ==> ToEstablished in p.todo)
  }

  lemma {:induction false} QuietKeeps(env: Env, cfg: Config, w: World, role: Role, q: Party, out: seq<Frame>)
    requires Inv(env, cfg, w) && QuietMove(cfg, role, Get(w, role), q, out)
    ensures Inv(env, cfg, Put(w, role, q, out))
  {
    hide Line, Valid, Distinct, ById, EnterAll;
    var v := Put(w, role, q, out);
    if !Before(w) {
      var streams, t, c := w.server.registry.streams, w.server.registry.tracker, ClientTracker(w);
      if role == Client {
        LinePad(env, streams, Client, w.up, out, w.lostUp, t, c);
      } else {
        LinePad(env, streams, Server, w.down, out, w.lostDown, c, t);
      }
    }
  }

  lemma {:induction false} StartedQuiet(env: Env, cfg: Config, w: World, authorized: bool, resume: Option<Snapshot>)
    requires Inv(env, cfg, w) && w.client.state == Uninitialized
    ensures Inv(env, cfg, Started(cfg, w, authorized, resume))
  {
    hide Inv, InitStreams;
    var v := Started(cfg, w, authorized, resume);
    var out := [v.up[|w.up|]];
    assert v == Put(w, Client, v.client, out);
    QuietKeeps(env, cfg, w, Client, v.client, out);
  }

  lemma {:induction false} ClosingQuiet(cfg: Config, role: Role, p: Party)
    ensures QuietMove(cfg, role, p, Closing(p).party, Closing(p).out)
  {
  }

  lemma {:induction false} ContinuedQuiet(cfg: Config, role: Role, p: Party, k: nat)
    requires k < |p.todo|
    ensures QuietMove(cfg, role, p, Continued(p, k), [])
  {
  }

  // ---- Sending --------------------------------------------------------------

  /** Trackers that differ in nothing but one side's sending. */
  lemma {:induction false} SendKeeps(env: Env, cfg: Config, w: World, role: Role, id: string, bytes: nat)
    requires Inv(env, cfg, w) && Get(w, role).state == Established && MaySend(Get(w, role).registry, role, id)
    ensures Inv(env, cfg, MediaSent(env, w, role, id, bytes))
  {
    hide Line, Valid, Distinct, ById, EnterAll, Increment, Allocated;
    var v := MediaSent(env, w, role, id, bytes);
    assert !Before(w);
    assert Agreement(env, cfg, v) && Announced(cfg, v);
    if role == Client {
      ClientSendLines(env, w, id, bytes);
    } else {
      ServerSendLines(env, w, id, bytes);
    }
  }

  lemma {:induction false} ClientSendLines(env: Env, w: World, id: string, bytes: nat)
    requires Lines(env, w) && w.client.registry.order != [] && w.client.registry.streams == w.server.registry.streams
    requires MaySend(w.client.registry, Client, id)
    ensures Lines(env, MediaSent(env, w, Client, id, bytes))
  {
    hide Line, Increment;
    var streams, t, c := w.server.registry.streams, w.server.registry.tracker, w.client.registry.tracker;
    var inc := Increment(env, streams[id].decl, bytes);
    var c' := Allocated(c, id, inc);
    LineKeys(env, streams, Server, w.down, w.lostDown, c, t);
    LineFrame(env, streams, Server, w.down, w.lostDown, c, t, c', t);
    if inc.Some? {
      var f := Media(id, c[id].next, streams[id].decl.contentType, bytes);
      LineSend(env, streams, Client, w.up, w.lostUp, t, c, f, inc);
    } else {
      LineFrame(env, streams, Client, w.up, w.lostUp, t, c, t, c');
      assert w.up + [] == w.up;
    }
  }

  lemma {:induction false} ServerSendLines(env: Env, w: World, id: string, bytes: nat)
    requires Lines(env, w) && MaySend(w.server.registry, Server, id)
    ensures Lines(env, MediaSent(env, w, Server, id, bytes))
  {
    hide Line, Increment, EnterAll;
    var streams, t, c := w.server.registry.streams, w.server.registry.tracker, ClientTracker(w);
    var inc := Increment(env, streams[id].decl, bytes);
    var t' := Allocated(t, id, inc);
    LineFrame(env, streams, Client, w.up, w.lostUp, t, c, t', c);
    if inc.Some? {
      var f := Media(id, t[id].next, streams[id].decl.contentType, bytes);
      LineSend(env, streams, Server, w.down, w.lostDown, c, t, f, inc);
    } else {
      LineFrame(env, streams, Server, w.down, w.lostDown, c, t, c, t');
      assert w.down + [] == w.down;
    }
  }

  lemma {:induction false} LineKeys(env: Env, streams: Catalog, sender: Role, ch: seq<Frame>, lost: seq<Frame>,
                                    recv: Tracker, send: Tracker)
    requires Line(env, streams, sender, ch, lost, recv, send)
    ensures recv.Keys == send.Keys == streams.Keys
  {
  }

  // ---- Receiving ------------------------------------------------------------

  /** A frame is taken off a channel and not recorded. */
  function Skipped(w: World, role: Role): World
    requires Inbox(w, role) != []
  {
    var v := Pop(w, role);
    if Inbox(w, role)[0].Media? then Lose(v, role, Inbox(w, role)[0]) else v
  }

  lemma {:induction false} SkipKeeps(env: Env, cfg: Config, w: World, role: Role)
    requires Inv(env, cfg, w) && Inbox(w, role) != []
    ensures Inv(env, cfg, Skipped(w, role))
  {
    hide Line, Valid, Distinct, ById, EnterAll;
    if !Before(w) {
      SkipLines(env, w, role);
    }
  }

  lemma {:induction false} SkipLines(env: Env, w: World, role: Role)
    requires Lines(env, w) && Inbox(w, role) != []
    ensures Lines(env, Skipped(w, role))
  {
    hide Line, EnterAll;
    var streams, t, c := w.server.registry.streams, w.server.registry.tracker, ClientTracker(w);
    if role == Client {
      if w.down[0].Media? {
        LineLose(env, streams, Server, w.down, w.lostDown, c, t);
      } else {
        LineSkip(env, streams, Server, w.down, w.lostDown, c, t);
      }
    } else {
      if w.up[0].Media? {
        LineLose(env, streams, Client, w.up, w.lostUp, t, c);
      } else {
        LineSkip(env, streams, Client, w.up, w.lostUp, t, c);
      }
    }
  }

  /** The reaction records a media frame. */
  ghost predicate Takes(env: Env, role: Role, p: Party, f: Frame, r: Reaction) {
    && p.state == Established && f.Media? && r.taken && r.out == []
    && Accepted(env, p.registry, role, f.id, f.offset, f.contentType, f.bytes) == Some(r.party.registry)
    && r.party == p.(registry := r.party.registry)
  }

  ghost predicate Joins(env: Env, cfg: Config, p: Party, f: Frame, r: Reaction) {
    p.state == Initializing && f.InitAck? && r == Reaction(HandleAck(env, cfg, p, f.session, f.streams), [], false)
  }

  ghost predicate Serves(env: Env, cfg: Config, p: Party, f: Frame, now: nat, r: Reaction) {
    p.state == Uninitialized && f.Init? && r == HandleInit(env, cfg, p, f, now)
  }

  lemma {:induction false} Reactions(env: Env, cfg: Config, w: World, role: Role, f: Frame, late: bool, now: nat)
    ensures var p, r := Get(w, role), Receive(env, cfg, w, role, f, late, now);
            || (!r.taken && QuietMove(cfg, role, p, r.party, r.out))
            || Takes(env, role, p, f, r)
            || (role == Client && Joins(env, cfg, p, f, r))
            || (role == Server && Serves(env, cfg, p, f, now, r))
  {
    hide HandleAck, HandleInit, Accepted;
  }

  lemma {:induction false} TakeKeeps(env: Env, cfg: Config, w: World, role: Role, r: Reaction)
    requires Inv(env, cfg, w) && Inbox(w, role) != [] && Takes(env, role, Get(w, role), Inbox(w, role)[0], r)
    ensures Inv(env, cfg, Put(Pop(w, role), role, r.party, []))
  {
    hide Line, Valid, Distinct, ById, EnterAll, Increment;
    assert !Before(w);
    TakeLines(env, cfg, w, role, r);
  }

  lemma {:induction false} TakeLines(env: Env, cfg: Config, w: World, role: Role, r: Reaction)
    requires Agreement(env, cfg, w) && Lines(env, w)
    requires Inbox(w, role) != [] && Takes(env, role, Get(w, role), Inbox(w, role)[0], r)
    ensures Lines(env, Put(Pop(w, role), role, r.party, []))
  {
    hide Line, Valid, Distinct, ById, EnterAll, Increment;
    var streams, t, c := w.server.registry.streams, w.server.registry.tracker, ClientTracker(w);
    var f := Inbox(w, role)[0];
    var after := r.party.registry.tracker;
    if role == Client {
      LineKeys(env, streams, Server, w.down, w.lostDown, c, t);
      LineTake(env, streams, Server, w.down, w.lostDown, c, t, Increment(env, streams[f.id].decl, f.bytes).value);
      LineFrame(env, streams, Client, w.up, w.lostUp, t, c, t, after);
      assert w.up + [] == w.up;
    } else {
      LineKeys(env, streams, Client, w.up, w.lostUp, t, c);
      LineTake(env, streams, Client, w.up, w.lostUp, t, c, Increment(env, streams[f.id].decl, f.bytes).value);
      LineFrame(env, streams, Server, w.down, w.lostDown, c, t, c, after);
      assert w.down + [] == w.down;
    }
  }

  /** The acknowledgement is never rejected, and the client comes out with the server's streams. */
  lemma {:induction false} AckJoins(env: Env, cfg: Config, w: World)
    requires Inv(env, cfg, w) && w.down != [] && w.down[0].InitAck? && w.client.state == Initializing
    ensures var r := ClientReceive(env, cfg, w.client, w.down[0]);
            && r.party.state == Established && r.out == []
            && r.party.registry.order == w.server.registry.order
            && r.party.registry.streams == w.server.registry.streams
            && r.party.registry.tracker == ClientTracker(w)
  {
  }

  lemma {:induction false} JoinKeeps(env: Env, cfg: Config, w: World, r: Reaction)
    requires Inv(env, cfg, w) && w.down != [] && Joins(env, cfg, w.client, w.down[0], r)
    ensures Inv(env, cfg, Put(Pop(w, Client), Client, r.party, []))
  {
    AckJoins(env, cfg, w);
    SkipKeeps(env, cfg, w, Client);
    hide Line, Valid, Distinct, ById, EnterAll;
    var v := Put(Pop(w, Client), Client, r.party, []);
    assert !Before(w);
    assert v.up == w.up;
    assert ClientTracker(v) == ClientTracker(Skipped(w, Client));
  }

  lemma {:induction false} ServeKeeps(env: Env, cfg: Config, w: World, now: nat, r: Reaction)
    requires GoodConfig(env, cfg) && Inv(env, cfg, w)
    requires w.up != [] && Serves(env, cfg, w.server, w.up[0], now, r)
    ensures Inv(env, cfg, Put(Pop(w, Server), Server, r.party, r.out))
  {
    hide Lines, ById, EnterAll, Confirmation, GoodConfig, Valid, Distinct;
    assert Before(w);
    var f := w.up[0];
    if Agreed(env, cfg, f, now).None? {
      SkipKeeps(env, cfg, w, Server);
      hide Inv;
      QuietKeeps(env, cfg, Pop(w, Server), Server, r.party, r.out);
    } else {
      hide Inv;
      ServeAgrees(env, cfg, w, now, r);
    }
  }

  lemma {:induction false} SamePlanBack(a: seq<Declaration>, b: seq<Declaration>, c: seq<Declaration>)
    requires SamePlan(a, b) && SamePlan(a, c)
    ensures SamePlan(b, c)
  {
  }

  lemma {:induction false} AgreedGood(env: Env, cfg: Config, f: Frame, now: nat)
    requires GoodConfig(env, cfg) && f.Init? && Agreed(env, cfg, f, now).Some? && SamePlan(f.declarations, cfg.planned)
    ensures var ss := Agreed(env, cfg, f, now).value;
            Valid(env, Declarations(ss)) && Distinct(Ids(ss)) && SamePlan(Declarations(ss), cfg.planned)
  {
    hide Confirmation, Valid, Distinct, Injective, Ids, Declarations, SamePlan;
    ConfirmationGood(env, f.declarations, if cfg.snapshot.Some? then Some(cfg.snapshot.value.streams) else None);
    var ss := Agreed(env, cfg, f, now).value;
    SamePlanBack(f.declarations, Declarations(ss), cfg.planned);
  }

  lemma {:induction false} ServeAgrees(env: Env, cfg: Config, w: World, now: nat, r: Reaction)
    requires GoodConfig(env, cfg) && Announced(cfg, w) && Before(w)
    requires w.up != [] && Serves(env, cfg, w.server, w.up[0], now, r) && Agreed(env, cfg, w.up[0], now).Some?
    ensures Inv(env, cfg, Put(Pop(w, Server), Server, r.party, r.out))
  {
    hide Valid, Distinct, ById, EnterAll, Agreed, Lines, GoodConfig, Inv;
    AgreedGood(env, cfg, w.up[0], now);
    var ss := Agreed(env, cfg, w.up[0], now).value;
    ValidSome(env, Declarations(ss));
    ServedInv(env, cfg, w, r.party, r.out[0].session, ss);
  }

  lemma {:induction false} ServedInv(env: Env, cfg: Config, w: World, q: Party, session: string, ss: seq<Stream>)
    requires Announced(cfg, w) && Before(w) && w.up != [] && ss != []
    requires Valid(env, Declarations(ss)) && Distinct(Ids(ss)) && SamePlan(Declarations(ss), cfg.planned)
    requires q.registry == Registry(ss, ById(ss), EnterAll(map[], ss)) && q.state == Initializing
    ensures Inv(env, cfg, Put(Pop(w, Server), Server, q, [InitAck(session, ss)]))
  {
    hide Valid, Distinct, ById, EnterAll, Lines, Announced, Medialess, Ackless, Ids, Declarations;
    var v := Put(Pop(w, Server), Server, q, [InitAck(session, ss)]);
    ServedAnnounced(cfg, w, v, InitAck(session, ss));
    ServedLines(env, v);
  }

  lemma {:induction false} ServedAnnounced(cfg: Config, w: World, v: World, ack: Frame)
    requires Announced(cfg, w) && Medialess(w.up) && Medialess(w.down) && Ackless(w.down) && w.up != [] && ack.InitAck?
    requires v.up == w.up[1..] && v.down == w.down + [ack]
    requires v.client == w.client && v.server.registry.order == ack.streams
    ensures Announced(cfg, v) && Medialess(v.up) && Medialess(v.down)
  {
  }

  lemma {:induction false} ServedLines(env: Env, w: World)
    requires var r := w.server.registry;
             r == Registry(r.order, ById(r.order), EnterAll(map[], r.order)) && Distinct(Ids(r.order))
    requires w.client.registry.order == []
    requires Medialess(w.up) && Medialess(w.down) && Medialess(w.lostUp) && Medialess(w.lostDown)
    ensures Lines(env, w)
  {
    var ss := w.server.registry.order;
    FreshEntries(ss);
    hide Distinct, ById, EnterAll, Line, Medialess;
    LineStart(env, ById(ss), Client, w.up, w.lostUp, EnterAll(map[], ss));
    LineStart(env, ById(ss), Server, w.down, w.lostDown, EnterAll(map[], ss));
  }

  lemma {:induction false} ValidSome(env: Env, ds: seq<Declaration>)
    requires Valid(env, ds)
    ensures ds != []
  {
  }

  lemma {:induction false} DeliverKeeps(env: Env, cfg: Config, w: World, role: Role, late: bool, now: nat)
    requires GoodConfig(env, cfg) && Inv(env, cfg, w) && Inbox(w, role) != []
    ensures Inv(env, cfg, Delivered(env, cfg, w, role, late, now))
  {
    hide Inv, GoodConfig, Receive;
    var f := Inbox(w, role)[0];
    var r := Receive(env, cfg, w, role, f, late, now);
    Reactions(env, cfg, w, role, f, late, now);
    if Takes(env, role, Get(w, role), f, r) {
      TakeKeeps(env, cfg, w, role, r);
    } else if role == Client && Joins(env, cfg, w.client, f, r) {
      JoinKeeps(env, cfg, w, r);
    } else if role == Server && Serves(env, cfg, w.server, f, now, r) {
      hide HandleInit;
      ServeKeeps(env, cfg, w, now, r);
      ServesNothing(env, cfg, w.server, f, now);
    } else {
      hide Takes, Joins, Serves;
      SkipKeeps(env, cfg, w, role);
      QuietKeeps(env, cfg, Skipped(w, role), role, r.party, r.out);
    }
  }

  lemma {:induction false} ServesNothing(env: Env, cfg: Config, p: Party, f: Frame, now: nat)
    requires f.Init?
    ensures !HandleInit(env, cfg, p, f, now).taken
  {
  }

  lemma {:induction false} StepKeeps(env: Env, cfg: Config, w: World, e: Event)
    requires GoodConfig(env, cfg) && Inv(env, cfg, w)
    ensures Inv(env, cfg, Step(env, cfg, w, e))
  {
    hide Inv, GoodConfig, Delivered, MediaSent, Started, Closing, Continued;
    match e
    case Start(authorized, resume) =>
      if w.client.state == Uninitialized {
        StartedQuiet(env, cfg, w, authorized, resume);
      }
    case SendMedia(role, id, bytes) =>
      if Get(w, role).state == Established && MaySend(Get(w, role).registry, role, id) {
        SendKeeps(env, cfg, w, role, id, bytes);
      }
    case SendNote(role, fatal) => QuietKeeps(env, cfg, w, role, Get(w, role), [Note(fatal)]);
    case Close(role) =>
      ClosingQuiet(cfg, role, Get(w, role));
      QuietKeeps(env, cfg, w, role, Closing(Get(w, role)).party, Closing(Get(w, role)).out);
    case Deliver(role, late, now) =>
      if Inbox(w, role) != [] {
        DeliverKeeps(env, cfg, w, role, late, now);
      }
    case Continue(role, k) =>
      if k < |Get(w, role).todo| {
        ContinuedQuiet(cfg, role, Get(w, role), k);
        QuietKeeps(env, cfg, w, role, Continued(Get(w, role), k), []);
      }
  }

  lemma {:induction false} RunKeeps(env: Env, cfg: Config, w: World, es: seq<Event>)
    requires GoodConfig(env, cfg) && Inv(env, cfg, w)
    ensures Inv(env, cfg, Run(env, cfg, w, es))
    decreases |es|
  {
    hide Inv, GoodConfig, Step;
    if es != [] {
      StepKeeps(env, cfg, w, es[0]);
      RunKeeps(env, cfg, Step(env, cfg, w, es[0]), es[1..]);
    }
  }
}
