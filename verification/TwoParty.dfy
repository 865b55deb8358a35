/**
 * The TypeScript client and server sessions as a two-party protocol over FIFO channels. A step runs
 * one call up to its next await; what the call still does after awaiting its send is a continuation
 * that may run at any later time.
 */
module TwoParty {
  import opened Text
  import opened TsStreams

  datatype State = Uninitialized | Initializing | Established | Closed

  datatype Snapshot = Snapshot(sessionId: string, window: nat, streams: seq<Stream>)

  datatype Frame =
    | Init(authorized: bool, version: string, sessionId: Option<string>, declarations: seq<Declaration>)
    | InitAck(session: string, streams: seq<Stream>)
    | InitError
    | CloseFrame
    | Media(id: string, offset: nat, contentType: string, bytes: nat)
    | Note(fatal: bool) // any other event; fatal if an established receiver answers it by closing

  /** What a call does once its send has been awaited. */
  datatype Todo = ToEstablished | ToClosed

  datatype Party = Party(
    state: State, sessionId: Option<string>, registry: Registry, closeSent: bool, todo: seq<Todo>)

  const NEW_PARTY := Party(Uninitialized, None, EMPTY, false, [])

  /** The client's streams and version; the server's versions and the session it may resume. */
  datatype Config = Config(
    planned: seq<Declaration>, version: string, supported: seq<string>, snapshot: Option<Snapshot>,
    disconnectedAt: Option<nat>)

  /** Both parties, the channels, and the media each side was handed but did not accept. */
  datatype World = World(
    client: Party, server: Party, up: seq<Frame>, down: seq<Frame>, lostUp: seq<Frame>, lostDown: seq<Frame>)

  const START := World(NEW_PARTY, NEW_PARTY, [], [], [], [])

  datatype Event =
    | Start(authorized: bool, resume: Option<Snapshot>)
    | SendMedia(role: Role, id: string, bytes: nat)
    | SendNote(role: Role, fatal: bool)
    | Close(role: Role)
    | Deliver(role: Role, late: bool, now: nat) // late: the server's auth challenge has timed out
    | Continue(role: Role, k: nat)

  // ---- One party ------------------------------------------------------------

  /** A party after a call, what it sent, and whether a media frame was recorded. */
  datatype Reaction = Reaction(party: Party, out: seq<Frame>, taken: bool)

  function Closing(p: Party): Reaction {
    if p.state == Closed then Reaction(p, [], false)
    else Reaction(p.(state := Closed, closeSent := true), if p.closeSent then [] else [CloseFrame], false)
  }

  function Await(p: Party, t: Todo): Party {
    p.(todo := p.todo + [t])
  }

  function PeerClosed(p: Party): Reaction {
    if p.closeSent then Reaction(p.(state := Closed), [], false)
    else Reaction(Await(p.(closeSent := true), ToClosed), [CloseFrame], false)
  }

  function WhileEstablished(env: Env, role: Role, p: Party, f: Frame): Reaction {
    match f
    case Media(id, offset, contentType, bytes) =>
      (match Accepted(env, p.registry, role, id, offset, contentType, bytes)
       case None => Reaction(p, [], false)
       case Some(r) => Reaction(p.(registry := r), [], true))
    case CloseFrame => PeerClosed(p)
    case Note(fatal) => if fatal then Closing(p) else Reaction(p, [], false)
    case _ => Closing(p)
  }

  ghost function HandleAck(env: Env, cfg: Config, p: Party, session: string, ss: seq<Stream>): Party {
    if |ss| != |cfg.planned| then p
    else
      match Confirmed(env, p.registry, ss)
      case None => p
      case Some(r) => p.(registry := r, sessionId := Some(session), state := Established)
  }

  ghost function ClientReceive(env: Env, cfg: Config, p: Party, f: Frame): Reaction {
    match p.state
    case Closed => Reaction(p, [], false)
    case Uninitialized => Closing(p)
    case Established => WhileEstablished(env, Client, p, f)
    case Initializing =>
      match f
      case InitAck(session, ss) => Reaction(HandleAck(env, cfg, p, session, ss), [], false)
      case InitError => Reaction(p.(state := Closed), [], false)
      case _ => Closing(p)
  }

  predicate Expired(cfg: Config, now: nat) {
    && cfg.snapshot.Some? && cfg.disconnectedAt.Some?
    && (cfg.snapshot.value.window == 0 || now > cfg.disconnectedAt.value + cfg.snapshot.value.window)
  }

  /** The acknowledgement of an init, if it is accepted. */
  ghost function Agreed(env: Env, cfg: Config, f: Frame, now: nat): Option<seq<Stream>>
    requires f.Init?
  {
    if !f.authorized || !Valid(env, f.declarations) || f.version !in cfg.supported then None
    else if f.sessionId.Some? && (cfg.snapshot.None? || cfg.snapshot.value.sessionId != f.sessionId.value) then None
    else if f.sessionId.Some? && Expired(cfg, now) then None
    else
      Confirmation(env, f.declarations, if cfg.snapshot.Some? then Some(cfg.snapshot.value.streams) else None)
  }

  ghost function HandleInit(env: Env, cfg: Config, p: Party, f: Frame, now: nat): Reaction
    requires f.Init?
  {
    var q := p.(state := Initializing);
    match Agreed(env, cfg, f, now)
    case None => Reaction(Await(q, ToClosed), [InitError], false)
    case Some(ss) =>
      match Confirmed(env, p.registry, ss)
      case None => Reaction(q, [], false)
      case Some(r) =>
        var session := if f.sessionId.Some? then f.sessionId.value else env.generate(0);
        Reaction(Await(q.(registry := r, sessionId := Some(session)), ToEstablished), [InitAck(session, ss)], false)
  }

  ghost function ServerReceive(env: Env, cfg: Config, p: Party, f: Frame, late: bool, now: nat): Reaction {
    if late then Closing(p)
    else
      match p.state
      case Closed => Reaction(p, [], false)
      case Uninitialized => if f.Init? then HandleInit(env, cfg, p, f, now) else Closing(p)
      case Initializing => Closing(p)
      case Established => WhileEstablished(env, Server, p, f)
  }

  // ---- Both parties ---------------------------------------------------------

  function Get(w: World, role: Role): Party {
    if role == Client then w.client else w.server
  }

  function Inbox(w: World, role: Role): seq<Frame> {
    if role == Client then w.down else w.up
  }

  function Lost(w: World, role: Role): seq<Frame> {
    if role == Client then w.lostDown else w.lostUp
  }

  /** One party changed and sent something. */
  function Put(w: World, role: Role, p: Party, out: seq<Frame>): World {
    if role == Client then w.(client := p, up := w.up + out) else w.(server := p, down := w.down + out)
  }

  function Pop(w: World, role: Role): World
    requires Inbox(w, role) != []
  {
    if role == Client then w.(down := w.down[1..]) else w.(up := w.up[1..])
  }

  function Lose(w: World, role: Role, f: Frame): World {
    if role == Client then w.(lostDown := w.lostDown + [f]) else w.(lostUp := w.lostUp + [f])
  }

  ghost function Receive(env: Env, cfg: Config, w: World, role: Role, f: Frame, late: bool, now: nat): Reaction {
    if role == Client then ClientReceive(env, cfg, w.client, f) else ServerReceive(env, cfg, w.server, f, late, now)
  }

  ghost function Delivered(env: Env, cfg: Config, w: World, role: Role, late: bool, now: nat): World
    requires Inbox(w, role) != []
  {
    var f := Inbox(w, role)[0];
    var r := Receive(env, cfg, w, role, f, late, now);
    var v := Put(Pop(w, role), role, r.party, r.out);
    if f.Media? && !r.taken then Lose(v, role, f) else v
  }

  function MediaSent(env: Env, w: World, role: Role, id: string, bytes: nat): World
    requires MaySend(Get(w, role).registry, role, id)
  {
    var p := Get(w, role);
    var d := p.registry.streams[id].decl;
    Put(w, role, p.(registry := Sent(env, p.registry, id, bytes)),
        if Increment(env, d, bytes).None? then []
        else [Media(id, p.registry.tracker[id].next, d.contentType, bytes)])
  }

  function Continued(p: Party, k: nat): Party
    requires k < |p.todo|
  {
    p.(state := if p.todo[k] == ToEstablished then Established else Closed, todo := p.todo[..k] + p.todo[k + 1..])
  }

  function Started(cfg: Config, w: World, authorized: bool, resume: Option<Snapshot>): World {
    var sessionId := if resume.Some? then Some(resume.value.sessionId) else None;
    Put(w, Client, w.client.(state := Initializing, sessionId := sessionId),
        [Init(authorized, cfg.version, sessionId,
              InitStreams(cfg.planned, if resume.Some? then Some(resume.value.streams) else None))])
  }

  ghost function Step(env: Env, cfg: Config, w: World, e: Event): World {
    match e
    case Start(authorized, resume) =>
      if w.client.state != Uninitialized then w else Started(cfg, w, authorized, resume)
    case SendMedia(role, id, bytes) =>
      if Get(w, role).state != Established || !MaySend(Get(w, role).registry, role, id) then w
      else MediaSent(env, w, role, id, bytes)
    case SendNote(role, fatal) =>
      if Get(w, role).state != Established then w else Put(w, role, Get(w, role), [Note(fatal)])
    case Close(role) =>
      var r := Closing(Get(w, role));
      Put(w, role, r.party, r.out)
    case Deliver(role, late, now) => if Inbox(w, role) == [] then w else Delivered(env, cfg, w, role, late, now)
    case Continue(role, k) =>
      if k >= |Get(w, role).todo| then w else Put(w, role, Continued(Get(w, role), k), [])
  }

  ghost function Run(env: Env, cfg: Config, w: World, es: seq<Event>): World
    decreases |es|
  {
    if es == [] then w else Run(env, cfg, Step(env, cfg, w, es[0]), es[1..])
  }
}
