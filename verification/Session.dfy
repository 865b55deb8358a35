/**
 * The C++ server session as a concurrent transition system. Every step is one region in which a
 * call holds the session mutex, or one send made without it; between steps a call is parked at a
 * program counter, and calls interleave freely.
 */
module Session {
  import opened Text
  import opened Decimal
  import opened Streams
  import Auth = AuthRefresh
  import ContentType

  datatype State = Uninitialized | Initializing | Established | Closed

  /** What export_state hands to the application for a later resumption. */
  datatype Persisted = Persisted(sessionId: string, streams: seq<StreamInfo>, window: nat, since: nat)

  datatype Config = Config(
    hasValidator: bool, hasResponder: bool, versions: seq<string>, maxStreams: nat,
    defaultWindow: nat, maxWindow: nat, auth: Auth.Config, prior: Option<Persisted>)

  /** A culpeo.init frame with its decoded body; none where the JSON lacks or garbles the field. */
  datatype InitFrame = InitFrame(
    version: Option<string>, declarations: Option<seq<Declaration>>,
    sessionId: Option<string>, bufferWindow: Option<string>)

  /** Randomness and time consumed while accepting an init. */
  datatype Draw = Draw(ids: seq<string>, sessionId: Option<string>, nowMs: nat)

  datatype MediaFrame = MediaFrame(
    streamId: Option<string>, offset: Option<string>, contentType: Option<string>,
    timestamp: Option<string>, bytes: nat)

  /** A frame handed to the transport. */
  datatype Wire = InitAck | InitError | CloseFrame | Pong | Ping | AuthRefresh | Media(id: string, offset: nat)

  /** Where a call waits with the mutex released. */
  datatype Pc =
    | Sending(frame: Wire)        // sends, then returns
    | Failing(frame: Wire)        // sends, then must take the mutex again to close
    | Relocking                   // has sent, waits for the mutex to close
    | Validating(init: InitFrame) // in the token callback of an init
    | Responding                  // in the token callback of an auth-response

  /** The offset one media frame carried, and where the stream goes on after it. */
  datatype Segment = Segment(id: string, from: nat, to: nat)

  /** An init that was accepted, with what was drawn for it. */
  datatype Acceptance = Acceptance(init: InitFrame, draw: Draw)

  /** Shared state under the mutex, parked calls, and the history the properties speak about. */
  datatype Session = Session(
    state: State, sessionId: string, window: nat, registry: Registry, auth: Auth.Auth,
    calls: map<nat, Pc>, next: nat,
    everClosed: bool, wire: seq<Wire>, initial: map<string, nat>, ledger: seq<Segment>, accepted: seq<Acceptance>)

  const NEW := Session(Uninitialized, "", 0, map[], Auth.NO_AUTH, map[], 0, false, [], map[], [], [])

  datatype Op =
    | NoEvent                                          // control frame without Event
    | BadEvent                                         // syntactically invalid event name
    | OtherEvent                                       // pong or an unknown event
    | Init(init: InitFrame, draw: Draw)
    | PingReceived(answered: bool)
    | AuthResponse(nonce: Option<string>, now: nat)    // none: the body is not usable
    | CloseReceived
    | MediaReceived(media: MediaFrame)
    | SendMedia(id: string, bytes: nat)
    | SendAuthRefresh(now: nat, random: Option<Auth.Bytes>)
    | SendPing
    | Close

  /** A call takes the mutex for the first time, or a parked call moves on. */
  datatype Event = Enter(op: Op) | Resume(call: nat, ok: bool, draw: Draw)

  // ---- Regions --------------------------------------------------------------

  /** transition_to_closed_locked. */
  function CloseNow(s: Session): Session {
    s.(state := Closed, auth := Auth.Cleared(s.auth), everClosed := true)
  }

  function Park(s: Session, pc: Pc): Session {
    s.(calls := s.calls[s.next := pc], next := s.next + 1)
  }

  function Refuse(s: Session): Session {
    Park(s.(state := Initializing), Failing(InitError))
  }

  function Shut(s: Session): Session {
    Park(CloseNow(s), Sending(CloseFrame))
  }

  function Window(cfg: Config, f: InitFrame): nat {
    match f.bufferWindow
    case None => cfg.defaultWindow
    case Some(text) =>
      match Read(text, MAX_U64)
      case None => cfg.defaultWindow
      case Some(n) => if n < cfg.maxWindow then n else cfg.maxWindow
  }

  predicate Expired(ps: Persisted, nowMs: nat) {
    ps.window > 0 && nowMs > ps.since + ps.window
  }

  /** The streams and session id an init ends up with, if it is accepted. */
  datatype Agreement = Agreement(sessionId: string, streams: seq<StreamInfo>)

  ghost function Agree(cfg: Config, f: InitFrame, draw: Draw): Option<Agreement> {
    if f.declarations.None? then None
    else
      var ds := f.declarations.value;
      match f.sessionId
      case Some(sid) =>
        if cfg.prior.None? || sid != cfg.prior.value.sessionId || Expired(cfg.prior.value, draw.nowMs) then None
        else
          (match Streams.Resume(ds, cfg.prior.value.streams)
           case None => None
           case Some(rs) => Some(Agreement(sid, rs)))
      case None =>
        if !ValidDeclarations(ds, cfg.maxStreams) || |draw.ids| < |ds| || draw.sessionId.None? then None
        else Some(Agreement(draw.sessionId.value, FreshAll(ds, draw.ids[..|ds|])))
  }

  /** Registration, then finalize_established_locked: established before the ack is sent. */
  function Establish(cfg: Config, s: Session, f: InitFrame, draw: Draw, a: Agreement): Session {
    var registry := Stored(a.streams);
    s.(state := Established, sessionId := a.sessionId, window := Window(cfg, f), registry := registry,
       initial := map k | k in registry :: registry[k].offset, accepted := s.accepted + [Acceptance(f, draw)])
  }

  /** What a call does next after an init was judged, with the mutex held. */
  datatype Outcome = Outcome(session: Session, pc: Pc)

  ghost function Negotiate(cfg: Config, s: Session, f: InitFrame, draw: Draw): Outcome {
    match Agree(cfg, f, draw)
    case None => Outcome(s, Failing(InitError))
    case Some(a) => Outcome(Establish(cfg, s, f, draw, a), Sending(InitAck))
  }

  ghost function HandleInit(cfg: Config, s: Session, f: InitFrame, draw: Draw): Session {
    if s.state != Uninitialized || f.version.None? || f.version.value !in cfg.versions then Refuse(s)
    else
      var t := s.(state := Initializing);
      if cfg.hasValidator then Park(t, Validating(f))
      else
        var o := Negotiate(cfg, t, f, draw);
        Park(o.session, o.pc)
  }

  datatype MediaError =
    | MissingStreamId | StreamNotFound | InvalidDirection | MissingOffset | BadOffset | OffsetMismatch
    | MissingContentType | ContentTypeMismatch | BadTimestamp | OffsetOverflow

  /** The checks of process_media_frame, in their order; none means accepted. */
  function Judge(reg: Registry, f: MediaFrame): Option<MediaError> {
    if f.streamId.None? then Some(MissingStreamId)
    else if f.streamId.value !in reg then Some(StreamNotFound)
    else
      var stream := reg[f.streamId.value];
      if stream.direction == Output then Some(InvalidDirection)
      else if f.offset.None? then Some(MissingOffset)
      else if Read(f.offset.value, MAX_U64).None? then Some(BadOffset)
      else if Read(f.offset.value, MAX_U64).value != stream.offset then Some(OffsetMismatch)
      else if f.contentType.None? then Some(MissingContentType)
      else if !ContentType.Matches(stream.contentType, f.contentType.value) then Some(ContentTypeMismatch)
      else if f.timestamp.Some? && Read(f.timestamp.value, MAX_U64).None? then Some(BadTimestamp)
      else if Advance(stream, f.bytes).None? then Some(OffsetOverflow)
      else None
  }

  /** Advance one stream and book the offset the frame carries. */
  function TakeOffsets(s: Session, id: string, carried: nat, bytes: nat): Session
    requires id in s.registry && Advance(s.registry[id], bytes).Some?
  {
    var stream := s.registry[id];
    s.(registry := s.registry[id := Advance(stream, bytes).value],
       ledger := s.ledger + [Segment(id, carried, carried + Increment(stream, bytes).value)])
  }

  function HandleMedia(s: Session, f: MediaFrame): Session {
    if s.state == Uninitialized then Refuse(s)
    else if s.state != Established then s
    else if Judge(s.registry, f).Some? then Shut(s)
    else TakeOffsets(s, f.streamId.value, Read(f.offset.value, MAX_U64).value, f.bytes)
  }

  function HandleSendMedia(s: Session, id: string, bytes: nat): Session {
    if s.state != Established || id !in s.registry || s.registry[id].direction == Input
       || Advance(s.registry[id], bytes).None? then s
    else
      var offset := s.registry[id].offset;
      Park(TakeOffsets(s, id, offset, bytes), Sending(Media(id, offset)))
  }

  function HandleAuthResponse(cfg: Config, s: Session, nonce: Option<string>, now: nat): Session {
    if s.state != Established then s
    else if s.auth.pending.None? then Park(s, Failing(CloseFrame))
    else
      var t := s.(auth := Auth.Cleared(s.auth));
      if nonce.None? || Auth.Judge(s.auth, nonce.value, now, cfg.auth.timeout).Some? then Park(t, Failing(CloseFrame))
      else if cfg.hasResponder then Park(t, Responding)
      else t
  }

  function HandleSendAuthRefresh(cfg: Config, s: Session, now: nat, random: Option<Auth.Bytes>): Session {
    if s.state != Established || random.None? || !Auth.MayIssue(s.auth, now, cfg.auth.minInterval) then s
    else Park(s.(auth := Auth.Issue(now, random.value)), Sending(AuthRefresh))
  }

  /** The first region of a call. */
  ghost function Entered(cfg: Config, s: Session, op: Op): Session {
    match op
    case NoEvent =>
      if s.state == Established then Shut(s) else if s.state == Closed then s else Refuse(s)
    case BadEvent => Park(CloseNow(s), Sending(if s.state == Established then CloseFrame else InitError))
    case Init(f, draw) => HandleInit(cfg, s, f, draw)
    case OtherEvent => if s.state == Uninitialized then Refuse(s) else s
    case PingReceived(answered) =>
      if s.state == Uninitialized then Refuse(s)
      else if s.state == Established && answered then Park(s, Sending(Pong))
      else s
    case AuthResponse(nonce, now) =>
      if s.state == Uninitialized then Refuse(s) else HandleAuthResponse(cfg, s, nonce, now)
    case CloseReceived =>
      if s.state == Uninitialized then Refuse(s) else if s.state == Closed then s else Shut(s)
    case MediaReceived(f) => HandleMedia(s, f)
    case SendMedia(id, bytes) => HandleSendMedia(s, id, bytes)
    case SendAuthRefresh(now, random) => HandleSendAuthRefresh(cfg, s, now, random)
    case SendPing => if s.state == Established then Park(s, Sending(Ping)) else s
    case Close => if s.state == Closed then s else Shut(s)
  }

  function Leave(s: Session, c: nat): Session {
    s.(calls := s.calls - {c})
  }

  function MoveTo(s: Session, c: nat, pc: Pc): Session {
    s.(calls := s.calls[c := pc])
  }

  /** A parked call sends, or takes the mutex again; `ok` is what its callback answered. */
  ghost function Resumed(cfg: Config, s: Session, c: nat, ok: bool, draw: Draw): Session
    requires c in s.calls
  {
    match s.calls[c]
    case Sending(frame) => Leave(s.(wire := s.wire + [frame]), c)
    case Failing(frame) => MoveTo(s.(wire := s.wire + [frame]), c, Relocking)
    case Relocking => Leave(CloseNow(s), c)
    case Validating(f) =>
      if s.state == Closed then Leave(s, c)
      else if !ok then MoveTo(s, c, Failing(InitError))
      else
        var o := Negotiate(cfg, s, f, draw);
        MoveTo(o.session, c, o.pc)
    case Responding =>
      if ok || s.state == Closed then Leave(s, c) else MoveTo(CloseNow(s), c, Sending(CloseFrame))
  }

  ghost function Step(cfg: Config, s: Session, e: Event): Session {
    match e
    case Enter(op) => Entered(cfg, s, op)
    case Resume(c, ok, draw) => if c in s.calls then Resumed(cfg, s, c, ok, draw) else s
  }

  ghost function Run(cfg: Config, s: Session, es: seq<Event>): Session
    decreases |es|
  {
    if es == [] then s else Run(cfg, Step(cfg, s, es[0]), es[1..])
  }
}
