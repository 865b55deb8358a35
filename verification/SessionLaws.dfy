/** What single regions of the C++ session do, in terms of the frames and the clock alone. */
module SessionLaws {
  import opened Text
  import opened Decimal
  import opened Streams
  import opened Session
  import Auth = AuthRefresh
  import ContentType

  // ---- Media ----------------------------------------------------------------

  /** The stream can count one more frame of this size. */
  predicate Room(s: StreamInfo, bytes: nat) {
    match s.offsetType
    case Byte => s.offset + bytes <= MAX_U64
    case PerMessage => s.offset + 1 <= MAX_U64
    case Time =>
      && s.pcm.Some? && 0 < s.pcm.value.channels && 0 < s.pcm.value.bits && s.pcm.value.bits % 8 == 0
      && s.offset <= MAX_U64
      && s.offset + bytes / (s.pcm.value.channels * (s.pcm.value.bits / 8)) <= MAX_U64
  }

  lemma {:induction false} RoomToAdvance(s: StreamInfo, bytes: nat)
    ensures Advance(s, bytes).Some? <==> Room(s, bytes)
  {
  }

  /** The text is a canonical decimal of 64 bits. */
  ghost predicate Numeral(text: string) {
    exists n: nat :: n <= MAX_U64 && text == Render(n)
  }

  lemma {:induction false} ReadsSome(text: string)
    ensures Read(text, MAX_U64).Some? <==> Numeral(text)
  {
    if Read(text, MAX_U64).Some? {
      ReadExactly(text, MAX_U64, Read(text, MAX_U64).value);
    }
    forall n: nat | n <= MAX_U64 && text == Render(n)
      ensures Read(text, MAX_U64).Some?
    {
      ReadExactly(text, MAX_U64, n);
    }
  }

  /** A media frame from the client that an established session must take. */
  ghost predicate Takeable(reg: Registry, f: MediaFrame) {
    && f.streamId.Some? && f.streamId.value in reg
    && var stream := reg[f.streamId.value];
       && (stream.direction == Input || stream.direction == Duplex)
       && f.offset == Some(Render(stream.offset))
       && f.contentType.Some? && ContentType.Matches(stream.contentType, f.contentType.value)
       && (f.timestamp.None? || Numeral(f.timestamp.value))
       && Room(stream, f.bytes)
  }

  /**
   * An established session stays so exactly on frames for a known stream the client may send on, at
   * its current offset, of its content type, with no timestamp or a readable one, and with room left
   * in the offset.
   */
  lemma {:induction false} MediaExactly(s: Session, f: MediaFrame)
    requires s.state == Established
    ensures HandleMedia(s, f).state == Established <==> Takeable(s.registry, f)
    ensures HandleMedia(s, f).state == Closed <==> !Takeable(s.registry, f)
  {
    JudgeExactly(s.registry, f);
    hide Judge, Takeable, Advance, Increment, Read;
  }

  lemma {:induction false} JudgeExactly(reg: Registry, f: MediaFrame)
    ensures Judge(reg, f).None? <==> Takeable(reg, f)
  {
    hide Read, Advance, ContentType.Matches, Room, Numeral, Render;
    if f.streamId.Some? && f.streamId.value in reg {
      var stream := reg[f.streamId.value];
      RoomToAdvance(stream, f.bytes);
      RoomBound(stream, f.bytes);
      if f.timestamp.Some? {
        ReadsSome(f.timestamp.value);
      }
      if f.offset.Some? {
        ReadExactly(f.offset.value, MAX_U64, stream.offset);
        assert Read(f.offset.value, MAX_U64).Some? && Read(f.offset.value, MAX_U64).value == stream.offset
               <==> Read(f.offset.value, MAX_U64) == Some(stream.offset);
      }
    }
  }

  lemma {:induction false} RoomBound(s: StreamInfo, bytes: nat)
    ensures Room(s, bytes) ==> s.offset <= MAX_U64
  {
  }

  /** The server sends media exactly on a known stream it may send on with room left in the offset. */
  lemma {:induction false} SendExactly(s: Session, id: string, bytes: nat)
    requires s.state == Established
    ensures var t := HandleSendMedia(s, id, bytes);
            if && id in s.registry && (s.registry[id].direction == Output || s.registry[id].direction == Duplex)
               && Room(s.registry[id], bytes) then
              && s.next in t.calls && t.calls[s.next] == Sending(Media(id, s.registry[id].offset))
              && t.state == Established && id in t.registry
              && t.registry == s.registry[id := s.registry[id].(offset := t.registry[id].offset)]
            else t == s
  {
    hide Increment, Room;
    if id in s.registry {
      RoomToAdvance(s.registry[id], bytes);
    }
  }

  // ---- Accepting an init ----------------------------------------------------

  /**
   * An init is agreed to exactly when its declarations are readable and either it names the session
   * to resume, in time, and its declarations pair up with the persisted streams within their offsets,
   * or it names none, its declarations are valid and the generator delivers.
   */
  lemma {:induction false} AgreeExactly(cfg: Config, f: InitFrame, draw: Draw)
    requires cfg.prior.Some? ==> GoodStreams(cfg.prior.value.streams)
    ensures Agree(cfg, f, draw).Some? <==>
              && f.declarations.Some?
              && match f.sessionId
                 case Some(sid) =>
                   && cfg.prior.Some? && sid == cfg.prior.value.sessionId
                   && (cfg.prior.value.window == 0 || draw.nowMs <= cfg.prior.value.since + cfg.prior.value.window)
                   && exists pair ::
                        && Pairs(f.declarations.value, cfg.prior.value.streams, pair)
                        && Within(f.declarations.value, cfg.prior.value.streams, pair)
                 case None =>
                   && ValidDeclarations(f.declarations.value, cfg.maxStreams)
                   && |draw.ids| >= |f.declarations.value| && draw.sessionId.Some?
    ensures Agree(cfg, f, draw).Some? ==>
              Agree(cfg, f, draw).value.sessionId == (if f.sessionId.Some? then f.sessionId else draw.sessionId).value
  {
    hide Pairs, Within, ValidDeclarations, FreshAll, GoodStreams, Streams.Resume;
    if f.declarations.Some? && cfg.prior.Some? {
      ResumesExactly(f.declarations.value, cfg.prior.value.streams);
    }
  }

  /** The window is the readable request cut to the maximum, and the default without one. */
  lemma {:induction false} WindowExactly(cfg: Config, f: InitFrame)
    ensures forall n: nat | n <= MAX_U64 && f.bufferWindow == Some(Render(n)) ::
              Window(cfg, f) == if n <= cfg.maxWindow then n else cfg.maxWindow
    ensures f.bufferWindow.None? || !Numeral(f.bufferWindow.value) ==>
              Window(cfg, f) == cfg.defaultWindow
  {
    if f.bufferWindow.Some? {
      ReadsSome(f.bufferWindow.value);
      forall n: nat | n <= MAX_U64 && f.bufferWindow == Some(Render(n))
        ensures Read(f.bufferWindow.value, MAX_U64) == Some(n)
      {
        ReadExactly(f.bufferWindow.value, MAX_U64, n);
      }
    }
    hide Read, Render;
  }

  /** An init needs an uninitialized session and a supported version; a token check comes before acceptance. */
  lemma {:induction false} InitExactly(cfg: Config, s: Session, f: InitFrame, draw: Draw)
    ensures var t := HandleInit(cfg, s, f, draw);
            && s.next in t.calls && t.wire == s.wire
            && if s.state != Uninitialized || f.version.None? || f.version.value !in cfg.versions then
                 t.state == Initializing && t.calls[s.next] == Failing(InitError) && t.accepted == s.accepted
               else if cfg.hasValidator then
                 t.state == Initializing && t.calls[s.next] == Validating(f) && t.accepted == s.accepted
               else if Agree(cfg, f, draw).None? then
                 t.state == Initializing && t.calls[s.next] == Failing(InitError) && t.accepted == s.accepted
               else
                 && t.state == Established && t.calls[s.next] == Sending(InitAck)
                 && t.accepted == s.accepted + [Acceptance(f, draw)] && t.window == Window(cfg, f)
                 && t.sessionId == Agree(cfg, f, draw).value.sessionId
  {
    hide Agree, Window, Stored;
  }

  /** A token check lets the init go on exactly when it succeeds on a session not closed meanwhile. */
  lemma {:induction false} CheckedExactly(cfg: Config, s: Session, c: nat, f: InitFrame, ok: bool, draw: Draw)
    requires c in s.calls && s.calls[c] == Validating(f)
    ensures var t := Resumed(cfg, s, c, ok, draw);
            && t.wire == s.wire
            && if s.state == Closed then t == s.(calls := s.calls - {c})
               else if !ok || Agree(cfg, f, draw).None? then t == s.(calls := s.calls[c := Failing(InitError)])
               else
                 && t.state == Established && t.calls == s.calls[c := Sending(InitAck)]
                 && t.accepted == s.accepted + [Acceptance(f, draw)] && t.window == Window(cfg, f)
                 && t.sessionId == Agree(cfg, f, draw).value.sessionId
  {
    hide Agree, Window, Stored;
  }

  // ---- Control frames and calls ---------------------------------------------

  /** The frame a new call goes off to send, if it does. */
  predicate Goes(s: Session, t: Session, pc: Pc) {
    t.calls == s.calls[s.next := pc] && t.next == s.next + 1
  }

  predicate Stays(s: Session, t: Session) {
    t.calls == s.calls && t.next == s.next && t.state == s.state
  }

  /**
   * While established: a close, from either side, an unreadable event or none at all closes at once
   * and answers; a ping is answered unless it came too fast; other events change nothing.
   */
  lemma {:induction false} WhileEstablished(cfg: Config, s: Session, op: Op)
    requires s.state == Established
    ensures var t := Entered(cfg, s, op);
            match op
            case Close => t.state == Closed && Goes(s, t, Sending(CloseFrame))
            case CloseReceived => t.state == Closed && Goes(s, t, Sending(CloseFrame))
            case NoEvent => t.state == Closed && Goes(s, t, Sending(CloseFrame))
            case BadEvent => t.state == Closed && Goes(s, t, Sending(CloseFrame))
            case OtherEvent => Stays(s, t)
            case PingReceived(answered) => if answered then t.state == s.state
               && Goes(s, t, Sending(Pong)) else Stays(s, t)
            case SendPing => t.state == Established && Goes(s, t, Sending(Ping))
            case _ => true
  {
    hide HandleInit, HandleMedia, HandleSendMedia, HandleAuthResponse, HandleSendAuthRefresh;
  }

  /** Before an init, any other frame is answered with an init-error and leads to closing; calls to send do nothing. */
  lemma {:induction false} BeforeInit(cfg: Config, s: Session, op: Op)
    requires s.state == Uninitialized
    ensures var t := Entered(cfg, s, op);
            match op
            case Init(_, _) => true
            case BadEvent => t.state == Closed && Goes(s, t, Sending(InitError))
            case Close => t.state == Closed && Goes(s, t, Sending(CloseFrame))
            case SendMedia(_, _) => t == s
            case SendAuthRefresh(_, _) => t == s
            case SendPing => t == s
            case _ => t.state == Initializing && Goes(s, t, Failing(InitError))
  {
    hide HandleInit;
  }

  /** Once closed, nothing is done but the answers to an unreadable event and to another init. */
  lemma {:induction false} WhileClosed(cfg: Config, s: Session, op: Op)
    requires s.state == Closed
    ensures var t := Entered(cfg, s, op);
            match op
            case Init(_, _) => t.state == Initializing && Goes(s, t, Failing(InitError))
            case BadEvent => t.state == Closed && Goes(s, t, Sending(InitError))
            case _ => t == s
  {
    hide Negotiate;
  }

  /** While an init is under way, media and unknown events are dropped, and a close closes. */
  lemma {:induction false} WhileInitializing(cfg: Config, s: Session, op: Op)
    requires s.state == Initializing
    ensures var t := Entered(cfg, s, op);
            match op
            case Init(_, _) => t.state == Initializing && Goes(s, t, Failing(InitError))
            case NoEvent => t.state == Initializing && Goes(s, t, Failing(InitError))
            case BadEvent => t.state == Closed && Goes(s, t, Sending(InitError))
            case Close => t.state == Closed && Goes(s, t, Sending(CloseFrame))
            case CloseReceived => t.state == Closed && Goes(s, t, Sending(CloseFrame))
            case _ => t == s
  {
    hide Negotiate;
  }

  // ---- Challenges -----------------------------------------------------------

  /** A challenge goes out exactly when none is outstanding, the interval has passed and the generator delivers. */
  lemma {:induction false} ChallengeExactly(cfg: Config, s: Session, now: nat, random: Option<Auth.Bytes>)
    requires s.state == Established && s.auth.lastIssued <= now
    ensures var t := HandleSendAuthRefresh(cfg, s, now, random);
            if && s.auth.pending.None? && random.Some?
               && (s.auth.lastIssued == 0 || now >= s.auth.lastIssued + cfg.auth.minInterval * Auth.SECOND) then
              && Goes(s, t, Sending(AuthRefresh)) && t.state == Established
              && t.auth.pending == Some(Auth.Challenge(random.value, now)) && t.auth.lastIssued == now
            else t == s
  {
    Auth.IssuesExactly(s.auth, now, cfg.auth.minInterval);
    hide Auth.MayIssue;
  }

  /**
   * An answer to a challenge: right and in time, it goes to the application's token check or, without
   * one, leaves the session as it was with the challenge spent; otherwise the call goes on to close.
   */
  lemma {:induction false} AnswerExactly(cfg: Config, s: Session, nonce: Option<string>, now: nat)
    requires s.state == Established
    requires s.auth.pending.Some? ==> |s.auth.pending.value.bytes| == Auth.NONCE_BYTES && s.auth.pending.value.at <= now
    ensures var t := HandleAuthResponse(cfg, s, nonce, now);
            && t.state == Established && t.auth.pending.None?
            && if && s.auth.pending.Some? && nonce.Some?
                  && now < s.auth.pending.value.at + cfg.auth.timeout * Auth.SECOND
                  && LowerAll(nonce.value) == Auth.Encode(s.auth.pending.value.bytes) then
                 if cfg.hasResponder then Goes(s, t, Responding) else t == s.(auth := s.auth.(pending := None))
               else Goes(s, t, Failing(CloseFrame))
  {
    if nonce.Some? {
      Auth.AcceptedExactly(s.auth, nonce.value, now, cfg.auth.timeout);
    }
    hide Auth.Judge, Auth.Encode, LowerAll;
  }

  /** A refused token closes and says so, unless the session is closed already; an accepted one changes nothing. */
  lemma {:induction false} TokenExactly(cfg: Config, s: Session, c: nat, ok: bool, draw: Draw)
    requires c in s.calls && s.calls[c] == Responding
    ensures var t := Resumed(cfg, s, c, ok, draw);
            if ok || s.state == Closed then t == s.(calls := s.calls - {c})
            else t.state == Closed && t.auth.pending.None? && t.calls == s.calls[c := Sending(CloseFrame)]
  {
    hide Negotiate;
  }

  /** Sending calls put their frame on the wire and leave; those bound to close take one more region to do it. */
  lemma {:induction false} SentExactly(cfg: Config, s: Session, c: nat, ok: bool, draw: Draw)
    requires c in s.calls && !s.calls[c].Validating? && s.calls[c] != Responding
    ensures var t := Resumed(cfg, s, c, ok, draw);
            match s.calls[c]
            case Sending(frame) => t == s.(wire := s.wire + [frame], calls := s.calls - {c})
            case Failing(frame) => t == s.(wire := s.wire + [frame], calls := s.calls[c := Relocking])
            case Relocking => t.state == Closed && t.auth.pending.None? && t.wire == s.wire && t.calls == s.calls - {c}
            case _ => true
  {
    hide Negotiate;
  }
}
