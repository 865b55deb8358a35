/** What single steps of the TypeScript sessions do, in terms of frames, counts and the clock alone. */
module TwoPartyLaws {
  import opened Text
  import opened TsStreams
  import opened TwoParty
  import opened TwoPartyFlow

  // ---- What offsets count ---------------------------------------------------

  /** The payload bytes, and the number, of the media frames of one stream. */
  function BytesOf(frames: seq<Frame>, id: string): nat {
    if frames == [] then 0
    else
      var f := frames[|frames| - 1];
      BytesOf(frames[..|frames| - 1], id) + if f.Media? && f.id == id then f.bytes else 0
  }

  function CountOf(frames: seq<Frame>, id: string): nat {
    if frames == [] then 0
    else
      var f := frames[|frames| - 1];
      CountOf(frames[..|frames| - 1], id) + if f.Media? && f.id == id then 1 else 0
  }

  /** Offsets of a byte stream count bytes, and of a message stream frames. */
  lemma {:induction false} MovedCounts(env: Env, streams: Catalog, frames: seq<Frame>, id: string)
    requires id in streams
    ensures streams[id].decl.offsetType == Byte ==> Moved(env, streams, frames, id) == BytesOf(frames, id)
    ensures streams[id].decl.offsetType == Message ==> Moved(env, streams, frames, id) == CountOf(frames, id)
  {
    if frames != [] {
      MovedCounts(env, streams, frames[..|frames| - 1], id);
    }
  }

  /** Offsets of a time stream count steps of samples, if every frame holds whole ones. */
  lemma {:induction false} MovedSamples(env: Env, streams: Catalog, frames: seq<Frame>, id: string, step: nat)
    requires id in streams && streams[id].decl.offsetType == Time
    requires env.step(streams[id].decl.contentType) == Some(step) && step > 0
    requires forall i | 0 <= i < |frames| && frames[i].Media? && frames[i].id == id :: frames[i].bytes % step == 0
    ensures step * Moved(env, streams, frames, id) == BytesOf(frames, id)
  {
    if frames != [] {
      var init, f := frames[..|frames| - 1], frames[|frames| - 1];
      assert forall i | 0 <= i < |init| :: init[i] == frames[i];
      MovedSamples(env, streams, init, id, step);
      if f.Media? && f.id == id {
        SampleStep(step, f.bytes, Moved(env, streams, init, id), Width(env, streams, f));
      }
    }
  }

  lemma {:induction false} SampleStep(step: nat, bytes: nat, moved: nat, width: nat)
    requires step > 0 && bytes % step == 0 && width == bytes / step
    ensures step * (moved + width) == step * moved + bytes
  {
    assert step * width == bytes;
  }

  /** An unaligned payload of a time stream, or one of a type without a sample size, has no offset to take. */
  lemma {:induction false} Countable(env: Env, d: Declaration, bytes: nat)
    ensures Increment(env, d, bytes).Some? <==>
              match d.offsetType
              case Byte => true
              case Message => true
              case Time => exists step: nat :: env.step(d.contentType) == Some(step) && step > 0 && bytes % step == 0
              case OtherOffset(_) => false
  {
    if d.offsetType == Time && Increment(env, d, bytes).Some? {
      var step := env.step(d.contentType).value;
      assert step > 0 && bytes % step == 0;
    }
  }

  // ---- Sending and receiving media ------------------------------------------

  /** The direction lets this side send: input for the client, output for the server, duplex for both. */
  predicate MaySendOn(role: Role, d: Direction) {
    match role
    case Client => d == Input || d == Duplex
    case Server => d == Output || d == Duplex
  }

  /** A media frame goes out exactly on a confirmed stream this side may send on, with a payload that counts. */
  lemma {:induction false} SendsExactly(env: Env, cfg: Config, w: World, role: Role, id: string, bytes: nat)
    requires var r := Get(w, role).registry; r.streams.Keys == r.tracker.Keys
    ensures var p := Get(w, role);
            var v := Step(env, cfg, w, SendMedia(role, id, bytes));
            if && p.state == Established && id in p.registry.streams
               && MaySendOn(role, p.registry.streams[id].decl.direction)
               && Increment(env, p.registry.streams[id].decl, bytes).Some? then
              Inbox(v, Other(role)) == Inbox(w, Other(role))
                + [Media(id, p.registry.tracker[id].next, p.registry.streams[id].decl.contentType, bytes)]
            else Inbox(v, Other(role)) == Inbox(w, Other(role))
  {
    hide Increment, Allocated;
  }

  /**
   * A media frame is accepted exactly on a confirmed stream the peer may send on, of its content type,
   * with a payload that counts, at the offset expected.
   */
  lemma {:induction false} AcceptsExactly(env: Env, r: Registry, role: Role, f: Frame)
    requires f.Media? && r.streams.Keys == r.tracker.Keys
    ensures Accepted(env, r, role, f.id, f.offset, f.contentType, f.bytes).Some? <==>
              && f.id in r.streams
              && MaySendOn(Other(role), r.streams[f.id].decl.direction)
              && env.normalize(f.contentType) == env.normalize(r.streams[f.id].decl.contentType)
              && Increment(env, r.streams[f.id].decl, f.bytes).Some?
              && f.offset == r.tracker[f.id].expected
  {
    hide Increment;
  }

  // ---- Inits and acknowledgements -------------------------------------------

  /**
   * The server agrees exactly to an authorized init with valid declarations and a supported version
   * that, if it names a session, names the stored one within its window; and, whenever there is a
   * stored one, whose declarations can be assigned to its streams.
   */
  lemma {:induction false} AgreedExactly(env: Env, cfg: Config, f: Frame, now: nat)
    requires f.Init?
    ensures Agreed(env, cfg, f, now).Some? <==>
              && f.authorized && Valid(env, f.declarations) && f.version in cfg.supported
              && (f.sessionId.Some? ==>
                    && cfg.snapshot.Some? && cfg.snapshot.value.sessionId == f.sessionId.value
                    && (cfg.disconnectedAt.Some? ==>
                          && cfg.snapshot.value.window > 0
                          && now <= cfg.disconnectedAt.value + cfg.snapshot.value.window))
              && (cfg.snapshot.Some? ==>
                    exists sources :: Pairing(f.declarations, cfg.snapshot.value.streams, sources))
  {
    hide Valid, Pairing, Confirmation;
    if cfg.snapshot.Some? && Valid(env, f.declarations) {
      ResumesExactly(env, f.declarations, cfg.snapshot.value.streams);
    }
    FreshAlways(env, f.declarations);
  }

  lemma {:induction false} FreshAlways(env: Env, ds: seq<Declaration>)
    ensures Confirmation(env, ds, None).Some?
  {
  }

  /** An uninitialized server answers an init with an acknowledgement or an error, and anything else by closing. */
  lemma {:induction false} ServerStarts(env: Env, cfg: Config, p: Party, f: Frame, now: nat)
    requires p.state == Uninitialized && !p.closeSent
    ensures var r := ServerReceive(env, cfg, p, f, false, now);
            if !f.Init? then r.party.state == Closed && r.out == [CloseFrame]
            else if Agreed(env, cfg, f, now).None? then
              r.party.state == Initializing && r.out == [InitError] && r.party.todo == p.todo + [ToClosed]
            else
              var ss := Agreed(env, cfg, f, now).value;
              if !Valid(env, Declarations(ss)) then r.party.state == Initializing && r.out == []
              else
                && r.party.state == Initializing && r.party.registry.order == ss
                && r.party.todo == p.todo + [ToEstablished]
                && r.out == [InitAck(if f.sessionId.Some? then f.sessionId.value else env.generate(0), ss)]
  {
    hide Agreed, Valid, EnterAll, ById;
  }

  /** A client is established exactly by an acknowledgement of as many valid streams as it planned. */
  lemma {:induction false} ClientStarts(env: Env, cfg: Config, p: Party, f: Frame)
    requires p.state == Initializing && !p.closeSent
    ensures var r := ClientReceive(env, cfg, p, f);
            && (r.party.state == Established <==>
                  f.InitAck? && |f.streams| == |cfg.planned| && Valid(env, Declarations(f.streams)))
            && (f.InitError? ==> r.party.state == Closed && r.out == [])
            && (!f.InitError? && !f.InitAck? ==> r.party.state == Closed && r.out == [CloseFrame])
            && (r.party.state == Established ==>
                  r.party.sessionId == Some(f.session) && r.party.registry.order == f.streams)
  {
    hide Valid, EnterAll, ById;
  }

  /** Either side, established: media is recorded or not, a close is answered once, a frame out of place closes. */
  lemma {:induction false} EstablishedReceives(env: Env, role: Role, p: Party, f: Frame)
    requires p.state == Established && !p.closeSent
    ensures var r := WhileEstablished(env, role, p, f);
            match f
            case Media(_, _, _, _) => r.party.state == Established && r.out == [] && r.party.todo == p.todo
            case CloseFrame =>
              r.party.state == Established && r.out == [CloseFrame] && r.party.todo == p.todo + [ToClosed]
            case Note(fatal) =>
              if fatal then r.party.state == Closed && r.out == [CloseFrame] else r == Reaction(p, [], false)
            case _ => r.party.state == Closed && r.out == [CloseFrame]
  {
    hide Accepted;
  }

  /** A server whose challenge timed out, or that still awaits its own init, closes on whatever arrives. */
  lemma {:induction false} ServerCloses(env: Env, cfg: Config, p: Party, f: Frame, late: bool, now: nat)
    requires p.state != Closed && (late || p.state == Initializing)
    ensures var r := ServerReceive(env, cfg, p, f, late, now);
            && r.party == p.(state := Closed, closeSent := true) && !r.taken
            && r.out == if p.closeSent then [] else [CloseFrame]
  {
    hide WhileEstablished, HandleInit;
  }
}
