/** The C# resume window: pruned checkpoints against the full frame log, and resumption. */
module ResumeWindow {
  import opened Text
  import opened Lists

  datatype Checkpoint = Checkpoint(offset: int, at: int)

  datatype Kind = Input | Output | Duplex

  datatype OffsetType = Time | Byte | Message

  /** A stream of a session; the stride is that of a PCM stream counted in time. */
  datatype Stream = Stream(
    id: string, kind: Kind, offsetType: OffsetType, contentType: string, purpose: Option<string>, stride: nat,
    current: int, confirmed: int, checkpoints: seq<Checkpoint>)

  /** What a payload adds to the offset; none where the length is not a multiple of the stride. */
  function Increment(s: Stream, bytes: nat): Option<nat> {
    match s.offsetType
    case Byte => Some(bytes)
    case Message => Some(1)
    case Time => if s.stride == 0 || bytes % s.stride != 0 then None else Some(bytes / s.stride)
  }

  /** RemoveAll of the checkpoints recorded before the cutoff. */
  function Kept(cs: seq<Checkpoint>, cutoff: int): seq<Checkpoint> {
    if cs == [] then []
    else Kept(cs[..|cs| - 1], cutoff) + if cs[|cs| - 1].at < cutoff then [] else [cs[|cs| - 1]]
  }

  /** A frame in either direction: recorded first, then the offset moves unless that throws. */
  function Framed(s: Stream, bytes: nat, now: int): Stream {
    s.(checkpoints := s.checkpoints + [Checkpoint(s.current, now)],
       current := s.current + if Increment(s, bytes).Some? then Increment(s, bytes).value else 0)
  }

  function Pruned(s: Stream, window: nat, now: int): Stream {
    s.(checkpoints := Kept(s.checkpoints, now - window))
  }

  function Earliest(s: Stream): int {
    if s.checkpoints == [] then s.current else s.checkpoints[0].offset
  }

  class StreamState {
    var value: Stream

    constructor (value: Stream)
      ensures this.value == value
    {
      this.value := value;
    }

    method RecordFrame(offset: int, now: int)
      modifies this
      ensures value == old(value).(checkpoints := old(value).checkpoints + [Checkpoint(offset, now)])
    {
      value := value.(checkpoints := value.checkpoints + [Checkpoint(offset, now)]);
    }

    method AdvanceOffset(bytes: nat) returns (ok: bool)
      modifies this
      ensures ok == Increment(old(value), bytes).Some?
      ensures value == if ok then old(value).(current := old(value).current + Increment(old(value), bytes).value)
                       else old(value)
    {
      match Increment(value, bytes)
      case None => return false;
      case Some(n) =>
        value := value.(current := value.current + n);
        return true;
    }

    /** The calls made for every frame sent, and for every frame received at the current offset. */
    method TakeFrame(bytes: nat, now: int) returns (ok: bool)
      modifies this
      ensures value == Framed(old(value), bytes, now) && ok == Increment(old(value), bytes).Some?
    {
      RecordFrame(value.current, now);
      ok := AdvanceOffset(bytes);
    }

    method GetEarliestAvailableOffset(window: nat, now: int) returns (r: int)
      modifies this
      ensures value == Pruned(old(value), window, now) && r == Earliest(value)
    {
      value := value.(checkpoints := Kept(value.checkpoints, now - window));
      r := if |value.checkpoints| == 0 then value.current else value.checkpoints[0].offset;
    }
  }

  // ---- Runs of one stream ---------------------------------------------------

  datatype Event = Frame(bytes: nat, now: int) | Query(window: nat, now: int)

  function Run(s: Stream, es: seq<Event>): Stream {
    if es == [] then s
    else
      var t := Run(s, es[..|es| - 1]);
      match es[|es| - 1]
      case Frame(bytes, now) => Framed(t, bytes, now)
      case Query(window, now) => Pruned(t, window, now)
  }

  /** Every frame ever, with the offset it started at: the offsets are the running sums. */
  function Log(s: Stream, es: seq<Event>): seq<Checkpoint> {
    if es == [] then []
    else
      var before := Log(s, es[..|es| - 1]);
      match es[|es| - 1]
      case Frame(_, now) => before + [Checkpoint(s.current + Advanced(s, es[..|es| - 1]), now)]
      case Query(_, _) => before
  }

  /** What the frames so far have added to the offset. */
  function Advanced(s: Stream, es: seq<Event>): nat {
    if es == [] then 0
    else
      Advanced(s, es[..|es| - 1])
      + match es[|es| - 1]
        case Frame(bytes, _) => (if Increment(s, bytes).Some? then Increment(s, bytes).value else 0)
        case Query(_, _) => 0
  }

  /** The largest cutoff any query has used. */
  function Cutoff(es: seq<Event>): Option<int> {
    if es == [] then None
    else
      var before := Cutoff(es[..|es| - 1]);
      match es[|es| - 1]
      case Frame(_, _) => before
      case Query(window, now) =>
        if before.Some? && before.value >= now - window then before else Some(now - window)
  }

  /** The payload bytes, and the number, of the frames of a run. */
  function TotalBytes(es: seq<Event>): nat {
    if es == [] then 0
    else TotalBytes(es[..|es| - 1]) + match es[|es| - 1] case Frame(bytes, _) => bytes case Query(_, _) => 0
  }

  function TotalFrames(es: seq<Event>): nat {
    if es == [] then 0 else TotalFrames(es[..|es| - 1]) + if es[|es| - 1].Frame? then 1 else 0
  }

  /** A byte stream moves by its bytes, a message stream by its frames, a time stream by its whole samples. */
  lemma {:induction false} AdvancedCounts(s: Stream, es: seq<Event>)
    ensures s.offsetType == Byte ==> Advanced(s, es) == TotalBytes(es)
    ensures s.offsetType == Message ==> Advanced(s, es) == TotalFrames(es)
    ensures s.offsetType == Time && s.stride > 0
            && (forall i | 0 <= i < |es| && es[i].Frame? :: es[i].bytes % s.stride == 0) ==>
              s.stride * Advanced(s, es) == TotalBytes(es)
  {
    if es != [] {
      var init := es[..|es| - 1];
      AdvancedCounts(s, init);
      assert forall i | 0 <= i < |init| :: init[i] == es[i];
      if es[|es| - 1].Frame? && s.stride > 0 {
        SampleStep(s.stride, es[|es| - 1].bytes, Advanced(s, init));
      }
    }
  }

  lemma {:induction false} SampleStep(stride: nat, bytes: nat, moved: nat)
    requires stride > 0
    ensures bytes % stride == 0 ==> stride * (moved + bytes / stride) == stride * moved + bytes
  {
    if bytes % stride == 0 {
      assert stride * (bytes / stride) == bytes;
    }
  }

  function Remaining(log: seq<Checkpoint>, cutoff: Option<int>): seq<Checkpoint> {
    match cutoff case None => log case Some(c) => Kept(log, c)
  }

  ghost predicate Monotone(es: seq<Event>) {
    forall i, j | 0 <= i < j < |es| :: es[i].now <= es[j].now
  }

  lemma {:induction false} KeptTwice(cs: seq<Checkpoint>, a: int, b: int)
    ensures Kept(Kept(cs, a), b) == Kept(cs, if a < b then b else a)
  {
    if cs != [] {
      var init, last := cs[..|cs| - 1], cs[|cs| - 1];
      KeptTwice(init, a, b);
      if last.at >= a {
        assert (Kept(init, a) + [last])[..|Kept(init, a)|] == Kept(init, a);
      } else {
        assert Kept(init, a) + [] == Kept(init, a);
      }
    }
  }

  /** On checkpoints in the order of their times, those kept are the ones from the cutoff on. */
  lemma {:induction false} KeptExactly(cs: seq<Checkpoint>, cutoff: int) returns (k: nat)
    requires forall i, j | 0 <= i < j < |cs| :: cs[i].at <= cs[j].at
    ensures k <= |cs| && Kept(cs, cutoff) == cs[k..]
    ensures forall i | 0 <= i < |cs| :: cs[i].at >= cutoff <==> i >= k
  {
    if cs == [] {
      k := 0;
    } else {
      var init, c := cs[..|cs| - 1], cs[|cs| - 1];
      assert cs == init + [c];
      var n := KeptExactly(init, cutoff);
      KeptNext(init, c, cutoff, n);
      k := if c.at < cutoff then |cs| else n;
    }
  }

  lemma {:induction false} KeptNext(init: seq<Checkpoint>, c: Checkpoint, cutoff: int, n: nat)
    requires n <= |init| && forall i | 0 <= i < |init| :: init[i].at <= c.at && (init[i].at >= cutoff <==> i >= n)
    ensures c.at < cutoff ==> init[n..] + [] == (init + [c])[|init| + 1..]
    ensures c.at >= cutoff ==> init[n..] + [c] == (init + [c])[n..]
    ensures c.at < cutoff ==> n == |init|
  {
    if n < |init| {
      assert init[n].at >= cutoff;
    }
  }

  lemma {:induction false} KeptSnoc(cs: seq<Checkpoint>, c: Checkpoint, cutoff: int)
    requires c.at >= cutoff
    ensures Kept(cs + [c], cutoff) == Kept(cs, cutoff) + [c]
  {
  }

  lemma {:induction false} CutoffBound(es: seq<Event>, now: int)
    requires forall i | 0 <= i < |es| :: es[i].now <= now
    ensures Cutoff(es).Some? ==> Cutoff(es).value <= now
  {
    if es != [] {
      CutoffBound(es[..|es| - 1], now);
    }
  }

  /** A run changes nothing but the offset and the checkpoints. */
  lemma {:induction false} RunOffset(s: Stream, es: seq<Event>)
    ensures Run(s, es) == s.(current := s.current + Advanced(s, es), checkpoints := Run(s, es).checkpoints)
  {
    if es != [] {
      RunOffset(s, es[..|es| - 1]);
    }
  }

  /**
   * Over every run with a clock that never goes back, the checkpoints are the full frame log cut at
   * the largest cutoff ever used, although each query prunes with its own window.
   */
  lemma {:induction false} CheckpointsAreLog(s: Stream, es: seq<Event>)
    requires s.checkpoints == [] && Monotone(es)
    ensures Run(s, es).checkpoints == Remaining(Log(s, es), Cutoff(es))
  {
    hide Kept, Increment;
    if es != [] {
      var init := es[..|es| - 1];
      assert Monotone(init);
      CheckpointsAreLog(s, init);
      match es[|es| - 1]
      case Frame(bytes, now) => FrameOnLog(s, es);
      case Query(window, now) =>
        if Cutoff(init).Some? {
          KeptTwice(Log(s, init), Cutoff(init).value, now - window);
        }
    }
  }

  lemma {:induction false} FrameOnLog(s: Stream, es: seq<Event>)
    requires es != [] && es[|es| - 1].Frame? && Monotone(es)
    requires var init := es[..|es| - 1]; Run(s, init).checkpoints == Remaining(Log(s, init), Cutoff(init))
    ensures Run(s, es).checkpoints == Remaining(Log(s, es), Cutoff(es))
  {
    hide Kept, Increment;
    var init, now := es[..|es| - 1], es[|es| - 1].now;
    CutoffBound(init, now);
    RunOffset(s, init);
    var c := Checkpoint(s.current + Advanced(s, init), now);
    assert Log(s, es) == Log(s, init) + [c] && Cutoff(es) == Cutoff(init);
    assert Run(s, es).checkpoints == Run(s, init).checkpoints + [c];
    hide Run, Log, Cutoff;
    if Cutoff(init).Some? {
      KeptSnoc(Log(s, init), c, Cutoff(init).value);
    }
  }

  /** Checkpoints in offset order, none negative, none past the current offset. */
  ghost predicate Sound(s: Stream) {
    && 0 <= s.current
    && (forall i | 0 <= i < |s.checkpoints| :: 0 <= s.checkpoints[i].offset <= s.current)
    && forall i, j | 0 <= i < j < |s.checkpoints| :: s.checkpoints[i].offset <= s.checkpoints[j].offset
  }

  /** `part` is `whole` with elements left out: its i-th is the at[i]-th there. */
  ghost predicate Picks(part: seq<Checkpoint>, whole: seq<Checkpoint>, at: seq<nat>) {
    && |at| == |part|
    && (forall i | 0 <= i < |at| :: at[i] < |whole| && part[i] == whole[at[i]])
    && forall i, j | 0 <= i < j < |at| :: at[i] < at[j]
  }

  lemma {:induction false} PicksMore(part: seq<Checkpoint>, whole: seq<Checkpoint>, at: seq<nat>, c: Checkpoint)
    requires Picks(part, whole, at)
    ensures Picks(part, whole + [c], at) && Picks(part + [c], whole + [c], at + [|whole|])
  {
  }

  lemma {:induction false} KeptFrom(cs: seq<Checkpoint>, cutoff: int) returns (at: seq<nat>)
    ensures Picks(Kept(cs, cutoff), cs, at)
  {
    if cs == [] {
      at := [];
    } else {
      var init, c := cs[..|cs| - 1], cs[|cs| - 1];
      at := KeptFrom(init, cutoff);
      PicksMore(Kept(init, cutoff), init, at, c);
      assert cs == init + [c];
      hide Picks;
      if c.at >= cutoff {
        at := at + [|init|];
      } else {
        assert Kept(init, cutoff) + [] == Kept(init, cutoff);
      }
    }
  }

  lemma {:induction false} PrunedSound(s: Stream, window: nat, now: int)
    requires Sound(s)
    ensures Sound(Pruned(s, window, now))
  {
    var at := KeptFrom(s.checkpoints, now - window);
    hide Kept;
  }

  lemma {:induction false} FramedSound(s: Stream, bytes: nat, now: int)
    requires Sound(s)
    ensures Sound(Framed(s, bytes, now))
  {
  }

  lemma {:induction false} RunSound(s: Stream, es: seq<Event>)
    requires Sound(s)
    ensures Sound(Run(s, es))
  {
    hide Framed, Pruned, Sound;
    if es != [] {
      var init := es[..|es| - 1];
      RunSound(s, init);
      match es[|es| - 1]
      case Frame(bytes, now) => FramedSound(Run(s, init), bytes, now);
      case Query(window, now) => PrunedSound(Run(s, init), window, now);
    }
  }

  // ---- Resumption -----------------------------------------------------------

  datatype Declaration = Declaration(
    kind: Kind, offsetType: OffsetType, contentType: string, purpose: Option<string>, idHint: Option<string>,
    resumeOffset: Option<int>)

  /** How content types compare, and which texts count as blank. */
  datatype Env = Env(same: (string, string) -> bool, blank: string -> bool)

  predicate Matches(env: Env, s: Stream, d: Declaration) {
    s.kind == d.kind && s.offsetType == d.offsetType && env.same(s.contentType, d.contentType) && s.purpose == d.purpose
  }

  predicate Eligible(env: Env, s: Stream, d: Declaration, matched: set<string>) {
    s.id !in matched && Matches(env, s, d)
  }

  /** The first eligible stream, from `i` on. */
  function FirstEligible(env: Env, ss: seq<Stream>, d: Declaration, matched: set<string>, i: nat): (r: Option<nat>)
    ensures r.Some? ==> r.value < |ss| && Eligible(env, ss[r.value], d, matched)
    ensures r.None? ==> forall j | i <= j < |ss| :: !Eligible(env, ss[j], d, matched)
    ensures r.Some? ==> forall j | i <= j < r.value :: !Eligible(env, ss[j], d, matched)
    decreases |ss| - i
  {
    if i >= |ss| then None
    else if Eligible(env, ss[i], d, matched) then Some(i)
    else FirstEligible(env, ss, d, matched, i + 1)
  }

  function Lookup(ss: seq<Stream>, id: string, i: nat): (r: Option<nat>)
    ensures r.Some? ==> r.value < |ss| && ss[r.value].id == id
    decreases |ss| - i
  {
    if i >= |ss| then None else if ss[i].id == id then Some(i) else Lookup(ss, id, i + 1)
  }

  /** FindExistingStream: the hinted stream if it is eligible, else the first that is. */
  function FindExisting(env: Env, ss: seq<Stream>, d: Declaration, matched: set<string>): (r: Option<nat>)
    ensures r.Some? ==> r.value < |ss| && Eligible(env, ss[r.value], d, matched)
    ensures r.None? ==> forall j | 0 <= j < |ss| :: !Eligible(env, ss[j], d, matched)
    ensures r.Some? && (d.idHint.None? || env.blank(d.idHint.value)) ==>
              forall j | 0 <= j < r.value :: !Eligible(env, ss[j], d, matched)
  {
    if d.idHint.Some? && !env.blank(d.idHint.value) then
      var hinted := Lookup(ss, d.idHint.value, 0);
      if hinted.Some? && Eligible(env, ss[hinted.value], d, matched) then hinted
      else FirstEligible(env, ss, d, matched, 0)
    else FirstEligible(env, ss, d, matched, 0)
  }

  /** A hint that names a stream which can be taken is followed. */
  lemma {:induction false} HintFollowed(env: Env, ss: seq<Stream>, d: Declaration, matched: set<string>, i: nat)
    requires forall j, k | 0 <= j < k < |ss| :: ss[j].id != ss[k].id
    requires i < |ss| && d.idHint == Some(ss[i].id) && !env.blank(ss[i].id) && Eligible(env, ss[i], d, matched)
    ensures FindExisting(env, ss, d, matched) == Some(i)
  {
    LookupFinds(ss, 0, i);
    hide Eligible, FirstEligible, Lookup;
  }

  lemma {:induction false} LookupFinds(ss: seq<Stream>, from: nat, i: nat)
    requires forall j, k | 0 <= j < k < |ss| :: ss[j].id != ss[k].id
    requires from <= i < |ss|
    ensures Lookup(ss, ss[i].id, from) == Some(i)
    decreases i - from
  {
    if from < i {
      LookupFinds(ss, from + 1, i);
    }
  }

  function Requested(s: Stream, d: Declaration): int {
    if d.resumeOffset.Some? then d.resumeOffset.value else s.current
  }

  function Max(a: int, b: int): int {
    if a < b then b else a
  }

  /** A stream after its resume was confirmed. */
  function Confirmed(s: Stream, d: Declaration, window: nat, now: int): Stream {
    var t := Pruned(s, window, now);
    t.(confirmed := Max(Requested(s, d), Earliest(t)))
  }

  /** The declaration is of this stream's kind, offset type and purpose, and of a content type that compares equal. */
  predicate Describes(env: Env, d: Declaration, s: Stream) {
    && d.kind == s.kind && d.offsetType == s.offsetType && d.purpose == s.purpose
    && env.same(s.contentType, d.contentType)
  }

  lemma {:induction false} MatchesDescribes(env: Env)
    ensures forall s, d :: Matches(env, s, d) <==> Describes(env, d, s)
  {
  }

  /** Declaration `k` resumed stream `at[k]`, no stream twice, and no other stream changed. */
  ghost predicate Resumed(env: Env, before: seq<Stream>, after: seq<Stream>, ds: seq<Declaration>, clock: seq<int>,
                          window: nat, at: seq<nat>) {
    && |after| == |before| && |at| <= |ds| <= |clock|
    && Distinct(at)
    && (forall k | 0 <= k < |at| ::
          && at[k] < |before| && Describes(env, ds[k], before[at[k]])
          && Requested(before[at[k]], ds[k]) <= before[at[k]].current
          && after[at[k]] == Confirmed(before[at[k]], ds[k], window, clock[k]))
    && forall j | 0 <= j < |before| :: (forall k | 0 <= k < |at| :: at[k] != j) ==> after[j] == before[j]
  }

  /** The first declaration after those resumed that cannot be. */
  ghost predicate Refused(env: Env, before: seq<Stream>, ds: seq<Declaration>, at: seq<nat>) {
    && |at| < |ds|
    && ((forall j | 0 <= j < |before| :: j in at || !Describes(env, ds[|at|], before[j]))
        || exists j | 0 <= j < |before| :: j !in at && Describes(env, ds[|at|], before[j])
                                           && Requested(before[j], ds[|at|]) > before[j].current)
  }

  /** The matching loop of ResumeSession on the streams of the stored session, in place. */
  method MatchStreams(env: Env, streams: array<Stream>, ds: seq<Declaration>, window: nat, clock: seq<int>)
    returns (ok: bool, ghost at: seq<nat>)
    requires |clock| == |ds|
    requires forall i, j | 0 <= i < j < streams.Length :: streams[i].id != streams[j].id
    modifies streams
    ensures Resumed(env, old(streams[..]), streams[..], ds, clock, window, at)
    ensures ok ==> |at| == |ds|
    ensures !ok ==> Refused(env, old(streams[..]), ds, at)
  {
    MatchesDescribes(env);
    hide Matches, Describes;
    at := [];
    ghost var before := streams[..];
    var matched: set<string> := {};
    for k := 0 to |ds|
      invariant |at| == k && Resumed(env, before, streams[..], ds, clock, window, at)
      invariant forall j | 0 <= j < |before| :: before[j].id in matched <==> j in at
    {
      ghost var now := streams[..];
      SameIdentity(env, before, now, ds, clock, window, at);
      var found := FindExisting(env, streams[..], ds[k], matched);
      if found.None? {
        return false, at;
      }
      var i := found.value;
      NotYet(env, before, now, ds, clock, window, at, i);
      if Requested(streams[i], ds[k]) > streams[i].current {
        assert i !in at && Describes(env, ds[|at|], before[i]);
        return false, at;
      }
      streams[i] := Confirmed(streams[i], ds[k], window, clock[k]);
      ResumeOne(env, before, now, ds, clock, window, at, i);
      assert streams[..] == now[i := Confirmed(before[i], ds[k], window, clock[k])];
      matched := matched + {streams[i].id};
      at := at + [i];
    }
    ok := true;
  }

  /** Declarations are valid if there are some, not too many, and those of one kind have purposes of their own. */
  predicate ValidDeclarations(env: Env, ds: seq<Declaration>, max: int) {
    && 0 < |ds| <= max
    && forall i, j | 0 <= i < j < |ds| && ds[i].kind == ds[j].kind ::
         Apart(env, ds[i], ds[j])
  }

  predicate Apart(env: Env, a: Declaration, b: Declaration) {
    Purposed(env, a) && Purposed(env, b) && a.purpose != b.purpose
  }

  predicate Purposed(env: Env, d: Declaration) {
    d.purpose.Some? && !env.blank(d.purpose.value)
  }

  /** The positions of the declarations of one kind, in order: one group of the GroupBy. */
  function GroupOf(ds: seq<Declaration>, kind: Kind): (r: seq<nat>)
    ensures forall k | 0 <= k < |r| :: r[k] < |ds| && ds[r[k]].kind == kind
    ensures forall k, l | 0 <= k < l < |r| :: r[k] < r[l]
    ensures forall i | 0 <= i < |ds| && ds[i].kind == kind :: i in r
  {
    if ds == [] then []
    else
      var n := |ds| - 1;
      GroupOf(ds[..n], kind) + if ds[n].kind == kind then [n] else []
  }

  /** Any two declarations of the group keep apart. */
  predicate Fine(env: Env, group: seq<Declaration>) {
    forall k, l | 0 <= k < l < |group| :: Apart(env, group[k], group[l])
  }

  /** Some declaration before the `n`-th has this purpose. */
  predicate Before(group: seq<Declaration>, n: nat, purpose: string) {
    exists k | 0 <= k < n && k < |group| :: group[k].purpose == Some(purpose)
  }

  /** The loop over one group, with the set of purposes seen. */
  method CheckGroup(env: Env, group: seq<Declaration>) returns (ok: bool)
    ensures ok <==> Fine(env, group)
  {
    if |group| < 2 {
      return true;
    }
    var seen: set<string> := {};
    for n := 0 to |group|
      invariant Fine(env, group[..n]) && forall k | 0 <= k < n :: Purposed(env, group[k])
      invariant forall p :: p in seen <==> Before(group, n, p)
    {
      var d := group[n];
      if d.purpose.None? || env.blank(d.purpose.value) {
        assert !Apart(env, group[0], group[if n == 0 then 1 else n]);
        return false;
      }
      if d.purpose.value in seen {
        var k :| 0 <= k < n && group[k].purpose == d.purpose;
        assert !Apart(env, group[k], group[n]);
        return false;
      }
      seen := seen + {d.purpose.value};
      OneMore(env, group, n);
    }
    assert group[..|group|] == group;
    ok := true;
  }

  lemma {:induction false} OneMore(env: Env, group: seq<Declaration>, n: nat)
    requires n < |group| && Purposed(env, group[n])
    ensures forall p :: Before(group, n + 1, p) <==> Before(group, n, p) || p == group[n].purpose.value
    ensures (&& Fine(env, group[..n])
             && (forall k | 0 <= k < n :: Purposed(env, group[k]))
             && !Before(group, n, group[n].purpose.value)) ==> Fine(env, group[..n + 1])
  {
    forall p
      ensures Before(group, n + 1, p) <==> Before(group, n, p) || p == group[n].purpose.value
    {
      if p == group[n].purpose.value {
        assert group[n].purpose == Some(p);
      }
    }
    assert forall k | 0 <= k < n :: group[..n + 1][k] == group[..n][k];
  }

  /** A group is fine exactly when the declarations of its kind keep apart. */
  lemma {:induction false} GroupDecides(env: Env, ds: seq<Declaration>, kind: Kind)
    ensures Fine(env, Group(ds, kind)) <==>
              forall i, j | 0 <= i < j < |ds| && ds[i].kind == ds[j].kind == kind :: Apart(env, ds[i], ds[j])
  {
    hide Apart;
    var at, group := GroupOf(ds, kind), Group(ds, kind);
    if Fine(env, group) {
      forall i, j | 0 <= i < j < |ds| && ds[i].kind == ds[j].kind == kind
        ensures Apart(env, ds[i], ds[j])
      {
        var k :| 0 <= k < |at| && at[k] == i;
        var l :| 0 <= l < |at| && at[l] == j;
        assert k < l;
        assert Apart(env, group[k], group[l]);
      }
    }
  }

  function Group(ds: seq<Declaration>, kind: Kind): (r: seq<Declaration>) {
    var at := GroupOf(ds, kind);
    seq(|at|, k requires 0 <= k < |at| => ds[at[k]])
  }

  /** ValidateStreamDeclarations: the counts, then every group. */
  method ValidateStreamDeclarations(env: Env, ds: seq<Declaration>, max: int) returns (ok: bool)
    ensures ok <==> ValidDeclarations(env, ds, max)
  {
    hide Apart, Fine, Group;
    if |ds| == 0 || |ds| > max {
      return false;
    }
    var kinds := [Input, Output, Duplex];
    for n := 0 to |kinds|
      invariant forall i, j | 0 <= i < j < |ds| && ds[i].kind == ds[j].kind && ds[i].kind in kinds[..n] ::
                  Apart(env, ds[i], ds[j])
    {
      ok := CheckGroup(env, Group(ds, kinds[n]));
      GroupDecides(env, ds, kinds[n]);
      if !ok {
        return;
      }
    }
    assert kinds[0] == Input && kinds[1] == Output && kinds[2] == Duplex && kinds[..3] == kinds;
    ok := true;
  }

  class StoredSession {
    const streams: array<Stream>
    var window: nat
    var disconnectedAt: Option<int>

    constructor (streams: array<Stream>, window: nat)
      ensures this.streams == streams && this.window == window && disconnectedAt == None
    {
      this.streams, this.window, disconnectedAt := streams, window, None;
    }

    predicate Gone(now: int)
      reads this
    {
      disconnectedAt.Some? && now - disconnectedAt.value > window
    }

    /** Gone from the first instant after the window, and never while connected. */
    lemma {:induction false} GoneExactly(now: int)
      ensures disconnectedAt.None? ==> !Gone(now)
      ensures disconnectedAt.Some? ==> (Gone(now) <==> now > disconnectedAt.value + window)
    {
    }
  }

  datatype Outcome = Continued | InvalidStreams | InvalidSession

  class SessionTable {
    var sessions: map<string, StoredSession>

    constructor ()
      ensures sessions == map[]
    {
      sessions := map[];
    }

    /**
     * ResumeSession: invalid declarations are refused first, then an unknown session, then one
     * disconnected for longer than its window, which is removed; only then are streams matched, and
     * only a full match renews the window and clears the disconnection. Streams confirmed before a
     * refusal stay confirmed.
     */
    method ResumeSession(env: Env, id: string, ds: seq<Declaration>, max: int, window: nat, now: int, clock: seq<int>)
      returns (r: Outcome, ghost at: seq<nat>)
      requires |clock| == |ds|
      requires id in sessions ==>
                 forall i, j | 0 <= i < j < sessions[id].streams.Length ::
                   sessions[id].streams[i].id != sessions[id].streams[j].id
      modifies this, if id in sessions then {sessions[id]} else {}
      modifies if id in sessions then {sessions[id].streams} else {}
      ensures !ValidDeclarations(env, ds, max) ==> r == InvalidStreams
      ensures ValidDeclarations(env, ds, max) && id !in old(sessions) ==> r == InvalidSession
      ensures ValidDeclarations(env, ds, max) && id in old(sessions) && old(sessions[id].Gone(now)) ==>
                r == InvalidSession && sessions == old(sessions) - {id}
      ensures ValidDeclarations(env, ds, max) && id in old(sessions) ==>
                (r == InvalidSession <==>
                   && old(sessions[id].disconnectedAt).Some?
                   && now > old(sessions[id].disconnectedAt).value + old(sessions[id].window))
      ensures r != InvalidSession ==> sessions == old(sessions)
      ensures id in old(sessions) && (!ValidDeclarations(env, ds, max) || old(sessions[id].Gone(now))) ==>
                unchanged(old(sessions[id])) && unchanged(old(sessions[id].streams))
      ensures ValidDeclarations(env, ds, max) && id in old(sessions) && !old(sessions[id].Gone(now)) ==>
                var s := old(sessions[id]);
                && r != InvalidSession
                && Resumed(env, old(sessions[id].streams[..]), s.streams[..], ds, clock, window, at)
                && (r == Continued ==> |at| == |ds| && s.window == window && s.disconnectedAt == None)
                && (r == InvalidStreams ==> unchanged(s) && Refused(env, old(sessions[id].streams[..]), ds, at))
    {
      at := [];
      var valid := ValidateStreamDeclarations(env, ds, max);
      if !valid {
        return InvalidStreams, at;
      }
      if id !in sessions {
        return InvalidSession, at;
      }
      var session := sessions[id];
      if session.Gone(now) {
        sessions := sessions - {id};
        return InvalidSession, at;
      }
      hide Resumed, Refused, ValidDeclarations;
      var ok;
      ok, at := MatchStreams(env, session.streams, ds, window, clock);
      if !ok {
        return InvalidStreams, at;
      }
      session.window := window;
      session.disconnectedAt := None;
      r := Continued;
    }
  }

  /** Confirming changes neither id nor what a declaration is matched on. */
  lemma {:induction false} SameIdentity(env: Env, before: seq<Stream>, after: seq<Stream>, ds: seq<Declaration>,
                                        clock: seq<int>, window: nat, at: seq<nat>)
    requires Resumed(env, before, after, ds, clock, window, at)
    ensures forall j, d | 0 <= j < |before| ::
              after[j].id == before[j].id && (Matches(env, after[j], d) <==> Matches(env, before[j], d))
  {
  }

  lemma {:induction false} NotYet(env: Env, before: seq<Stream>, after: seq<Stream>, ds: seq<Declaration>,
                                  clock: seq<int>, window: nat, at: seq<nat>, i: nat)
    requires Resumed(env, before, after, ds, clock, window, at) && i < |before| && i !in at
    ensures after[i] == before[i]
  {
  }

  lemma {:induction false} ResumeOne(env: Env, before: seq<Stream>, after: seq<Stream>, ds: seq<Declaration>,
                                     clock: seq<int>, window: nat,
                  at: seq<nat>, i: nat)
    requires Resumed(env, before, after, ds, clock, window, at) && |at| < |ds| && i < |before| && i !in at
    requires Describes(env, ds[|at|], before[i]) && Requested(before[i], ds[|at|]) <= before[i].current
    ensures var updated := after[i := Confirmed(before[i], ds[|at|], window, clock[|at|])];
            Resumed(env, before, updated, ds, clock, window, at + [i])
  {
  }

  /** Every confirmed offset lies in the window: 0 <= earliest <= confirmed <= current. */
  lemma {:induction false} ConfirmedInWindow(s: Stream, d: Declaration, window: nat, now: int)
    requires Sound(s) && Requested(s, d) <= s.current
    ensures var t := Confirmed(s, d, window, now);
            && Sound(t)
            && 0 <= Earliest(t) <= t.confirmed <= t.current == s.current
            && t.confirmed == Max(Requested(s, d), Earliest(t))
            && (Earliest(t) <= Requested(s, d) ==> t.confirmed == Requested(s, d))
  {
    PrunedSound(s, window, now);
    hide Kept;
  }

  /**
   * A stream that lived through any run and is then resumed is confirmed at its request, or at the
   * oldest frame of its log that no cutoff has passed, or at the current offset if none is left.
   */
  lemma {:induction false} ResumeFromLog(s: Stream, es: seq<Event>, d: Declaration, window: nat, now: int)
    requires s.checkpoints == [] && 0 <= s.current && Monotone(es + [Query(window, now)])
    requires d.resumeOffset.Some? ==> d.resumeOffset.value <= Run(s, es).current
    ensures var t := Confirmed(Run(s, es), d, window, now);
            var left := Remaining(Log(s, es), Cutoff(es + [Query(window, now)]));
            var oldest := if left == [] then t.current else left[0].offset;
            && t.current == s.current + Advanced(s, es)
            && t.confirmed == (if d.resumeOffset.None? then t.current
                               else if d.resumeOffset.value < oldest then oldest else d.resumeOffset.value)
            && 0 <= t.confirmed <= t.current
  {
    var all := es + [Query(window, now)];
    assert all[..|es|] == es;
    CheckpointsAreLog(s, all);
    RunSound(s, es);
    RunOffset(s, es);
    ConfirmedInWindow(Run(s, es), d, window, now);
    assert Run(s, all) == Pruned(Run(s, es), window, now);
    assert Log(s, all) == Log(s, es);
    hide Run, Log, Cutoff, Kept, Advanced;
  }
}
