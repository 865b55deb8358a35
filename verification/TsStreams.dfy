/** Stream declarations, offset tracking and resumption matching of the TypeScript sessions. */
module TsStreams {
  import opened Text
  import opened Lists

  /** Host string and number routines, known only to be functions of their arguments. */
  datatype Env = Env(
    normalize: string -> string,    // trim and lower-case a content type
    blank: string -> bool,          // empty after trimming
    step: string -> Option<nat>,    // bytes per PCM sample step, none if the type has none
    generate: nat -> string)        // the id generator, by call number

  datatype Direction = Input | Output | Duplex | OtherDirection(text: string)

  datatype OffsetType = Time | Byte | Message | OtherOffset(text: string)

  datatype Declaration = Declaration(
    direction: Direction, contentType: string, offsetType: OffsetType, purpose: Option<string>,
    resumeOffset: Option<nat>)

  /** A confirmed stream, and a stream of a snapshot. */
  datatype Stream = Stream(id: string, decl: Declaration)

  datatype Role = Client | Server

  const MAX_STREAMS := 16

  predicate WellFormed(env: Env, d: Declaration) {
    !env.blank(d.contentType) && !d.direction.OtherDirection? && !d.offsetType.OtherOffset?
  }

  predicate Purposed(env: Env, d: Declaration) {
    d.purpose.Some? && !env.blank(d.purpose.value)
  }

  /** What validateStreamDeclarations lets through. */
  ghost predicate Valid(env: Env, ds: seq<Declaration>) {
    && 0 < |ds| <= 16
    && (forall i | 0 <= i < |ds| ::
          && !env.blank(ds[i].contentType) && ds[i].direction in {Input, Output, Duplex}
          && ds[i].offsetType in {Time, Byte, Message})
    && forall i, j | 0 <= i < j < |ds| && ds[i].direction == ds[j].direction ::
         && ds[i].purpose.Some? && !env.blank(ds[i].purpose.value)
         && ds[j].purpose.Some? && !env.blank(ds[j].purpose.value) && ds[i].purpose != ds[j].purpose
  }

  /** One group of the validation: fewer than two streams, or all with purposes of their own. */
  ghost predicate Fine(env: Env, group: seq<Declaration>) {
    |group| < 2 || forall i, j | 0 <= i < j < |group| :: Apart(env, group[i], group[j])
  }

  predicate Apart(env: Env, a: Declaration, b: Declaration) {
    Purposed(env, a) && Purposed(env, b) && a.purpose != b.purpose
  }

  /** `group` lists the declarations of one direction among the first `n`, at the places `at`. */
  ghost predicate Grouped(ds: seq<Declaration>, n: nat, dir: Direction, group: seq<Declaration>, at: seq<int>) {
    && n <= |ds| && |at| == |group|
    && (forall k | 0 <= k < |at| :: 0 <= at[k] < n && ds[at[k]] == group[k] && group[k].direction == dir)
    && (forall k, l | 0 <= k < l < |at| :: at[k] < at[l])
    && forall i | 0 <= i < n && ds[i].direction == dir :: i in at
  }

  lemma {:induction false} GroupedNext(ds: seq<Declaration>, n: nat, dir: Direction, group: seq<Declaration>,
                                       at: seq<int>)
    requires n < |ds| && Grouped(ds, n, dir, group, at)
    ensures ds[n].direction == dir ==> Grouped(ds, n + 1, dir, group + [ds[n]], at + [n])
    ensures ds[n].direction != dir ==> Grouped(ds, n + 1, dir, group, at)
  {
    if ds[n].direction == dir {
      forall i | 0 <= i < n + 1 && ds[i].direction == dir
        ensures i in at + [n]
      {
        assert i < n ==> i in at;
      }
    }
  }

  /** A group is fine exactly when the declarations of its direction are pairwise apart. */
  lemma {:induction false} FineExactly(env: Env, ds: seq<Declaration>, dir: Direction, group: seq<Declaration>,
                                       at: seq<int>)
    requires Grouped(ds, |ds|, dir, group, at)
    ensures Fine(env, group) <==>
              forall i, j | 0 <= i < j < |ds| && ds[i].direction == ds[j].direction == dir :: Apart(env, ds[i], ds[j])
  {
    hide Apart;
    if Fine(env, group) {
      forall i, j | 0 <= i < j < |ds| && ds[i].direction == ds[j].direction == dir
        ensures Apart(env, ds[i], ds[j])
      {
        assert i in at && j in at;
        var k :| 0 <= k < |at| && at[k] == i;
        var l :| 0 <= l < |at| && at[l] == j;
        assert k < l;
        assert Apart(env, group[k], group[l]);
      }
    }
    if forall i, j | 0 <= i < j < |ds| && ds[i].direction == ds[j].direction == dir :: Apart(env, ds[i], ds[j]) {
      forall k, l | 0 <= k < l < |group|
        ensures Apart(env, group[k], group[l])
      {
        assert Apart(env, ds[at[k]], ds[at[l]]);
      }
    }
  }

  /** The loop over one group, with the set of purposes seen. */
  method CheckGroup(env: Env, group: seq<Declaration>) returns (ok: bool)
    ensures ok <==> Fine(env, group)
  {
    if |group| < 2 {
      return true;
    }
    var seen: set<string> := {};
    for i := 0 to |group|
      invariant forall k | 0 <= k < i :: Purposed(env, group[k]) && group[k].purpose.value in seen
      invariant forall p | p in seen :: exists k | 0 <= k < i :: group[k].purpose == Some(p)
      invariant forall k, l | 0 <= k < l < i :: group[k].purpose != group[l].purpose
    {
      if !Purposed(env, group[i]) {
        assert !Apart(env, group[0], group[if i == 0 then 1 else i]);
        return false;
      }
      if group[i].purpose.value in seen {
        var k :| 0 <= k < i && group[k].purpose == Some(group[i].purpose.value);
        assert !Apart(env, group[k], group[i]);
        return false;
      }
      seen := seen + {group[i].purpose.value};
      forall p | p in seen
        ensures exists k | 0 <= k < i + 1 :: group[k].purpose == Some(p)
      {
        if p == group[i].purpose.value {
          assert group[i].purpose == Some(p);
        } else {
          var k :| 0 <= k < i && group[k].purpose == Some(p);
          assert group[k].purpose == Some(p);
        }
      }
    }
    return true;
  }

  type Groups = map<Direction, seq<Declaration>>

  type Places = map<Direction, seq<int>>

  function GroupOf<T>(m: map<Direction, seq<T>>, dir: Direction): seq<T> {
    if dir in m then m[dir] else []
  }

  /** An item joins the group of its direction. */
  function Added<T>(m: map<Direction, seq<T>>, dir: Direction, x: T): map<Direction, seq<T>> {
    m[dir := GroupOf(m, dir) + [x]]
  }

  /** Every group holds the declarations of its own direction among the first `n`. */
  ghost predicate AllGrouped(ds: seq<Declaration>, n: nat, groups: Groups, at: Places) {
    n <= |ds| && forall dir :: Grouped(ds, n, dir, GroupOf(groups, dir), GroupOf(at, dir))
  }

  lemma {:induction false} NoneGrouped(ds: seq<Declaration>)
    ensures AllGrouped(ds, 0, map[], map[])
  {
  }

  lemma {:induction false} AllGroupedNext(ds: seq<Declaration>, n: nat, groups: Groups, at: Places)
    requires n < |ds| && AllGrouped(ds, n, groups, at)
    ensures AllGrouped(ds, n + 1, Added(groups, ds[n].direction, ds[n]), Added(at, ds[n].direction, n))
  {
    hide Grouped;
    var groups', at' := Added(groups, ds[n].direction, ds[n]), Added(at, ds[n].direction, n);
    forall dir
      ensures Grouped(ds, n + 1, dir, GroupOf(groups', dir), GroupOf(at', dir))
    {
      GroupedNext(ds, n, dir, GroupOf(groups, dir), GroupOf(at, dir));
    }
  }

  lemma {:induction false} GroupsDecide(env: Env, ds: seq<Declaration>, groups: Groups, at: Places)
    requires AllGrouped(ds, |ds|, groups, at)
    ensures (forall dir | dir in groups :: Fine(env, groups[dir])) <==>
              forall i, j | 0 <= i < j < |ds| && ds[i].direction == ds[j].direction :: Apart(env, ds[i], ds[j])
  {
    forall dir
      ensures Fine(env, GroupOf(groups, dir)) <==>
                forall i, j | 0 <= i < j < |ds| && ds[i].direction == ds[j].direction == dir :: Apart(env, ds[i], ds[j])
    {
      FineExactly(env, ds, dir, GroupOf(groups, dir), GroupOf(at, dir));
    }
    assert Fine(env, []);
    hide Fine, Grouped, Apart;
    if forall dir | dir in groups :: Fine(env, groups[dir]) {
      forall i, j | 0 <= i < j < |ds| && ds[i].direction == ds[j].direction
        ensures Apart(env, ds[i], ds[j])
      {
        assert Fine(env, GroupOf(groups, ds[i].direction));
      }
    } else {
      var dir :| dir in groups && !Fine(env, groups[dir]);
      assert !Fine(env, GroupOf(groups, dir));
    }
  }

  method GroupByDirection(env: Env, ds: seq<Declaration>) returns (ok: bool, groups: Groups, ghost at: Places)
    ensures ok <==> forall i | 0 <= i < |ds| :: WellFormed(env, ds[i])
    ensures ok ==> AllGrouped(ds, |ds|, groups, at)
  {
    hide WellFormed, AllGrouped, Added;
    groups, at := map[], map[];
    NoneGrouped(ds);
    for i := 0 to |ds|
      invariant forall k | 0 <= k < i :: WellFormed(env, ds[k])
      invariant AllGrouped(ds, i, groups, at)
    {
      if !WellFormed(env, ds[i]) {
        return false, groups, at;
      }
      AllGroupedNext(ds, i, groups, at);
      at := Added(at, ds[i].direction, i);
      groups := Added(groups, ds[i].direction, ds[i]);
    }
    ok := true;
  }

  method CheckGroups(env: Env, groups: Groups) returns (ok: bool)
    ensures ok <==> forall dir | dir in groups :: Fine(env, groups[dir])
  {
    hide Fine;
    var left := groups.Keys;
    while left != {}
      invariant left <= groups.Keys
      invariant forall dir | dir in groups && dir !in left :: Fine(env, groups[dir])
    {
      var dir :| dir in left;
      ok := CheckGroup(env, groups[dir]);
      if !ok {
        return;
      }
      left := left - {dir};
    }
    return true;
  }

  /** validateStreamDeclarations: group by direction, then check the groups in any order. */
  method ValidateStreamDeclarations(env: Env, ds: seq<Declaration>) returns (ok: bool)
    ensures ok <==> Valid(env, ds)
  {
    hide WellFormed, AllGrouped, Apart, Fine, Valid;
    ValidExactly(env, ds);
    if |ds| == 0 || |ds| > MAX_STREAMS {
      return false;
    }
    var wellFormed, groups, at := GroupByDirection(env, ds);
    if !wellFormed {
      return false;
    }
    GroupsDecide(env, ds, groups, at);
    ok := CheckGroups(env, groups);
  }

  /** The condition in the terms of the loops. */
  lemma {:induction false} ValidExactly(env: Env, ds: seq<Declaration>)
    ensures Valid(env, ds) <==>
              && 0 < |ds| <= MAX_STREAMS
              && (forall i | 0 <= i < |ds| :: WellFormed(env, ds[i]))
              && forall i, j | 0 <= i < j < |ds| && ds[i].direction == ds[j].direction :: Apart(env, ds[i], ds[j])
  {
  }

  function Declarations(ss: seq<Stream>): (r: seq<Declaration>)
    ensures |r| == |ss| && forall i | 0 <= i < |ss| :: r[i] == ss[i].decl
  {
    seq(|ss|, i requires 0 <= i < |ss| => ss[i].decl)
  }

  function Ids(ss: seq<Stream>): (r: seq<string>)
    ensures |r| == |ss| && forall i | 0 <= i < |ss| :: r[i] == ss[i].id
  {
    seq(|ss|, i requires 0 <= i < |ss| => ss[i].id)
  }

  /** Same logical stream. */
  predicate Same(a: Declaration, b: Declaration) {
    a.direction == b.direction && a.contentType == b.contentType && a.offsetType == b.offsetType
    && a.purpose == b.purpose
  }

  /** The same logical streams in the same order. */
  predicate SamePlan(a: seq<Declaration>, b: seq<Declaration>) {
    |a| == |b| && forall i | 0 <= i < |a| :: Same(a[i], b[i])
  }

  lemma {:induction false} ValidSame(env: Env, a: seq<Declaration>, b: seq<Declaration>)
    requires Valid(env, a) && SamePlan(a, b)
    ensures Valid(env, b)
  {
  }

  // ---- Offsets --------------------------------------------------------------

  datatype Counters = Counters(next: nat, expected: nat, lastSent: Option<nat>, lastReceived: Option<nat>)

  type Tracker = map<string, Counters>

  /** computeOffsetIncrement; none where it throws. */
  function Increment(env: Env, d: Declaration, bytes: nat): Option<nat> {
    match d.offsetType
    case Byte => Some(bytes)
    case Message => Some(1)
    case Time =>
      (match env.step(d.contentType)
       case None => None
       case Some(step) => if step == 0 || bytes % step != 0 then None else Some(bytes / step))
    case OtherOffset(_) => None
  }

  function Registered(t: Tracker, id: string, initial: nat): Tracker {
    if id in t then t else t[id := Counters(initial, initial, None, None)]
  }

  function Seeded(t: Tracker, id: string, offset: nat): Tracker
    requires id in t
  {
    t[id := t[id].(lastReceived := Some(offset), expected := offset,
                   next := if t[id].next < offset then offset else t[id].next)]
  }

  /** allocate: the last sent offset moves even when the increment throws. */
  function Allocated(t: Tracker, id: string, increment: Option<nat>): Tracker
    requires id in t
  {
    t[id := t[id].(lastSent := Some(t[id].next),
                   next := t[id].next + if increment.Some? then increment.value else 0)]
  }

  function Received(t: Tracker, id: string, offset: nat, increment: nat): Option<Tracker> {
    if id !in t || offset != t[id].expected then None
    else Some(t[id := t[id].(lastReceived := Some(offset), expected := offset + increment)])
  }

  /** The first registration of a stream stands, and others are not touched. */
  lemma {:induction false} RegisterOnce(t: Tracker, id: string, a: nat, b: nat)
    ensures Registered(Registered(t, id, a), id, b) == Registered(t, id, a)
    ensures forall k | k in t :: k in Registered(t, id, a) && Registered(t, id, a)[k] == t[k]
    ensures id !in t ==> Registered(t, id, a)[id] == Counters(a, a, None, None)
  {
  }

  /** A seed sets what is expected, and moves what is sent next forward only. */
  lemma {:induction false} SeedForward(t: Tracker, id: string, offset: nat)
    requires id in t
    ensures var c := Seeded(t, id, offset)[id];
            && c.expected == offset && c.lastReceived == Some(offset) && c.lastSent == t[id].lastSent
            && c.next >= t[id].next && c.next >= offset && (c.next == t[id].next || c.next == offset)
  {
  }

  function OrZero(o: Option<nat>): nat {
    if o.Some? then o.value else 0
  }

  function ResumeOffset(c: Counters): nat {
    if OrZero(c.lastReceived) < OrZero(c.lastSent) then OrZero(c.lastSent) else OrZero(c.lastReceived)
  }

  /** The resume offset is the larger of the last offsets sent and received, and zero without either. */
  lemma {:induction false} ResumeOffsetExactly(c: Counters)
    ensures var r := ResumeOffset(c);
            && (c.lastSent.Some? ==> c.lastSent.value <= r) && (c.lastReceived.Some? ==> c.lastReceived.value <= r)
            && (r == 0 || c.lastSent == Some(r) || c.lastReceived == Some(r))
  {
  }

  class OffsetTracker {
    var states: Tracker

    constructor ()
      ensures states == map[]
    {
      states := map[];
    }

    method Register(id: string, initial: nat)
      modifies this
      ensures states == Registered(old(states), id, initial)
    {
      if id !in states {
        states := states[id := Counters(initial, initial, None, None)];
      }
    }

    method Allocate(env: Env, id: string, d: Declaration, bytes: nat) returns (offset: Option<nat>)
      modifies this
      ensures id !in old(states) ==> offset.None? && states == old(states)
      ensures id in old(states) ==> states == Allocated(old(states), id, Increment(env, d, bytes))
      ensures id in old(states) ==>
                offset == if Increment(env, d, bytes).Some? then Some(old(states)[id].next) else None
    {
      if id !in states {
        return None;
      }
      var at := states[id].next;
      states := states[id := states[id].(lastSent := Some(at))];
      var increment := Increment(env, d, bytes);
      if increment.None? {
        return None;
      }
      states := states[id := states[id].(next := at + increment.value)];
      return Some(at);
    }

    method RecordReceived(id: string, offset: nat, increment: nat) returns (ok: bool)
      modifies this
      ensures ok == Received(old(states), id, offset, increment).Some?
      ensures states == if ok then Received(old(states), id, offset, increment).value else old(states)
    {
      if id !in states || offset != states[id].expected {
        return false;
      }
      states := states[id := states[id].(lastReceived := Some(offset), expected := states[id].expected + increment)];
      return true;
    }

    method SeedResumeOffset(id: string, offset: nat) returns (ok: bool)
      modifies this
      ensures ok == (id in old(states))
      ensures states == if ok then Seeded(old(states), id, offset) else old(states)
    {
      if id !in states {
        return false;
      }
      var c := states[id].(lastReceived := Some(offset), expected := offset);
      if c.next < offset {
        c := c.(next := offset);
      }
      states := states[id := c];
      return true;
    }
  }

  // ---- Registry -------------------------------------------------------------

  /** One stream of an acknowledged list enters the tracker. */
  function Entry(t: Tracker, s: Stream): Tracker {
    var r := Registered(t, s.id, OrZero(s.decl.resumeOffset));
    if s.decl.resumeOffset.Some? then Seeded(r, s.id, s.decl.resumeOffset.value) else r
  }

  function EnterAll(t: Tracker, ss: seq<Stream>): Tracker {
    if ss == [] then t else Entry(EnterAll(t, ss[..|ss| - 1]), ss[|ss| - 1])
  }

  function ById(ss: seq<Stream>): map<string, Stream> {
    if ss == [] then map[] else ById(ss[..|ss| - 1])[ss[|ss| - 1].id := ss[|ss| - 1]]
  }

  datatype Registry = Registry(order: seq<Stream>, streams: map<string, Stream>, tracker: Tracker)

  const EMPTY := Registry([], map[], map[])

  ghost function Confirmed(env: Env, r: Registry, ss: seq<Stream>): Option<Registry> {
    if !Valid(env, Declarations(ss)) then None else Some(Registry(ss, ById(ss), EnterAll(r.tracker, ss)))
  }

  predicate AllowsSender(d: Direction, sender: Role) {
    d == Duplex || d == (if sender == Client then Input else Output)
  }

  function Other(role: Role): Role {
    if role == Client then Server else Client
  }

  predicate MaySend(r: Registry, role: Role, id: string) {
    id in r.streams && id in r.tracker && AllowsSender(r.streams[id].decl.direction, role)
  }

  function Sent(env: Env, r: Registry, id: string, bytes: nat): Registry
    requires id in r.streams && id in r.tracker
  {
    r.(tracker := Allocated(r.tracker, id, Increment(env, r.streams[id].decl, bytes)))
  }

  /** trackReceive; none where it throws, and then nothing has changed. */
  function Accepted(env: Env, r: Registry, role: Role, id: string, offset: nat, contentType: string, bytes: nat)
    : Option<Registry>
  {
    if id !in r.streams then None
    else
      var d := r.streams[id].decl;
      if !AllowsSender(d.direction, Other(role)) || env.normalize(contentType) != env.normalize(d.contentType)
         || Increment(env, d, bytes).None? then None
      else
        match Received(r.tracker, id, offset, Increment(env, d, bytes).value)
        case None => None
        case Some(t) => Some(r.(tracker := t))
  }

  class StreamRegistry {
    const role: Role
    const offsets: OffsetTracker
    var order: seq<Stream>
    var streams: map<string, Stream>

    constructor (role: Role)
      ensures this.role == role && fresh(offsets) && Value() == EMPTY
    {
      this.role := role;
      offsets := new OffsetTracker();
      order, streams := [], map[];
    }

    function Value(): Registry
      reads this, offsets
    {
      Registry(order, streams, offsets.states)
    }

    /** confirm: an invalid list throws before anything changes. */
    method Confirm(env: Env, ss: seq<Stream>) returns (ok: bool)
      modifies this, offsets
      ensures ok == Confirmed(env, old(Value()), ss).Some?
      ensures Value() == if ok then Confirmed(env, old(Value()), ss).value else old(Value())
    {
      ok := ValidateStreamDeclarations(env, Declarations(ss));
      if !ok {
        return;
      }
      hide Valid;
      order, streams := ss, map[];
      for i := 0 to |ss|
        invariant order == ss && streams == ById(ss[..i])
        invariant offsets.states == EnterAll(old(offsets.states), ss[..i])
      {
        assert ss[..i + 1][..i] == ss[..i];
        streams := streams[ss[i].id := ss[i]];
        offsets.Register(ss[i].id, OrZero(ss[i].decl.resumeOffset));
        if ss[i].decl.resumeOffset.Some? {
          var _ := offsets.SeedResumeOffset(ss[i].id, ss[i].decl.resumeOffset.value);
        }
      }
      assert ss[..|ss|] == ss;
    }

    method TrackSend(env: Env, id: string, bytes: nat) returns (offset: Option<nat>)
      modifies offsets
      ensures MaySend(old(Value()), role, id) ==>
                && Value() == Sent(env, old(Value()), id, bytes)
                && offset == if Increment(env, streams[id].decl, bytes).Some? then Some(old(offsets.states)[id].next)
                             else None
      ensures !MaySend(old(Value()), role, id) ==> offset.None? && Value() == old(Value())
    {
      if id !in streams || !AllowsSender(streams[id].decl.direction, role) {
        return None;
      }
      offset := offsets.Allocate(env, id, streams[id].decl, bytes);
    }

    method TrackReceive(env: Env, id: string, offset: nat, contentType: string, bytes: nat) returns (ok: bool)
      modifies offsets
      ensures ok == Accepted(env, old(Value()), role, id, offset, contentType, bytes).Some?
      ensures Value() == if ok then Accepted(env, old(Value()), role, id, offset, contentType, bytes).value
                         else old(Value())
    {
      if id !in streams {
        return false;
      }
      var d := streams[id].decl;
      if !AllowsSender(d.direction, Other(role)) || env.normalize(contentType) != env.normalize(d.contentType) {
        return false;
      }
      var increment := Increment(env, d, bytes);
      if increment.None? {
        return false;
      }
      ok := offsets.RecordReceived(id, offset, increment.value);
    }
  }

  /** The counters a stream starts with on both sides. */
  function Start(s: Stream): Counters {
    var at := OrZero(s.decl.resumeOffset);
    Counters(at, at, None, s.decl.resumeOffset)
  }

  /** Confirming distinct ids from nothing: every stream starts at its resume offset in both directions. */
  lemma {:induction false} FreshEntries(ss: seq<Stream>)
    requires Distinct(Ids(ss))
    ensures ById(ss).Keys == EnterAll(map[], ss).Keys
    ensures forall k | k in ById(ss) :: ById(ss)[k].id == k && EnterAll(map[], ss)[k] == Start(ById(ss)[k])
    ensures forall i | 0 <= i < |ss| :: ss[i].id in ById(ss)
    ensures forall k | k in ById(ss) :: exists i | 0 <= i < |ss| :: ss[i].id == k
  {
    if ss != [] {
      var init, s := ss[..|ss| - 1], ss[|ss| - 1];
      assert Distinct(Ids(init)) by { assert forall i | 0 <= i < |init| :: Ids(init)[i] == Ids(ss)[i]; }
      FreshEntries(init);
      assert s.id !in ById(init) by { assert Ids(ss)[|ss| - 1] == s.id; }
      LastEntry(ss);
    }
  }

  lemma {:induction false} LastEntry(ss: seq<Stream>)
    requires ss != []
    requires var init := ss[..|ss| - 1];
             && ss[|ss| - 1].id !in ById(init)
             && ById(init).Keys == EnterAll(map[], init).Keys
             && (forall k | k in ById(init) ::
                   ById(init)[k].id == k && EnterAll(map[], init)[k] == Start(ById(init)[k]))
             && (forall i | 0 <= i < |init| :: init[i].id in ById(init))
             && forall k | k in ById(init) :: exists i | 0 <= i < |init| :: init[i].id == k
    ensures ById(ss).Keys == EnterAll(map[], ss).Keys
    ensures forall k | k in ById(ss) :: ById(ss)[k].id == k && EnterAll(map[], ss)[k] == Start(ById(ss)[k])
    ensures forall i | 0 <= i < |ss| :: ss[i].id in ById(ss)
    ensures forall k | k in ById(ss) :: exists i | 0 <= i < |ss| :: ss[i].id == k
  {
  }

  // ---- Resumption -----------------------------------------------------------

  /** Index of the first stream that is logically `d`. */
  function Index(avail: seq<Stream>, d: Declaration): (r: Option<nat>)
    ensures r.Some? ==> r.value < |avail| && Same(avail[r.value].decl, d)
    ensures r.None? ==> forall i | 0 <= i < |avail| :: !Same(avail[i].decl, d)
  {
    if avail == [] then None
    else if Same(avail[0].decl, d) then Some(0)
    else match Index(avail[1..], d) case None => None case Some(i) => Some(i + 1)
  }

  function Without(s: seq<Stream>, i: nat): seq<Stream>
    requires i < |s|
  {
    s[..i] + s[i + 1..]
  }

  function Requested(d: Declaration, s: Stream): nat {
    if d.resumeOffset.Some? then d.resumeOffset.value else OrZero(s.decl.resumeOffset)
  }

  /** A request is logically this stream and asks for no more than it has. */
  predicate Fits(d: Declaration, s: Stream) {
    Same(s.decl, d) && Requested(d, s) <= OrZero(s.decl.resumeOffset)
  }

  function At(d: Declaration, s: Stream): Stream {
    s.(decl := s.decl.(resumeOffset := Some(Requested(d, s))))
  }

  /** Match each request with the first remaining stream and take that stream out. */
  function Match(ds: seq<Declaration>, avail: seq<Stream>): Option<seq<Stream>> {
    if ds == [] then Some([])
    else
      match Index(avail, ds[0])
      case None => None
      case Some(i) =>
        if !Fits(ds[0], avail[i]) then None
        else
          match Match(ds[1..], Without(avail, i))
          case None => None
          case Some(rest) => Some([At(ds[0], avail[i])] + rest)
  }

  function FreshStreams(env: Env, ds: seq<Declaration>): seq<Stream> {
    seq(|ds|, i requires 0 <= i < |ds| => Stream(env.generate(i + 1), ds[i].(resumeOffset := None)))
  }

  /** buildServerConfirmedStreams: the snapshot decides, if there is one. */
  function Confirmation(env: Env, ds: seq<Declaration>, snapshot: Option<seq<Stream>>): Option<seq<Stream>> {
    match snapshot
    case None => Some(FreshStreams(env, ds))
    case Some(avail) => if |ds| != |avail| then None else Match(ds, avail)
  }

  function Prefixed(done: seq<Stream>, rest: Option<seq<Stream>>): Option<seq<Stream>> {
    match rest case None => None case Some(r) => Some(done + r)
  }

  lemma {:induction false} MatchStep(ds: seq<Declaration>, n: nat, avail: seq<Stream>, done: seq<Stream>, i: nat)
    requires n < |ds| && Index(avail, ds[n]) == Some(i) && Fits(ds[n], avail[i])
    ensures Prefixed(done, Match(ds[n..], avail))
            == Prefixed(done + [At(ds[n], avail[i])], Match(ds[n + 1..], Without(avail, i)))
  {
    assert ds[n..][0] == ds[n] && ds[n..][1..] == ds[n + 1..];
    hide Index, Fits, At, Without;
    var rest := Match(ds[n + 1..], Without(avail, i));
    if rest.Some? {
      assert done + ([At(ds[n], avail[i])] + rest.value) == (done + [At(ds[n], avail[i])]) + rest.value;
    }
  }

  lemma {:induction false} MatchStops(ds: seq<Declaration>, n: nat, avail: seq<Stream>)
    requires n < |ds| && (Index(avail, ds[n]).None? || !Fits(ds[n], avail[Index(avail, ds[n]).value]))
    ensures Match(ds[n..], avail).None?
  {
  }

  /** The loop over requests, taking matched streams out of `remaining`; the last check never fails. */
  method BuildServerConfirmedStreams(env: Env, ds: seq<Declaration>, snapshot: Option<seq<Stream>>)
    returns (r: Option<seq<Stream>>)
    ensures r == Confirmation(env, ds, snapshot)
  {
    if snapshot.None? {
      return Some(FreshStreams(env, ds));
    }
    if |ds| != |snapshot.value| {
      return None;
    }
    var remaining, confirmed := snapshot.value, [];
    ghost var whole := Match(ds, remaining);
    assert ds[0..] == ds;
    assert whole.Some? ==> [] + whole.value == whole.value;
    for n := 0 to |ds|
      invariant |remaining| == |ds| - n
      invariant whole == Prefixed(confirmed, Match(ds[n..], remaining))
    {
      var index := Index(remaining, ds[n]);
      if index.None? || OrZero(remaining[index.value].decl.resumeOffset) < Requested(ds[n], remaining[index.value]) {
        MatchStops(ds, n, remaining);
        return None;
      }
      MatchStep(ds, n, remaining, confirmed, index.value);
      confirmed := confirmed + [At(ds[n], remaining[index.value])];
      remaining := Without(remaining, index.value);
    }
    if |remaining| > 0 {
      return None;
    }
    assert confirmed + [] == confirmed;
    return Some(confirmed);
  }

  /** The request names this stream's direction, types and purpose, and asks for no more than it has. */
  predicate Suits(d: Declaration, s: Stream) {
    && d.direction == s.decl.direction && d.contentType == s.decl.contentType
    && d.offsetType == s.decl.offsetType && d.purpose == s.decl.purpose
    && (d.resumeOffset.Some? ==> d.resumeOffset.value <= OrZero(s.decl.resumeOffset))
  }

  lemma {:induction false} FitsIsSuits()
    ensures forall d, s :: Fits(d, s) <==> Suits(d, s)
  {
  }

  /** `sources` rearranges the snapshot so that each request suits the stream in its place. */
  ghost predicate Pairing(ds: seq<Declaration>, avail: seq<Stream>, sources: seq<Stream>) {
    && multiset(sources) == multiset(avail)
    && |sources| == |ds|
    && forall i | 0 <= i < |ds| :: Suits(ds[i], sources[i])
  }

  lemma {:induction false} WithoutCounts(s: seq<Stream>, i: nat)
    requires i < |s|
    ensures multiset(s) == multiset(Without(s, i)) + multiset{s[i]}
  {
    assert s == s[..i] + [s[i]] + s[i + 1..];
  }

  lemma {:induction false} MatchSources(ds: seq<Declaration>, avail: seq<Stream>) returns (sources: seq<Stream>)
    requires |ds| == |avail| && Match(ds, avail).Some?
    ensures Pairing(ds, avail, sources)
    ensures var r := Match(ds, avail).value;
            |r| == |ds| && forall i | 0 <= i < |ds| :: r[i] == At(ds[i], sources[i])
    decreases |ds|
  {
    FitsIsSuits();
    hide Fits, Suits, At, Without;
    if ds == [] {
      sources := [];
    } else {
      var i := Index(avail, ds[0]).value;
      WithoutCounts(avail, i);
      assert |Without(avail, i)| == |avail| - 1 by { CountSize(avail, i); }
      var rest := MatchSources(ds[1..], Without(avail, i));
      sources := [avail[i]] + rest;
      assert multiset(sources) == multiset{avail[i]} + multiset(rest);
      forall k | 0 <= k < |ds|
        ensures Suits(ds[k], sources[k])
      {
        assert k > 0 ==> ds[k] == ds[1..][k - 1] && sources[k] == rest[k - 1];
      }
    }
  }

  /** A successful match rearranges the snapshot: every stream used once, at its own request. */
  lemma {:induction false} MatchPairs(ds: seq<Declaration>, avail: seq<Stream>) returns (sources: seq<Stream>)
    requires |ds| == |avail| && Match(ds, avail).Some?
    ensures Pairing(ds, avail, sources)
    ensures var r := Match(ds, avail).value;
            && |r| == |ds|
            && forall i | 0 <= i < |ds| ::
                 var offset := if ds[i].resumeOffset.Some? then ds[i].resumeOffset.value
                               else OrZero(sources[i].decl.resumeOffset);
                 r[i] == Stream(sources[i].id, sources[i].decl.(resumeOffset := Some(offset)))
  {
    sources := MatchSources(ds, avail);
    hide Match, Pairing;
  }

  lemma {:induction false} CountSize(s: seq<Stream>, i: nat)
    requires i < |s|
    ensures |Without(s, i)| == |s| - 1
  {
  }

  /** And conversely, for requests no two of which are the same stream. */
  lemma {:induction false} MatchFinds(ds: seq<Declaration>, avail: seq<Stream>, sources: seq<Stream>)
    requires Pairing(ds, avail, sources)
    requires forall i, j | 0 <= i < j < |ds| :: !Same(ds[i], ds[j])
    ensures Match(ds, avail).Some?
    decreases |ds|
  {
    FitsIsSuits();
    hide At, Without, Fits;
    if ds != [] {
      assert sources[0] in multiset(sources);
      assert sources[0] in avail;
      assert Suits(ds[0], sources[0]);
      var i := Index(avail, ds[0]).value;
      assert avail[i] in multiset(avail);
      assert avail[i] in sources;
      var k :| 0 <= k < |sources| && sources[k] == avail[i];
      assert Suits(ds[k], sources[k]);
      assert k == 0;
      PairingTail(ds, avail, sources, i);
      MatchFinds(ds[1..], Without(avail, i), sources[1..]);
    }
  }

  lemma {:induction false} PairingTail(ds: seq<Declaration>, avail: seq<Stream>, sources: seq<Stream>, i: nat)
    requires Pairing(ds, avail, sources) && ds != [] && i < |avail| && avail[i] == sources[0]
    ensures Pairing(ds[1..], Without(avail, i), sources[1..])
  {
    hide Suits, Without;
    WithoutCounts(avail, i);
    assert sources == [sources[0]] + sources[1..];
    assert multiset(sources) == multiset{sources[0]} + multiset(sources[1..]);
    assert multiset(sources[1..]) == multiset(sources) - multiset{sources[0]};
    assert multiset(Without(avail, i)) == multiset(avail) - multiset{avail[i]};
    forall k | 0 <= k < |ds[1..]|
      ensures Suits(ds[1..][k], sources[1..][k])
    {
      assert Suits(ds[k + 1], sources[k + 1]);
    }
  }

  /** The greedy matcher succeeds exactly when a one-to-one assignment within the offsets exists. */
  lemma {:induction false} ResumesExactly(env: Env, ds: seq<Declaration>, avail: seq<Stream>)
    requires Valid(env, ds)
    ensures Confirmation(env, ds, Some(avail)).Some? <==> exists sources :: Pairing(ds, avail, sources)
  {
    hide Match, Pairing;
    forall i, j | 0 <= i < j < |ds|
      ensures !Same(ds[i], ds[j])
    {
    }
    if Confirmation(env, ds, Some(avail)).Some? {
      var sources := MatchPairs(ds, avail);
    }
    if sources :| Pairing(ds, avail, sources) {
      PairingSize(ds, avail, sources);
      MatchFinds(ds, avail, sources);
    }
  }

  lemma {:induction false} PairingSize(ds: seq<Declaration>, avail: seq<Stream>, sources: seq<Stream>)
    requires Pairing(ds, avail, sources)
    ensures |ds| == |avail|
  {
    assert |multiset(sources)| == |sources| && |multiset(avail)| == |avail|;
  }

  /** Distinct ids survive rearrangement. */
  lemma {:induction false} RearrangedIds(a: seq<Stream>, b: seq<Stream>)
    requires multiset(a) == multiset(b) && Distinct(Ids(a))
    ensures Distinct(Ids(b)) && SetOf(Ids(a)) == SetOf(Ids(b))
  {
    var x, y := Ids(a), Ids(b);
    assert |multiset(a)| == |a| && |multiset(b)| == |b|;
    SetSize(x);
    SetSize(y);
    hide Distinct;
    forall k
      ensures k in x <==> k in y
    {
      if k in x {
        var i :| 0 <= i < |x| && x[i] == k;
        assert a[i] in multiset(b);
        assert a[i] in b;
        var j :| 0 <= j < |b| && b[j] == a[i];
        assert y[j] == k;
      }
      if k in y {
        var i :| 0 <= i < |y| && y[i] == k;
        assert b[i] in multiset(a);
        assert b[i] in a;
        var j :| 0 <= j < |a| && a[j] == b[i];
        assert x[j] == k;
      }
    }
    assert SetOf(x) == SetOf(y);
  }

  ghost predicate Injective(f: nat -> string) {
    forall i: nat, j: nat | i < j :: f(i) != f(j)
  }

  lemma {:induction false} FreshGood(env: Env, ds: seq<Declaration>)
    requires Injective(env.generate)
    ensures Distinct(Ids(FreshStreams(env, ds)))
  {
  }

  /** Acknowledged streams are the snapshot's, rearranged, each at its request. */
  lemma {:induction false} ResumedGood(env: Env, ds: seq<Declaration>, avail: seq<Stream>)
    requires Confirmation(env, ds, Some(avail)).Some? && Distinct(Ids(avail))
    ensures var r := Confirmation(env, ds, Some(avail)).value;
            && |r| == |ds| && Distinct(Ids(r)) && SetOf(Ids(r)) == SetOf(Ids(avail))
            && forall i | 0 <= i < |ds| :: Same(ds[i], r[i].decl)
  {
    var r := Confirmation(env, ds, Some(avail)).value;
    hide Match;
    var sources := MatchPairs(ds, avail);
    forall i | 0 <= i < |ds|
      ensures Same(ds[i], r[i].decl)
    {
      assert Suits(ds[i], sources[i]);
    }
    RearrangedIds(avail, sources);
    assert Ids(r) == Ids(sources);
  }

  /** What the server acknowledges is always valid, in the order asked for, and has distinct ids. */
  lemma {:induction false} ConfirmationGood(env: Env, ds: seq<Declaration>, snapshot: Option<seq<Stream>>)
    requires Valid(env, ds) && Confirmation(env, ds, snapshot).Some?
    requires Injective(env.generate) && (snapshot.Some? ==> Distinct(Ids(snapshot.value)))
    ensures var r := Confirmation(env, ds, snapshot).value;
            SamePlan(ds, Declarations(r)) && Valid(env, Declarations(r)) && Distinct(Ids(r))
  {
    hide Match, Distinct, Injective, Valid;
    var r := Confirmation(env, ds, snapshot).value;
    if snapshot.None? {
      FreshGood(env, ds);
    } else {
      ResumedGood(env, ds, snapshot.value);
    }
    assert forall i | 0 <= i < |ds| :: Same(ds[i], r[i].decl);
    ValidSame(env, ds, Declarations(r));
  }

  // ---- Snapshots ------------------------------------------------------------

  function DirectionName(d: Direction): string {
    match d case Input => "input" case Output => "output" case Duplex => "duplex" case OtherDirection(text) => text
  }

  function OffsetName(o: OffsetType): string {
    match o case Time => "time" case Byte => "byte" case Message => "message" case OtherOffset(text) => text
  }

  function LogicalKey(d: Declaration): string {
    DirectionName(d.direction) + ":" + (if d.purpose.Some? then d.purpose.value else "") + ":" + d.contentType
    + ":" + OffsetName(d.offsetType)
  }

  function KeyIndex(avail: seq<Stream>, key: string): (r: Option<nat>)
    ensures r.Some? ==> r.value < |avail|
  {
    if avail == [] then None
    else if LogicalKey(avail[0].decl) == key then Some(0)
    else match KeyIndex(avail[1..], key) case None => None case Some(i) => Some(i + 1)
  }

  /** buildInitStreams: a client adds its own resume offsets and changes nothing else. */
  function InitStreams(planned: seq<Declaration>, snapshot: Option<seq<Stream>>): (r: seq<Declaration>)
    ensures SamePlan(r, planned)
  {
    if snapshot.None? || planned == [] then planned
    else
      match KeyIndex(snapshot.value, LogicalKey(planned[0]))
      case None => [planned[0]] + InitStreams(planned[1..], snapshot)
      case Some(i) =>
        [planned[0].(resumeOffset := Some(OrZero(snapshot.value[i].decl.resumeOffset)))]
        + InitStreams(planned[1..], Some(Without(snapshot.value, i)))
  }

  /**
   * From a snapshot in the order of its plan, as its own is, a client asks for each stream's own
   * snapshot offset, even where the text keys of different streams coincide.
   */
  lemma {:induction false} InitAsksOwn(planned: seq<Declaration>, snapshot: seq<Stream>, i: nat)
    requires SamePlan(planned, Declarations(snapshot)) && i < |planned|
    ensures InitStreams(planned, Some(snapshot))[i]
            == planned[i].(resumeOffset := Some(OrZero(snapshot[i].decl.resumeOffset)))
    decreases |planned|
  {
    hide InitStreams, SamePlan, OrZero, Declarations;
    InitFirst(planned, snapshot);
    SamePlanTail(planned, snapshot);
    if i > 0 {
      InitAsksOwn(planned[1..], snapshot[1..], i - 1);
      assert planned[1..][i - 1] == planned[i] && snapshot[1..][i - 1] == snapshot[i];
      assert InitStreams(planned, Some(snapshot))[i] == InitStreams(planned[1..], Some(snapshot[1..]))[i - 1];
    }
  }

  lemma {:induction false} SamePlanTail(planned: seq<Declaration>, snapshot: seq<Stream>)
    requires planned != [] && SamePlan(planned, Declarations(snapshot))
    ensures |snapshot| == |planned| && SamePlan(planned[1..], Declarations(snapshot[1..]))
  {
    hide Same;
    assert Declarations(snapshot[1..]) == Declarations(snapshot)[1..];
  }

  lemma {:induction false} InitFirst(planned: seq<Declaration>, snapshot: seq<Stream>)
    requires planned != [] && SamePlan(planned, Declarations(snapshot))
    ensures var r, rest := InitStreams(planned, Some(snapshot)), InitStreams(planned[1..], Some(snapshot[1..]));
            && |r| == |planned| && |rest| == |planned| - 1
            && r == [planned[0].(resumeOffset := Some(OrZero(snapshot[0].decl.resumeOffset)))] + rest
  {
    assert Same(planned[0], Declarations(snapshot)[0]);
    SameKey(planned[0], snapshot[0].decl);
    hide LogicalKey, Same;
    assert KeyIndex(snapshot, LogicalKey(planned[0])) == Some(0);
    hide KeyIndex;
    assert Without(snapshot, 0) == snapshot[1..];
  }

  lemma {:induction false} SameKey(a: Declaration, b: Declaration)
    requires Same(a, b)
    ensures LogicalKey(a) == LogicalKey(b)
  {
  }

  /** Every confirmed stream has counters. */
  ghost predicate Tracked(r: Registry) {
    forall i | 0 <= i < |r.order| :: r.order[i].id in r.tracker
  }

  ghost function SnapshotOf(r: Registry): (ss: seq<Stream>)
    requires Tracked(r)
    ensures Ids(ss) == Ids(r.order)
  {
    seq(|r.order|, i requires 0 <= i < |r.order| =>
      r.order[i].(decl := r.order[i].decl.(resumeOffset := Some(ResumeOffset(r.tracker[r.order[i].id])))))
  }
}
