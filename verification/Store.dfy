/** The in-memory session store: a counter-stamped map that behaves as a list in order of last use. */
module Store {
  import opened Text
  import opened Lists

  /** A stored session; `S` is the snapshot it holds. */
  datatype Record<S> = Record(id: string, snapshot: S, expiresAt: Option<int>)

  /** Least recently used first. */
  type Recency<S> = seq<Record<S>>

  function Ids<S>(l: Recency<S>): (r: seq<string>)
    ensures |r| == |l| && forall i | 0 <= i < |l| :: r[i] == l[i].id
  {
    seq(|l|, i requires 0 <= i < |l| => l[i].id)
  }

  /** Where an id stands in the list. */
  function Place<S>(l: Recency<S>, id: string): (r: Option<nat>)
    ensures r.Some? ==> r.value < |l| && l[r.value].id == id
    ensures r.None? ==> forall i | 0 <= i < |l| :: l[i].id != id
  {
    if l == [] then None
    else if l[0].id == id then Some(0)
    else match Place(l[1..], id) case None => None case Some(i) => Some(i + 1)
  }

  /** A sequence without its i-th element. */
  function Cut<T>(s: seq<T>, i: nat): (r: seq<T>)
    requires i < |s|
    ensures |r| == |s| - 1 && forall j | 0 <= j < |r| :: r[j] == if j < i then s[j] else s[j + 1]
  {
    s[..i] + s[i + 1..]
  }

  function Without<S>(l: Recency<S>, id: string): Recency<S> {
    match Place(l, id) case None => l case Some(i) => Cut(l, i)
  }

  predicate Expired<S>(r: Record<S>, now: int) {
    r.expiresAt.Some? && now > r.expiresAt.value
  }

  /** Saving `id` needs room that the store does not have. */
  predicate Full<S>(l: Recency<S>, max: int, id: string) {
    Place(l, id).None? && |l| >= max && l != []
  }

  /** Room for one more id: the least recently used one goes if the store is full. */
  function MakeRoom<S>(l: Recency<S>, max: int, id: string): Recency<S> {
    if Full(l, max, id) then l[1..] else l
  }

  function Saved<S>(l: Recency<S>, max: int, r: Record<S>): Recency<S> {
    Without(MakeRoom(l, max, r.id), r.id) + [r]
  }

  function Loaded<S>(l: Recency<S>, id: string, now: int): Recency<S> {
    match Place(l, id)
    case None => l
    case Some(i) => if Expired(l[i], now) then Without(l, id) else Without(l, id) + [l[i]]
  }

  function Answer<S>(l: Recency<S>, id: string, now: int): Option<S> {
    match Place(l, id)
    case None => None
    case Some(i) => if Expired(l[i], now) then None else Some(l[i].snapshot)
  }

  // ---- The store ------------------------------------------------------------

  datatype Entry<S> = Entry(snapshot: S, expiresAt: Option<int>, lastAccessedAt: nat)

  /** `order` lists the keys by strictly increasing stamp. */
  ghost predicate Ordered<S>(sessions: map<string, Entry<S>>, order: seq<string>, counter: nat) {
    && |order| == |sessions|
    && (forall i | 0 <= i < |order| :: order[i] in sessions && sessions[order[i]].lastAccessedAt <= counter)
    && forall i, j | 0 <= i < j < |order| :: sessions[order[i]].lastAccessedAt < sessions[order[j]].lastAccessedAt
  }

  function Records<S>(sessions: map<string, Entry<S>>, order: seq<string>): (r: Recency<S>)
    requires forall i | 0 <= i < |order| :: order[i] in sessions
    ensures |r| == |order|
  {
    seq(|order|, i requires 0 <= i < |order| =>
      Record(order[i], sessions[order[i]].snapshot, sessions[order[i]].expiresAt))
  }

  class SessionStore<S> {
    const maxSessions: int
    const ttlMs: Option<int>
    var sessions: map<string, Entry<S>>
    var accessCounter: nat
    ghost var order: seq<string>

    ghost predicate Valid()
      reads this
    {
      Ordered(sessions, order, accessCounter)
    }

    ghost function Contents(): Recency<S>
      reads this
      requires Valid()
    {
      Records(sessions, order)
    }

    constructor (maxSessions: int, ttlMs: Option<int>)
      ensures Valid() && Contents() == [] && this.maxSessions == maxSessions && this.ttlMs == ttlMs
    {
      this.maxSessions, this.ttlMs := maxSessions, ttlMs;
      sessions, accessCounter, order := map[], 0, [];
    }

    /** The scan for the smallest stamp, in whatever order the map is walked. */
    method LeastRecent() returns (lru: Option<string>)
      requires Valid()
      ensures lru == if order == [] then None else Some(order[0])
    {
      lru := None;
      var keys := sessions.Keys;
      while keys != {}
        invariant keys <= sessions.Keys
        invariant lru.None? ==> keys == sessions.Keys
        invariant lru.Some? ==>
                    && lru.value in sessions
                    && forall k | k in sessions && k !in keys ::
                         sessions[lru.value].lastAccessedAt <= sessions[k].lastAccessedAt
      {
        var k :| k in keys;
        if lru.None? || sessions[k].lastAccessedAt < sessions[lru.value].lastAccessedAt {
          lru := Some(k);
        }
        keys := keys - {k};
      }
      if order != [] {
        assert order[0] in sessions;
        Covers(sessions, order, accessCounter);
        var i :| 0 <= i < |order| && order[i] == lru.value;
        assert i == 0;
      }
    }

    method Save(id: string, snapshot: S, now: int)
      requires Valid()
      modifies this
      ensures Valid()
      ensures Contents() == Saved(old(Contents()), maxSessions,
                                  Record(id, snapshot, if ttlMs.Some? then Some(now + ttlMs.value) else None))
    {
      hide Ordered, Records, Place, KeyAt, Without;
      FindKey(sessions, order, id, accessCounter);
      OrderSize(sessions, order, accessCounter);
      if id !in sessions && |sessions| >= maxSessions {
        var lru := LeastRecent();
        if lru.Some? {
          DropFirst(sessions, order, accessCounter);
          sessions := sessions - {lru.value};
          order := order[1..];
        }
      }
      accessCounter := accessCounter + 1;
      var entry := Entry(snapshot, if ttlMs.Some? then Some(now + ttlMs.value) else None, accessCounter);
      Stamp(sessions, order, accessCounter - 1, id, entry);
      order := Moved(order, id);
      sessions := sessions[id := entry];
    }

    method Load(id: string, now: int) returns (r: Option<S>)
      requires Valid()
      modifies this
      ensures Valid()
      ensures r == Answer(old(Contents()), id, now)
      ensures Contents() == Loaded(old(Contents()), id, now)
    {
      hide Ordered, Place, KeyAt, Without;
      FindKey(sessions, order, id, accessCounter);
      if id !in sessions {
        return None;
      }
      var entry := sessions[id];
      if entry.expiresAt.Some? && now > entry.expiresAt.value {
        Drop(sessions, order, accessCounter, id);
        order := Removed(order, id);
        sessions := sessions - {id};
        return None;
      }
      accessCounter := accessCounter + 1;
      Stamp(sessions, order, accessCounter - 1, id, entry.(lastAccessedAt := accessCounter));
      order := Moved(order, id);
      sessions := sessions[id := entry.(lastAccessedAt := accessCounter)];
      return Some(entry.snapshot);
    }

    method Delete(id: string)
      requires Valid()
      modifies this
      ensures Valid()
      ensures Contents() == Without(old(Contents()), id)
    {
      Drop(sessions, order, accessCounter, id);
      order := Removed(order, id);
      sessions := sessions - {id};
    }
  }

  lemma {:induction false} OrderSize<S>(sessions: map<string, Entry<S>>, order: seq<string>, counter: nat)
    requires Ordered(sessions, order, counter)
    ensures |Records(sessions, order)| == |order| == |sessions|
  {
  }

  function KeyAt(order: seq<string>, id: string): (r: Option<nat>)
    ensures r.Some? ==> r.value < |order| && order[r.value] == id
    ensures r.None? ==> id !in order
  {
    if order == [] then None
    else if order[0] == id then Some(0)
    else match KeyAt(order[1..], id) case None => None case Some(i) => Some(i + 1)
  }

  function Removed(order: seq<string>, id: string): seq<string> {
    match KeyAt(order, id) case None => order case Some(i) => Cut(order, i)
  }

  function Moved(order: seq<string>, id: string): seq<string> {
    Removed(order, id) + [id]
  }

  lemma {:induction false} KeyIsFind<S>(l: Recency<S>, id: string)
    ensures KeyAt(Ids(l), id) == Place(l, id)
  {
    if l != [] {
      assert Ids(l)[1..] == Ids(l[1..]);
      KeyIsFind(l[1..], id);
    }
  }

  /** The order misses no key: it has as many distinct ones as the map. */
  lemma {:induction false} Covers<S>(sessions: map<string, Entry<S>>, order: seq<string>, counter: nat)
    requires Ordered(sessions, order, counter)
    ensures forall k | k in sessions :: k in order
  {
    assert Distinct(order);
    SetSize(order);
    assert |sessions| == |sessions.Keys|;
    assert SetOf(order) <= sessions.Keys;
    SubsetOfSameSize(SetOf(order), sessions.Keys);
    forall k | k in sessions
      ensures k in order
    {
      assert k in SetOf(order);
    }
  }

  /** The map has an id exactly when the list finds it, at its place in the order. */
  lemma {:induction false} FindKey<S>(sessions: map<string, Entry<S>>, order: seq<string>, id: string, counter: nat)
    requires Ordered(sessions, order, counter)
    ensures Place(Records(sessions, order), id) == KeyAt(order, id)
    ensures id in sessions <==> KeyAt(order, id).Some?
  {
    Covers(sessions, order, counter);
    var l := Records(sessions, order);
    assert Ids(l) == order;
    KeyIsFind(l, id);
  }

  lemma {:induction false} Drop<S>(sessions: map<string, Entry<S>>, order: seq<string>, counter: nat, id: string)
    requires Ordered(sessions, order, counter)
    ensures Ordered(sessions - {id}, Removed(order, id), counter)
    ensures Records(sessions - {id}, Removed(order, id)) == Without(Records(sessions, order), id)
  {
    hide Ordered, Records, Cut;
    FindKey(sessions, order, id, counter);
    if id in sessions {
      DropAt(sessions, order, counter, KeyAt(order, id).value);
    } else {
      assert sessions - {id} == sessions;
    }
  }

  lemma {:induction false} DropAt<S>(sessions: map<string, Entry<S>>, order: seq<string>, counter: nat, i: nat)
    requires Ordered(sessions, order, counter) && i < |order|
    ensures Ordered(sessions - {order[i]}, Cut(order, i), counter)
    ensures Records(sessions - {order[i]}, Cut(order, i)) == Cut(Records(sessions, order), i)
  {
  }

  lemma {:induction false} DropFirst<S>(sessions: map<string, Entry<S>>, order: seq<string>, counter: nat)
    requires Ordered(sessions, order, counter) && order != []
    ensures Ordered(sessions - {order[0]}, order[1..], counter)
    ensures Records(sessions - {order[0]}, order[1..]) == Records(sessions, order)[1..]
  {
  }

  /** Writing an entry with a new stamp moves it to the end of the list. */
  lemma {:induction false} Stamp<S>(sessions: map<string, Entry<S>>, order: seq<string>, counter: nat, id: string,
                                    entry: Entry<S>)
    requires Ordered(sessions, order, counter) && entry.lastAccessedAt == counter + 1
    ensures Ordered(sessions[id := entry], Moved(order, id), counter + 1)
    ensures Records(sessions[id := entry], Moved(order, id))
            == Without(Records(sessions, order), id) + [Record(id, entry.snapshot, entry.expiresAt)]
  {
    hide Removed, Without, Ordered, Records;
    Drop(sessions, order, counter, id);
    var m, rest := sessions - {id}, Removed(order, id);
    assert sessions[id := entry] == m[id := entry];
    Append(m, rest, counter, id, entry);
  }

  lemma {:induction false} Append<S>(m: map<string, Entry<S>>, order: seq<string>, counter: nat, id: string,
                                     entry: Entry<S>)
    requires Ordered(m, order, counter) && id !in m && entry.lastAccessedAt == counter + 1
    ensures Ordered(m[id := entry], order + [id], counter + 1)
    ensures Records(m[id := entry], order + [id]) == Records(m, order) + [Record(id, entry.snapshot, entry.expiresAt)]
  {
  }

  // ---- Whole runs -----------------------------------------------------------

  datatype Op<S> = Save(record: Record<S>) | Load(id: string, now: int) | Delete(id: string)

  function Apply<S>(l: Recency<S>, max: int, op: Op<S>): Recency<S> {
    match op
    case Save(r) => Saved(l, max, r)
    case Load(id, now) => Loaded(l, id, now)
    case Delete(id) => Without(l, id)
  }

  function Run<S>(max: int, log: seq<Op<S>>): Recency<S> {
    if log == [] then [] else Apply(Run(max, log[..|log| - 1]), max, log[|log| - 1])
  }

  /** The record of the latest save of an id. */
  function LatestSave<S>(log: seq<Op<S>>, id: string): Option<Record<S>> {
    if log == [] then None
    else
      var op := log[|log| - 1];
      if op.Save? && op.record.id == id then Some(op.record) else LatestSave(log[..|log| - 1], id)
  }

  predicate Uses<S>(l: Recency<S>, op: Op<S>, id: string) {
    || (op.Save? && op.record.id == id)
    || (op.Load? && op.id == id && Answer(l, id, op.now).Some?)
  }

  /** One plus the index of the last save or answered load of an id; zero before any. */
  function LastUse<S>(max: int, log: seq<Op<S>>, id: string): nat {
    if log == [] then 0
    else
      var init := log[..|log| - 1];
      if Uses(Run(max, init), log[|log| - 1], id) then |log| else LastUse(max, init, id)
  }

  lemma {:induction false} LastUseBound<S>(max: int, log: seq<Op<S>>, id: string)
    ensures LastUse(max, log, id) <= |log|
  {
    if log != [] {
      LastUseBound(max, log[..|log| - 1], id);
    }
  }

  /** The list holds each id once, at its latest saved record, in order of last use. */
  ghost predicate Faithful<S(!new)>(max: int, log: seq<Op<S>>) {
    var l := Run(max, log);
    && (forall i | 0 <= i < |l| :: LatestSave(log, l[i].id) == Some(l[i]))
    && (forall i, j | 0 <= i < j < |l| :: LastUse(max, log, l[i].id) < LastUse(max, log, l[j].id))
    && |l| <= (if max < 1 then 1 else max)
  }

  /** Every run of saves, loads and deletes keeps the list faithful to its history, and within bounds. */
  lemma {:induction false} RunFaithful<S(!new)>(max: int, log: seq<Op<S>>)
    ensures Faithful(max, log)
  {
    if log != [] {
      var init, op := log[..|log| - 1], log[|log| - 1];
      RunFaithful(max, init);
      match op
      case Save(r) => SaveFaithful(max, log);
      case Load(id, now) => LoadFaithful(max, log);
      case Delete(id) => DeleteFaithful(max, log);
    }
  }

  /** Part of a faithful list, in the same order, is as good for ids the last operation does not use. */
  ghost predicate Sublist<S>(part: Recency<S>, whole: Recency<S>, id: string, at: seq<nat>) {
    && |at| == |part| <= |whole|
    && (forall i | 0 <= i < |part| :: at[i] < |whole| && part[i] == whole[at[i]] && part[i].id != id)
    && forall i, j | 0 <= i < j < |part| :: at[i] < at[j]
  }

  lemma {:induction false} WithoutSublist<S>(l: Recency<S>, id: string) returns (at: seq<nat>)
    requires forall i, j | 0 <= i < j < |l| :: l[i].id != l[j].id
    ensures Sublist(Without(l, id), l, id, at)
  {
    var n := Place(l, id);
    if n.None? {
      at := seq(|l|, i => i);
    } else {
      at := seq(|l| - 1, i => if i < n.value then i else i + 1);
      hide Place;
    }
  }

  /** What becomes of the rest of the list when the last operation concerns only `id`. */
  lemma {:induction false} SublistFaithful<S(!new)>(max: int, log: seq<Op<S>>, part: Recency<S>, id: string,
                                                    at: seq<nat>)
    requires log != [] && Faithful(max, log[..|log| - 1])
    requires Sublist(part, Run(max, log[..|log| - 1]), id, at)
    requires OpId(log[|log| - 1]) == id
    ensures forall i | 0 <= i < |part| ::
              && LatestSave(log, part[i].id) == Some(part[i])
              && LastUse(max, log, part[i].id) < |log|
    ensures forall i, j | 0 <= i < j < |part| :: LastUse(max, log, part[i].id) < LastUse(max, log, part[j].id)
  {
    var init := log[..|log| - 1];
    var l := Run(max, init);
    forall i | 0 <= i < |part|
      ensures LatestSave(log, part[i].id) == LatestSave(init, part[i].id)
      ensures LastUse(max, log, part[i].id) == LastUse(max, init, part[i].id) < |log|
    {
      LastUseBound(max, init, part[i].id);
    }
    hide Run, LatestSave, LastUse;
    forall i | 0 <= i < |part|
      ensures LatestSave(log, part[i].id) == Some(part[i])
    {
      assert LatestSave(init, l[at[i]].id) == Some(l[at[i]]);
    }
    forall i, j | 0 <= i < j < |part|
      ensures LastUse(max, log, part[i].id) < LastUse(max, log, part[j].id)
    {
      assert LastUse(max, init, l[at[i]].id) < LastUse(max, init, l[at[j]].id);
    }
  }

  function OpId<S>(op: Op<S>): string {
    match op case Save(r) => r.id case Load(id, _) => id case Delete(id) => id
  }

  /** A list in strict order of last use repeats no id. */
  lemma {:induction false} FaithfulDistinct<S(!new)>(max: int, log: seq<Op<S>>)
    requires Faithful(max, log)
    ensures var l := Run(max, log); forall i, j | 0 <= i < j < |l| :: l[i].id != l[j].id
  {
  }

  lemma {:induction false} WithoutSize<S>(l: Recency<S>, id: string)
    ensures |Without(l, id)| == if Place(l, id).Some? then |l| - 1 else |l|
  {
  }

  lemma {:induction false} DeleteFaithful<S(!new)>(max: int, log: seq<Op<S>>)
    requires log != [] && Faithful(max, log[..|log| - 1]) && log[|log| - 1].Delete?
    ensures Faithful(max, log)
  {
    hide Without, Place, Sublist, LatestSave, LastUse;
    var init, id := log[..|log| - 1], log[|log| - 1].id;
    var l := Run(max, init);
    FaithfulDistinct(max, init);
    var at := WithoutSublist(l, id);
    WithoutSize(l, id);
    SublistFaithful(max, log, Without(l, id), id, at);
    assert Run(max, log) == Without(l, id);
  }

  /** The rest of the list, then one record that the last operation used. */
  lemma {:induction false} AppendFaithful<S(!new)>(max: int, log: seq<Op<S>>, part: Recency<S>, r: Record<S>,
                                                   at: seq<nat>)
    requires log != [] && Faithful(max, log[..|log| - 1])
    requires Sublist(part, Run(max, log[..|log| - 1]), r.id, at)
    requires OpId(log[|log| - 1]) == r.id && Run(max, log) == part + [r] && |part| + 1 <= (if max < 1 then 1 else max)
    requires LatestSave(log, r.id) == Some(r) && LastUse(max, log, r.id) == |log|
    ensures Faithful(max, log)
  {
    SublistFaithful(max, log, part, r.id, at);
    hide Run, LatestSave, LastUse, Sublist;
    var l := Run(max, log);
    forall i | 0 <= i < |l|
      ensures LatestSave(log, l[i].id) == Some(l[i])
    {
      assert i < |part| ==> l[i] == part[i];
    }
    forall i, j | 0 <= i < j < |l|
      ensures LastUse(max, log, l[i].id) < LastUse(max, log, l[j].id)
    {
      assert l[i] == part[i];
      assert j < |part| ==> l[j] == part[j];
    }
  }

  lemma {:induction false} LoadFaithful<S(!new)>(max: int, log: seq<Op<S>>)
    requires log != [] && Faithful(max, log[..|log| - 1]) && log[|log| - 1].Load?
    ensures Faithful(max, log)
  {
    hide Without, Place, Sublist;
    var init, id, now := log[..|log| - 1], log[|log| - 1].id, log[|log| - 1].now;
    var l := Run(max, init);
    FaithfulDistinct(max, init);
    var part := Without(l, id);
    var at := WithoutSublist(l, id);
    WithoutSize(l, id);
    if Place(l, id).Some? && !Expired(l[Place(l, id).value], now) {
      AppendFaithful(max, log, part, l[Place(l, id).value], at);
    } else {
      SublistFaithful(max, log, part, id, at);
      assert Run(max, log) == part by { LoadedWithout(l, id, now); }
      hide LatestSave, LastUse, Run;
    }
  }

  lemma {:induction false} LoadedWithout<S>(l: Recency<S>, id: string, now: int)
    requires Place(l, id).None? || Expired(l[Place(l, id).value], now)
    ensures Loaded(l, id, now) == Without(l, id)
  {
  }

  lemma {:induction false} SaveFaithful<S(!new)>(max: int, log: seq<Op<S>>)
    requires log != [] && Faithful(max, log[..|log| - 1]) && log[|log| - 1].Save?
    ensures Faithful(max, log)
  {
    var init, r := log[..|log| - 1], log[|log| - 1].record;
    var l := Run(max, init);
    FaithfulDistinct(max, init);
    var part, at := RoomSublist(l, max, r.id);
    AppendFaithful(max, log, part, r, at);
  }

  lemma {:induction false} RoomSublist<S>(l: Recency<S>, max: int, id: string) returns (part: Recency<S>, at: seq<nat>)
    requires forall i, j | 0 <= i < j < |l| :: l[i].id != l[j].id
    requires |l| <= (if max < 1 then 1 else max)
    ensures part == Without(MakeRoom(l, max, id), id) && Sublist(part, l, id, at)
    ensures |part| + 1 <= (if max < 1 then 1 else max)
  {
    var room := MakeRoom(l, max, id);
    part := Without(room, id);
    WithoutSize(room, id);
    WithoutSize(l, id);
    if room == l {
      at := WithoutSublist(l, id);
    } else {
      assert Place(room, id).None?;
      at := seq(|part|, i => i + 1);
    }
  }

  // ---- The store as its log alone describes it ------------------------------

  /** The ids stored after a log: saved, and since then neither deleted, found expired nor evicted. */
  ghost function Alive<S(!new)>(max: int, log: seq<Op<S>>): set<string>
    decreases |log|, 1
  {
    if log == [] then {}
    else
      var init := log[..|log| - 1];
      var ids := Alive(max, init);
      match log[|log| - 1]
      case Save(r) => (if r.id in ids || |ids| < max || ids == {} then ids else Younger(max, init)) + {r.id}
      case Load(id, now) => if Outdated(init, id, now) then ids - {id} else ids
      case Delete(id) => ids - {id}
  }

  /** The stored ids but the one whose last use is the longest ago. */
  ghost function Younger<S(!new)>(max: int, log: seq<Op<S>>): set<string>
    decreases |log|, 2
  {
    var ids := Alive(max, log);
    set k | k in ids && exists j :: j in ids && LastTouch(max, log, j) < LastTouch(max, log, k)
  }

  /** The latest save of an id has expired. */
  predicate Outdated<S>(log: seq<Op<S>>, id: string, now: int) {
    LatestSave(log, id).Some? && Expired(LatestSave(log, id).value, now)
  }

  /** One plus the index of the last save, or load of an id then stored and not expired. */
  ghost function LastTouch<S(!new)>(max: int, log: seq<Op<S>>, id: string): nat
    decreases |log|, 0
  {
    if log == [] then 0
    else
      var init, op := log[..|log| - 1], log[|log| - 1];
      if (op.Save? && op.record.id == id)
         || (op.Load? && op.id == id && id in Alive(max, init) && !Outdated(init, id, op.now)) then |log|
      else LastTouch(max, init, id)
  }

  /** The list is what the log alone says: the ids alive, and their last uses. */
  ghost predicate Told<S(!new)>(max: int, log: seq<Op<S>>) {
    && (forall id :: id in Alive(max, log) <==> Place(Run(max, log), id).Some?)
    && forall id :: LastTouch(max, log, id) == LastUse(max, log, id)
  }

  lemma {:induction false} PlaceWithout<S>(l: Recency<S>, gone: string, id: string)
    requires forall i, j | 0 <= i < j < |l| :: l[i].id != l[j].id
    ensures Place(Without(l, gone), id).Some? <==> id != gone && Place(l, id).Some?
  {
    var n := Place(l, gone);
    var rest := Without(l, gone);
    if Place(l, id).Some? && id != gone {
      var i := Place(l, id).value;
      assert l[i] == if n.None? || i < n.value then rest[i] else rest[i - 1];
    }
    if Place(rest, id).Some? {
      var i := Place(rest, id).value;
      assert rest[i] == if n.None? || i < n.value then l[i] else l[i + 1];
    }
  }

  lemma {:induction false} PlaceSnoc<S>(l: Recency<S>, r: Record<S>, id: string)
    ensures Place(l + [r], id).Some? <==> Place(l, id).Some? || r.id == id
  {
    if Place(l, id).Some? {
      assert (l + [r])[Place(l, id).value].id == id;
    }
    assert (l + [r])[|l|] == r;
    if Place(l + [r], id).Some? {
      var i := Place(l + [r], id).value;
      assert i < |l| ==> l[i].id == id;
    }
  }

  lemma {:induction false} PlaceTail<S>(l: Recency<S>, id: string)
    requires l != [] && forall i, j | 0 <= i < j < |l| :: l[i].id != l[j].id
    ensures Place(l[1..], id).Some? <==> id != l[0].id && Place(l, id).Some?
  {
    if Place(l, id).Some? && l[0].id != id {
      assert l[1..][Place(l, id).value - 1].id == id;
    }
    if Place(l[1..], id).Some? {
      assert l[Place(l[1..], id).value + 1].id == id;
    }
  }

  /** As many ids are alive as the list is long. */
  lemma {:induction false} AliveSize<S(!new)>(max: int, log: seq<Op<S>>)
    requires Faithful(max, log) && Told(max, log)
    ensures |Alive(max, log)| == |Run(max, log)|
  {
    FaithfulDistinct(max, log);
    var l := Run(max, log);
    assert Distinct(Ids(l));
    SetSize(Ids(l));
    forall id
      ensures id in Alive(max, log) <==> id in SetOf(Ids(l))
    {
      PlaceIn(l, id);
    }
    hide Alive, Run;
    assert Alive(max, log) == SetOf(Ids(l));
  }

  lemma {:induction false} PlaceIn<S>(l: Recency<S>, id: string)
    ensures Place(l, id).Some? <==> id in Ids(l)
  {
    if id in Ids(l) {
      var i :| 0 <= i < |l| && Ids(l)[i] == id;
      assert l[i].id == id;
    }
    if Place(l, id).Some? {
      assert Ids(l)[Place(l, id).value] == id;
    }
  }

  /** The ids younger than some other are all but the head of the list. */
  lemma {:induction false} YoungerIsTail<S(!new)>(max: int, log: seq<Op<S>>, id: string)
    requires Faithful(max, log) && Told(max, log) && Run(max, log) != []
    ensures id in Younger(max, log) <==> Place(Run(max, log)[1..], id).Some?
  {
    FaithfulDistinct(max, log);
    var l := Run(max, log);
    PlaceTail(l, id);
    hide Run, Alive, LastUse, LastTouch, LatestSave, Without;
    if Place(l, id).Some? {
      var i := Place(l, id).value;
      if id == l[0].id {
        forall j | j in Alive(max, log)
          ensures LastTouch(max, log, j) >= LastTouch(max, log, id)
        {
          var k := Place(l, j).value;
          assert k == 0 || LastUse(max, log, l[0].id) < LastUse(max, log, l[k].id);
        }
      } else {
        assert Place(l, l[0].id).Some?;
        assert LastUse(max, log, l[0].id) < LastUse(max, log, l[i].id);
      }
    }
  }

  lemma {:induction false} PlaceSaved<S>(l: Recency<S>, max: int, r: Record<S>, id: string)
    requires forall i, j | 0 <= i < j < |l| :: l[i].id != l[j].id
    ensures Place(Saved(l, max, r), id).Some? <==>
              r.id == id || Place(if Full(l, max, r.id) then l[1..] else l, id).Some?
  {
    hide Without, Place;
    var room := MakeRoom(l, max, r.id);
    PlaceWithout(room, r.id, id);
    PlaceSnoc(Without(room, r.id), r, id);
  }

  lemma {:induction false} SaveUnfolds<S(!new)>(max: int, log: seq<Op<S>>)
    requires log != [] && log[|log| - 1].Save?
    ensures var init, r := log[..|log| - 1], log[|log| - 1].record;
            var ids := Alive(max, init);
            && Alive(max, log) == (if r.id in ids || |ids| < max || ids == {} then ids else Younger(max, init)) + {r.id}
            && Run(max, log) == Saved(Run(max, init), max, r)
  {
    hide Younger, Saved;
  }

  lemma {:induction false} ToldOf<S(!new)>(max: int, log: seq<Op<S>>, id: string)
    requires Told(max, log)
    ensures id in Alive(max, log) <==> Place(Run(max, log), id).Some?
  {
    hide Alive, Place, Run, LastTouch, LastUse;
  }

  lemma {:induction false} SaveTold<S(!new)>(max: int, log: seq<Op<S>>, id: string)
    requires log != [] && log[|log| - 1].Save? && Faithful(max, log[..|log| - 1]) && Told(max, log[..|log| - 1])
    ensures id in Alive(max, log) <==> Place(Run(max, log), id).Some?
  {
    hide Alive, Run, Younger, Saved, Place, Faithful, Told;
    var init, r := log[..|log| - 1], log[|log| - 1].record;
    var l := Run(max, init);
    SaveUnfolds(max, log);
    FaithfulDistinct(max, init);
    AliveSize(max, init);
    ToldOf(max, init, id);
    ToldOf(max, init, r.id);
    PlaceSaved(l, max, r, id);
    assert l == [] <==> Alive(max, init) == {} by { assert |l| == 0 <==> |Alive(max, init)| == 0; }
    if Full(l, max, r.id) {
      YoungerIsTail(max, init, id);
    }
  }

  lemma {:induction false} OutdatedIsExpired<S(!new)>(max: int, log: seq<Op<S>>, id: string, now: int)
    requires Faithful(max, log) && Place(Run(max, log), id).Some?
    ensures var l := Run(max, log); Outdated(log, id, now) <==> Expired(l[Place(l, id).value], now)
  {
    var l := Run(max, log);
    assert LatestSave(log, l[Place(l, id).value].id) == Some(l[Place(l, id).value]);
  }

  lemma {:induction false} LoadTold<S(!new)>(max: int, log: seq<Op<S>>, id: string)
    requires log != [] && log[|log| - 1].Load? && Faithful(max, log[..|log| - 1]) && Told(max, log[..|log| - 1])
    ensures id in Alive(max, log) <==> Place(Run(max, log), id).Some?
  {
    var init, k, now := log[..|log| - 1], log[|log| - 1].id, log[|log| - 1].now;
    var l := Run(max, init);
    FaithfulDistinct(max, init);
    PlaceWithout(l, k, id);
    if Place(l, k).Some? {
      OutdatedIsExpired(max, init, k, now);
      PlaceSnoc(Without(l, k), l[Place(l, k).value], id);
    }
    hide Without, Faithful, LatestSave, LastUse, LastTouch;
  }

  lemma {:induction false} TouchTold<S(!new)>(max: int, log: seq<Op<S>>, id: string)
    requires log != [] && Faithful(max, log[..|log| - 1]) && Told(max, log[..|log| - 1])
    ensures LastTouch(max, log, id) == LastUse(max, log, id)
  {
    var init, op := log[..|log| - 1], log[|log| - 1];
    if op.Load? && op.id == id && Place(Run(max, init), id).Some? {
      OutdatedIsExpired(max, init, id, op.now);
    }
    hide Faithful, LatestSave, Run, Alive;
  }

  /** The list always agrees with the log: which ids are stored, and when each was last used. */
  lemma {:induction false} RunTold<S(!new)>(max: int, log: seq<Op<S>>)
    ensures Told(max, log)
  {
    if log != [] {
      var init, op := log[..|log| - 1], log[|log| - 1];
      RunTold(max, init);
      RunFaithful(max, init);
      forall id
        ensures id in Alive(max, log) <==> Place(Run(max, log), id).Some?
      {
        match op
        case Save(_) => SaveTold(max, log, id);
        case Load(_, _) => LoadTold(max, log, id);
        case Delete(k) =>
          FaithfulDistinct(max, init);
          PlaceWithout(Run(max, init), k, id);
      }
      forall id
        ensures LastTouch(max, log, id) == LastUse(max, log, id)
      {
        TouchTold(max, log, id);
      }
    }
  }

  /** An id is stored exactly when the log says it is alive, and no more than max(1, maxSessions) are. */
  lemma {:induction false} StoredExactlyAlive<S(!new)>(max: int, log: seq<Op<S>>, id: string)
    ensures Place(Run(max, log), id).Some? <==> id in Alive(max, log)
    ensures |Alive(max, log)| <= (if max < 1 then 1 else max)
  {
    RunFaithful(max, log);
    RunTold(max, log);
    AliveSize(max, log);
  }

  /**
   * After every run, a load answers exactly for ids still alive up to and including the time their
   * latest save expires, and then with the snapshot of that save.
   */
  lemma {:induction false} LoadAnswersLatest<S(!new)>(max: int, log: seq<Op<S>>, id: string, now: int)
    ensures id in Alive(max, log) ==> LatestSave(log, id).Some?
    ensures Answer(Run(max, log), id, now)
            == if id in Alive(max, log)
                  && (LatestSave(log, id).value.expiresAt.Some? ==> now <= LatestSave(log, id).value.expiresAt.value)
               then Some(LatestSave(log, id).value.snapshot) else None
  {
    RunFaithful(max, log);
    RunTold(max, log);
    hide Run, LatestSave, LastUse, Alive, LastTouch;
    var l := Run(max, log);
    if Place(l, id).Some? {
      assert LatestSave(log, l[Place(l, id).value].id) == Some(l[Place(l, id).value]);
    }
  }

  /** A save that makes room removes the one stored id whose last use, by the log, is the longest ago. */
  lemma {:induction false} EvictsLeastRecent<S(!new)>(max: int, log: seq<Op<S>>, id: string)
    requires Full(Run(max, log), max, id)
    ensures var l := Run(max, log);
            && MakeRoom(l, max, id) == l[1..]
            && forall i | 0 < i < |l| :: LastTouch(max, log, l[0].id) < LastTouch(max, log, l[i].id)
  {
    RunFaithful(max, log);
    RunTold(max, log);
    hide Run, LastUse, LastTouch, LatestSave, Alive;
  }
}
