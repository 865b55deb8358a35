/** Stream declarations, the registry, offsets, and the matching step of resumption. */
module Streams {
  import opened Text
  import opened Lists
  import opened Decimal
  import opened Pcm

  datatype Direction = Input | Output | Duplex

  datatype OffsetType = Time | Byte | PerMessage

  datatype Declaration = Declaration(
    contentType: string, direction: Direction, purpose: string,
    resumeOffset: Option<nat>, offsetType: Option<OffsetType>)

  datatype StreamInfo = StreamInfo(
    id: string, contentType: string, direction: Direction, purpose: string,
    offset: nat, pcm: Option<PcmParams>, offsetType: OffsetType)

  datatype Error = InvalidStreams | MaxStreamsExceeded

  // ---- Validation -----------------------------------------------------------

  /** Two streams of one direction both name a purpose, and not the same one. */
  predicate Apart(a: Declaration, b: Declaration) {
    a.direction == b.direction ==> a.purpose != "" && b.purpose != "" && a.purpose != b.purpose
  }

  ghost predicate ValidDeclarations(ds: seq<Declaration>, max: nat) {
    && 0 < |ds| <= max
    && (forall i | 0 <= i < |ds| :: ds[i].contentType != "" && ds[i].offsetType.Some?)
    && forall i, j | 0 <= i < j < |ds| :: Apart(ds[i], ds[j])
  }

  ghost predicate DirectionOk(ds: seq<Declaration>, dir: Direction) {
    forall i, j | 0 <= i < j < |ds| && ds[i].direction == ds[j].direction == dir :: Apart(ds[i], ds[j])
  }

  /** `purposes` lists the purposes of one direction's streams, found at the positions `at`. */
  ghost predicate PurposesAt(ds: seq<Declaration>, dir: Direction, purposes: seq<string>, at: seq<nat>) {
    && |at| == |purposes|
    && (forall k | 0 <= k < |at| ::
          at[k] < |ds| && ds[at[k]].direction == dir && ds[at[k]].purpose == purposes[k])
    && (forall k, l | 0 <= k < l < |at| :: at[k] < at[l])
    && forall j | 0 <= j < |ds| && ds[j].direction == dir :: j in at
  }

  ghost predicate Fine(purposes: seq<string>) {
    |purposes| <= 1 || ((forall k | 0 <= k < |purposes| :: purposes[k] != "") && Distinct(purposes))
  }

  method CollectPurposes(ds: seq<Declaration>, dir: Direction)
    returns (purposes: seq<string>, ghost at: seq<nat>)
    ensures PurposesAt(ds, dir, purposes, at)
  {
    purposes, at := [], [];
    for i := 0 to |ds|
      invariant PurposesAt(ds[..i], dir, purposes, at)
    {
      if ds[i].direction == dir {
        purposes, at := purposes + [ds[i].purpose], at + [i];
      }
    }
    assert ds[..|ds|] == ds;
  }

  method CheckPurposes(purposes: seq<string>) returns (ok: bool)
    ensures ok <==> Fine(purposes)
  {
    if |purposes| <= 1 {
      return true;
    }
    for k := 0 to |purposes|
      invariant forall l | 0 <= l < k :: purposes[l] != ""
    {
      if purposes[k] == "" {
        return false;
      }
    }
    for k := 0 to |purposes|
      invariant forall l, m | 0 <= l < k && l < m < |purposes| :: purposes[l] != purposes[m]
    {
      for m := k + 1 to |purposes|
        invariant forall l | k < l < m :: purposes[k] != purposes[l]
      {
        if purposes[k] == purposes[m] {
          return false;
        }
      }
    }
    return true;
  }

  lemma {:induction false} FineIf(ds: seq<Declaration>, dir: Direction, purposes: seq<string>, at: seq<nat>)
    requires PurposesAt(ds, dir, purposes, at) && DirectionOk(ds, dir)
    ensures Fine(purposes)
  {
    forall k, l | 0 <= k < l < |purposes|
      ensures purposes[k] != "" && purposes[l] != "" && purposes[k] != purposes[l]
    {
      assert at[k] < at[l];
      assert Apart(ds[at[k]], ds[at[l]]);
    }
    forall k | 0 <= k < |purposes| && |purposes| > 1
      ensures purposes[k] != ""
    {
      assert if k == 0 then purposes[k] != purposes[1] else purposes[0] != purposes[k];
    }
  }

  lemma {:induction false} FineOnlyIf(ds: seq<Declaration>, dir: Direction, purposes: seq<string>, at: seq<nat>)
    requires PurposesAt(ds, dir, purposes, at) && Fine(purposes)
    ensures DirectionOk(ds, dir)
  {
  }

  /** The rules for one direction: if it has two or more streams, purposes are present and unique. */
  method CheckDirection(ds: seq<Declaration>, dir: Direction) returns (ok: bool)
    ensures ok <==> DirectionOk(ds, dir)
  {
    hide PurposesAt, DirectionOk, Fine;
    ghost var at;
    var purposes;
    purposes, at := CollectPurposes(ds, dir);
    ok := CheckPurposes(purposes);
    if DirectionOk(ds, dir) {
      FineIf(ds, dir, purposes, at);
    }
    if Fine(purposes) {
      FineOnlyIf(ds, dir, purposes, at);
    }
  }

  /** validate_declarations. */
  method ValidateDeclarations(ds: seq<Declaration>, max: nat) returns (r: Option<Error>)
    ensures r.None? <==> ValidDeclarations(ds, max)
    ensures r == Some(MaxStreamsExceeded) <==> 0 < |ds| && |ds| > max
  {
    if |ds| == 0 {
      return Some(InvalidStreams);
    }
    if |ds| > max {
      return Some(MaxStreamsExceeded);
    }
    for i := 0 to |ds|
      invariant forall j | 0 <= j < i :: ds[j].contentType != "" && ds[j].offsetType.Some?
    {
      if ds[i].contentType == "" || ds[i].offsetType.None? {
        return Some(InvalidStreams);
      }
    }
    var input := CheckDirection(ds, Input);
    var output := CheckDirection(ds, Output);
    var duplex := CheckDirection(ds, Duplex);
    return if input && output && duplex then None else Some(InvalidStreams);
  }

  // ---- Offsets --------------------------------------------------------------

  function Increment(s: StreamInfo, bytes: nat): Option<nat> {
    match s.offsetType
    case Time => if s.pcm.None? then None else PcmIncrement(bytes, s.pcm.value)
    case Byte => Some(bytes)
    case PerMessage => Some(1)
  }

  /** advance_offset: the stream after a frame, or no change on overflow or missing PCM data. */
  function Advance(s: StreamInfo, bytes: nat): (r: Option<StreamInfo>)
    ensures r.Some? ==> s.offset <= r.value.offset <= MAX_U64 && r.value == s.(offset := r.value.offset)
  {
    match Increment(s, bytes)
    case None => None
    case Some(n) => if s.offset > MAX_U64 || n > MAX_U64 - s.offset then None else Some(s.(offset := s.offset + n))
  }

  /** A run of frames on one stream; fails as soon as one does. */
  function AdvanceAll(s: StreamInfo, sizes: seq<nat>): Option<StreamInfo>
    decreases |sizes|
  {
    if sizes == [] then Some(s)
    else
      match Advance(s, sizes[0])
      case None => None
      case Some(t) => AdvanceAll(t, sizes[1..])
  }

  function Total(sizes: seq<nat>): nat {
    if sizes == [] then 0 else sizes[0] + Total(sizes[1..])
  }

  /**
   * A byte stream moves by the bytes of its frames and a message stream by their number, and frames
   * are taken exactly as long as the offset stays within 64 bits.
   */
  lemma {:induction false} OffsetCounts(s: StreamInfo, sizes: seq<nat>)
    requires s.offset <= MAX_U64 && s.offsetType != Time
    ensures var moved := if s.offsetType == Byte then Total(sizes) else |sizes|;
            && (AdvanceAll(s, sizes).Some? <==> s.offset + moved <= MAX_U64)
            && (AdvanceAll(s, sizes).Some? ==> AdvanceAll(s, sizes).value == s.(offset := s.offset + moved))
    decreases |sizes|
  {
    if sizes != [] && Advance(s, sizes[0]).Some? {
      OffsetCounts(Advance(s, sizes[0]).value, sizes[1..]);
    }
  }

  ghost predicate Aligned(sizes: seq<nat>, stride: nat) {
    stride > 0 && forall i | 0 <= i < |sizes| :: sizes[i] % stride == 0
  }

  lemma {:induction false} AlignedCons(sizes: seq<nat>, stride: nat)
    requires sizes != [] && stride > 0
    ensures Aligned(sizes, stride) <==> sizes[0] % stride == 0 && Aligned(sizes[1..], stride)
  {
    if Aligned(sizes[1..], stride) {
      assert forall i | 1 <= i < |sizes| :: sizes[i] == sizes[1..][i - 1];
    }
  }

  lemma {:induction false} AdvanceTime(s: StreamInfo, bytes: nat)
    requires s.offsetType == Time && s.pcm.Some? && s.pcm.value.Usable() && Advance(s, bytes).Some?
    ensures var t, stride := Advance(s, bytes).value, Stride(s.pcm.value);
            && t.offsetType == Time && t.pcm == s.pcm && stride > 0 && t.offset >= s.offset
            && (t.offset - s.offset) * stride <= bytes < (t.offset - s.offset + 1) * stride
            && (bytes % stride == 0 <==> bytes == (t.offset - s.offset) * stride)
  {
    UsableIncrement(bytes, s.pcm.value);
    DivBounds(bytes, Stride(s.pcm.value));
    hide Stride, PcmParams.Usable;
  }

  /** `total` bytes in `count` frames, counted as `moved` strides. */
  ghost predicate Drifts(total: nat, count: nat, stride: nat, moved: int) {
    0 <= total - stride * moved <= count * (stride - 1)
  }

  ghost predicate Exact(total: nat, stride: nat, moved: int) {
    total == stride * moved
  }

  /** Rounding each frame down to whole samples loses less than one sample per frame. */
  lemma {:induction false} PcmDrift(s: StreamInfo, sizes: seq<nat>)
    requires s.offsetType == Time && s.pcm.Some? && s.pcm.value.Usable()
    requires AdvanceAll(s, sizes).Some?
    ensures var stride := Stride(s.pcm.value);
            var moved := AdvanceAll(s, sizes).value.offset - s.offset;
            && stride > 0
            && 0 <= Total(sizes) - stride * moved <= |sizes| * (stride - 1)
            && (Total(sizes) == stride * moved <==> forall i | 0 <= i < |sizes| :: sizes[i] % stride == 0)
  {
    hide PcmParams.Usable, Stride, AdvanceAll, Total;
    DriftOver(s, sizes);
  }

  lemma {:induction false} DriftOver(s: StreamInfo, sizes: seq<nat>)
    requires s.offsetType == Time && s.pcm.Some? && s.pcm.value.Usable()
    requires AdvanceAll(s, sizes).Some?
    ensures var stride := Stride(s.pcm.value);
            var moved := AdvanceAll(s, sizes).value.offset - s.offset;
            && stride > 0
            && Drifts(Total(sizes), |sizes|, stride, moved)
            && (Exact(Total(sizes), stride, moved) <==> Aligned(sizes, stride))
    decreases |sizes|
  {
    hide PcmParams.Usable, Stride, Advance;
    var stride := Stride(s.pcm.value);
    if sizes == [] {
      UsableIncrement(0, s.pcm.value);
    } else {
      hide Drifts, Exact, Aligned;
      var t := Advance(s, sizes[0]).value;
      AdvanceTime(s, sizes[0]);
      DriftOver(t, sizes[1..]);
      AlignedCons(sizes, stride);
      DriftStep(stride, t.offset - s.offset, AdvanceAll(t, sizes[1..]).value.offset - t.offset, sizes[0],
                Total(sizes[1..]), |sizes| - 1);
    }
  }

  lemma {:induction false} DriftStep(stride: nat, n: nat, rest: int, size: nat, total: nat, count: nat)
    requires n * stride <= size < (n + 1) * stride && Drifts(total, count, stride, rest)
    ensures Drifts(size + total, count + 1, stride, n + rest)
    ensures Exact(size + total, stride, n + rest) <==> size == n * stride && Exact(total, stride, rest)
  {
    assert stride * (n + rest) == n * stride + stride * rest;
    assert (n + 1) * stride == n * stride + stride;
    assert (count + 1) * (stride - 1) == count * (stride - 1) + (stride - 1);
  }

  // ---- Registry -------------------------------------------------------------

  type Registry = map<string, StreamInfo>

  /** Streams stored in order; an id already present is not replaced. */
  function Stored(ss: seq<StreamInfo>): Registry {
    if ss == [] then map[]
    else
      var m, s := Stored(ss[..|ss| - 1]), ss[|ss| - 1];
      if s.id in m then m else m[s.id := s]
  }

  function Fresh(d: Declaration, id: string): StreamInfo {
    StreamInfo(id, d.contentType, d.direction, d.purpose, 0, PcmOf(d.contentType),
               if d.offsetType.Some? then d.offsetType.value else PerMessage)
  }

  /** The streams of accepted declarations, with the ids drawn for them. */
  function FreshAll(ds: seq<Declaration>, ids: seq<string>): seq<StreamInfo>
    requires |ids| == |ds|
  {
    seq(|ds|, i requires 0 <= i < |ds| => Fresh(ds[i], ids[i]))
  }

  predicate Sound(s: StreamInfo) {
    s.offset <= MAX_U64 && (s.pcm.Some? ==> s.pcm.value.Usable())
  }

  /** What a stream list keeps across export and resume: distinct ids and logical identities, usable PCM data. */
  ghost predicate GoodStreams(ss: seq<StreamInfo>) {
    && (forall i | 0 <= i < |ss| :: Sound(ss[i]))
    && forall i, j | 0 <= i < j < |ss| ::
         && ss[i].id != ss[j].id
         && (ss[i].direction == ss[j].direction ==> ss[i].purpose != ss[j].purpose)
  }

  /** The same of a registry. */
  ghost predicate GoodRegistry(m: Registry) {
    && (forall k | k in m :: m[k].id == k && Sound(m[k]))
    && forall k, l | k in m && l in m && k != l && m[k].direction == m[l].direction :: m[k].purpose != m[l].purpose
  }

  /** Some enumeration of a registry, in the unspecified order of the hash map. */
  ghost predicate Enumerates(ss: seq<StreamInfo>, m: Registry) {
    && |ss| == |m|
    && (forall i | 0 <= i < |ss| :: ss[i].id in m && m[ss[i].id] == ss[i])
    && forall i, j | 0 <= i < j < |ss| :: ss[i].id != ss[j].id
  }

  class StreamRegistry {
    var streams: Registry

    constructor ()
      ensures streams == map[]
    {
      streams := map[];
    }

    /**
     * register_from_declarations; running out of drawn ids is a failure of the generator, which
     * leaves the streams registered so far.
     */
    method RegisterFromDeclarations(ds: seq<Declaration>, ids: seq<string>) returns (ok: bool)
      modifies this
      ensures ok <==> |ids| >= |ds|
      ensures var n := if ok then |ds| else |ids|; streams == Stored(FreshAll(ds[..n], ids[..n]))
    {
      streams := map[];
      hide Fresh, Stored;
      FreshNone(ds, ids);
      for i := 0 to |ds|
        invariant i <= |ids| && streams == Stored(FreshAll(ds[..i], ids[..i]))
      {
        if i >= |ids| {
          return false;
        }
        FreshNext(ds, ids, i);
        var info := Fresh(ds[i], ids[i]);
        if info.id !in streams {
          streams := streams[info.id := info];
        }
      }
      return true;
    }

    /** register_from_persisted. */
    method RegisterFromPersisted(ss: seq<StreamInfo>)
      modifies this
      ensures streams == Stored(ss)
    {
      streams := map[];
      for i := 0 to |ss|
        invariant streams == Stored(ss[..i])
      {
        assert ss[..i + 1][..i] == ss[..i];
        if ss[i].id !in streams {
          streams := streams[ss[i].id := ss[i]];
        }
      }
      assert ss[..|ss|] == ss;
    }
  }

  lemma {:induction false} StoredSnoc(ss: seq<StreamInfo>, s: StreamInfo)
    ensures Stored(ss + [s]) == if s.id in Stored(ss) then Stored(ss) else Stored(ss)[s.id := s]
  {
  }

  lemma {:induction false} FreshNone(ds: seq<Declaration>, ids: seq<string>)
    ensures Stored(FreshAll(ds[..0], ids[..0])) == map[]
  {
  }

  lemma {:induction false} FreshNext(ds: seq<Declaration>, ids: seq<string>, i: nat)
    requires i < |ds| && i < |ids|
    ensures var m, s := Stored(FreshAll(ds[..i], ids[..i])), Fresh(ds[i], ids[i]);
            Stored(FreshAll(ds[..i + 1], ids[..i + 1])) == if s.id in m then m else m[s.id := s]
  {
    hide Fresh, Stored;
    assert FreshAll(ds[..i + 1], ids[..i + 1]) == FreshAll(ds[..i], ids[..i]) + [Fresh(ds[i], ids[i])];
    StoredSnoc(FreshAll(ds[..i], ids[..i]), Fresh(ds[i], ids[i]));
  }

  lemma {:induction false} StoredOnly(ss: seq<StreamInfo>, k: string) returns (i: nat)
    requires k in Stored(ss)
    ensures i < |ss| && ss[i].id == k && Stored(ss)[k] == ss[i]
  {
    var init, s := ss[..|ss| - 1], ss[|ss| - 1];
    if k in Stored(init) {
      i := StoredOnly(init, k);
    } else {
      i := |ss| - 1;
    }
  }

  lemma {:induction false} StoredAll(ss: seq<StreamInfo>)
    requires forall i, j | 0 <= i < j < |ss| :: ss[i].id != ss[j].id
    ensures |Stored(ss)| == |ss|
    ensures forall i | 0 <= i < |ss| :: ss[i].id in Stored(ss) && Stored(ss)[ss[i].id] == ss[i]
  {
    if ss != [] {
      var init, s := ss[..|ss| - 1], ss[|ss| - 1];
      assert forall i | 0 <= i < |init| :: ss[i] == init[i];
      StoredAll(init);
      if s.id in Stored(init) {
        var i := StoredOnly(init, s.id);
        assert false;
      }
    }
  }

  lemma {:induction false} StoredGood(ss: seq<StreamInfo>)
    requires GoodStreams(ss)
    ensures GoodRegistry(Stored(ss)) && Enumerates(ss, Stored(ss))
  {
    hide Stored, Sound;
    StoredAll(ss);
    var m := Stored(ss);
    forall k | k in m
      ensures m[k].id == k && Sound(m[k])
    {
      var i := StoredOnly(ss, k);
    }
    forall k, l | k in m && l in m && k != l && m[k].direction == m[l].direction
      ensures m[k].purpose != m[l].purpose
    {
      var i := StoredOnly(ss, k);
      var j := StoredOnly(ss, l);
      assert i < j || j < i;
    }
  }

  /** A fresh registration of declarations that are pairwise apart, with distinct ids, is good. */
  lemma {:induction false} FreshGood(ds: seq<Declaration>, ids: seq<string>)
    requires |ids| == |ds| && Distinct(ids)
    requires forall i, j | 0 <= i < j < |ds| :: Apart(ds[i], ds[j])
    ensures GoodStreams(FreshAll(ds, ids)) && GoodRegistry(Stored(FreshAll(ds, ids)))
    ensures |Stored(FreshAll(ds, ids))| == |ds|
  {
    var ss := FreshAll(ds, ids);
    forall i | 0 <= i < |ss|
      ensures Sound(ss[i])
    {
      if PcmOf(ds[i].contentType).Some? {
        PcmUsable(ds[i].contentType);
      }
    }
    hide Sound, PcmOf;
    forall i, j | 0 <= i < j < |ss|
      ensures ss[i].id != ss[j].id && (ss[i].direction == ss[j].direction ==> ss[i].purpose != ss[j].purpose)
    {
      assert Apart(ds[i], ds[j]);
    }
    StoredGood(ss);
  }

  /** An export of a good registry is good, in whatever order it comes out. */
  lemma {:induction false} ExportGood(m: Registry, ss: seq<StreamInfo>)
    requires GoodRegistry(m) && Enumerates(ss, m)
    ensures GoodStreams(ss)
  {
  }

  lemma {:induction false} AdvanceGood(m: Registry, id: string, bytes: nat)
    requires GoodRegistry(m) && id in m && Advance(m[id], bytes).Some?
    ensures GoodRegistry(m[id := Advance(m[id], bytes).value])
  {
  }

  // ---- Resumption -----------------------------------------------------------

  predicate Matches(d: Declaration, s: StreamInfo) {
    d.direction == s.direction && d.contentType == s.contentType && d.purpose == s.purpose
  }

  function FirstMatch(ds: seq<Declaration>, s: StreamInfo): (r: Option<nat>)
    ensures r.Some? ==> r.value < |ds| && Matches(ds[r.value], s)
    ensures r.None? ==> forall i | 0 <= i < |ds| :: !Matches(ds[i], s)
  {
    if ds == [] then None
    else if Matches(ds[0], s) then Some(0)
    else
      match FirstMatch(ds[1..], s)
      case Some(i) => assert ds[1..][i] == ds[i + 1]; Some(i + 1)
      case None => assert forall i | 1 <= i < |ds| :: ds[i] == ds[1..][i - 1]; None
  }

  /** The restored stream, if a declaration matches and does not ask for more than is there. */
  function Restore(ds: seq<Declaration>, s: StreamInfo): Option<StreamInfo> {
    match FirstMatch(ds, s)
    case None => None
    case Some(i) =>
      match ds[i].resumeOffset
      case None => Some(s)
      case Some(req) => if req > s.offset then None else Some(s.(offset := req))
  }

  function RestoreAll(ds: seq<Declaration>, ss: seq<StreamInfo>): Option<seq<StreamInfo>> {
    if ss == [] then Some([])
    else
      match (RestoreAll(ds, ss[..|ss| - 1]), Restore(ds, ss[|ss| - 1]))
      case (Some(rs), Some(r)) => Some(rs + [r])
      case _ => None
  }

  /** The stream part of handle_resumption_locked. */
  function Resume(ds: seq<Declaration>, ss: seq<StreamInfo>): Option<seq<StreamInfo>> {
    if |ds| != |ss| then None else RestoreAll(ds, ss)
  }

  lemma {:induction false} RestoreEach(ds: seq<Declaration>, ss: seq<StreamInfo>)
    ensures RestoreAll(ds, ss).Some? <==> forall i | 0 <= i < |ss| :: Restore(ds, ss[i]).Some?
    ensures RestoreAll(ds, ss).Some? ==>
              && |RestoreAll(ds, ss).value| == |ss|
              && forall i | 0 <= i < |ss| :: RestoreAll(ds, ss).value[i] == Restore(ds, ss[i]).value
  {
    hide Restore;
    if ss != [] {
      var init := ss[..|ss| - 1];
      RestoreEach(ds, init);
      assert forall i | 0 <= i < |init| :: ss[i] == init[i];
    }
  }

  /** The inner loop of the resumption path: the first declaration that matches a stream. */
  method FindDeclaration(ds: seq<Declaration>, s: StreamInfo) returns (found: Option<nat>)
    ensures found == FirstMatch(ds, s)
  {
    hide FirstMatch, Matches;
    found := None;
    var j := 0;
    while j < |ds| && found.None?
      invariant 0 <= j <= |ds|
      invariant found.None? ==> forall k | 0 <= k < j :: !Matches(ds[k], s)
      invariant found.Some? ==> found.value < |ds| && Matches(ds[found.value], s)
                                && forall k | 0 <= k < found.value :: !Matches(ds[k], s)
      decreases |ds| - j, found.None?
    {
      if Matches(ds[j], s) {
        found := Some(j);
      }
      j := j + 1;
    }
    FirstIsFirst(ds, s, found);
  }

  /** The outer loop: match each persisted stream, refuse an offset beyond it, else rewind to it. */
  method ResumeStreams(ds: seq<Declaration>, ss: seq<StreamInfo>) returns (r: Option<seq<StreamInfo>>)
    ensures r == Resume(ds, ss)
  {
    hide FirstMatch;
    if |ds| != |ss| {
      return None;
    }
    var restored: seq<StreamInfo> := [];
    for i := 0 to |ss|
      invariant RestoreAll(ds, ss[..i]) == Some(restored)
    {
      assert ss[..i + 1][..i] == ss[..i];
      RestoreFails(ds, ss, i);
      var found := FindDeclaration(ds, ss[i]);
      if found.None? {
        return None;
      }
      var stream := ss[i];
      if ds[found.value].resumeOffset.Some? {
        var req := ds[found.value].resumeOffset.value;
        if req > stream.offset {
          return None;
        }
        stream := stream.(offset := req);
      }
      restored := restored + [stream];
    }
    assert ss[..|ss|] == ss;
    return Some(restored);
  }

  lemma {:induction false} RestoreFails(ds: seq<Declaration>, ss: seq<StreamInfo>, i: nat)
    requires i < |ss|
    ensures Restore(ds, ss[i]).None? ==> RestoreAll(ds, ss).None?
  {
    RestoreEach(ds, ss);
  }

  lemma {:induction false} FirstIsFirst(ds: seq<Declaration>, s: StreamInfo, found: Option<nat>)
    requires found.None? ==> forall k | 0 <= k < |ds| :: !Matches(ds[k], s)
    requires found.Some? ==> found.value < |ds| && Matches(ds[found.value], s)
                             && forall k | 0 <= k < found.value :: !Matches(ds[k], s)
    ensures FirstMatch(ds, s) == found
  {
    hide Matches;
    if ds != [] && !Matches(ds[0], s) {
      var rest := ds[1..];
      assert forall k | 0 <= k < |rest| :: rest[k] == ds[k + 1];
      FirstIsFirst(rest, s, if found.Some? then Some(found.value - 1) else None);
    }
  }

  type Identity = (Direction, string, string)

  function DeclaredAs(ds: seq<Declaration>): seq<Identity> {
    seq(|ds|, i requires 0 <= i < |ds| => (ds[i].direction, ds[i].contentType, ds[i].purpose))
  }

  function StreamsAs(ss: seq<StreamInfo>): seq<Identity> {
    seq(|ss|, i requires 0 <= i < |ss| => (ss[i].direction, ss[i].contentType, ss[i].purpose))
  }

  /** `pair` sends each stream to its declaration: the only one that matches it, and back. */
  ghost predicate Pairs(ds: seq<Declaration>, ss: seq<StreamInfo>, pair: seq<nat>) {
    && |pair| == |ss| == |ds|
    && Distinct(pair)
    && (forall i | 0 <= i < |pair| :: pair[i] < |ds|)
    && (forall j | 0 <= j < |ds| :: j in pair)
    && forall i, j | 0 <= i < |ss| && 0 <= j < |ds| ::
         (ds[j].direction, ds[j].contentType, ds[j].purpose) == (ss[i].direction, ss[i].contentType, ss[i].purpose)
         <==> j == pair[i]
  }

  /**
   * A successful resume pairs declarations and persisted streams one to one, although the matcher
   * never marks a declaration as used: no declaration is left over and no other pairing exists.
   */
  lemma {:induction false} ResumePairsOneToOne(ds: seq<Declaration>, ss: seq<StreamInfo>) returns (pair: seq<nat>)
    requires GoodStreams(ss) && Resume(ds, ss).Some?
    ensures Pairs(ds, ss, pair)
    ensures forall i | 0 <= i < |ss| :: FirstMatch(ds, ss[i]) == Some(pair[i])
  {
    RestoreEach(ds, ss);
    hide Sound, FirstMatch, RestoreAll;
    forall i | 0 <= i < |ss|
      ensures FirstMatch(ds, ss[i]).Some?
    {
      assert Restore(ds, ss[i]).Some?;
    }
    pair := seq(|ss|, i requires 0 <= i < |ss| => FirstMatch(ds, ss[i]).value);
    IdentitiesDistinct(ds, ss);
    hide Pairs;
    PairsByIdentity(ds, ss, pair);
  }

  lemma {:induction false} IdentitiesDistinct(ds: seq<Declaration>, ss: seq<StreamInfo>)
    requires GoodStreams(ss) && |ds| == |ss|
    requires forall i | 0 <= i < |ss| :: FirstMatch(ds, ss[i]).Some?
    ensures Distinct(DeclaredAs(ds)) && Distinct(StreamsAs(ss))
    ensures forall x | x in DeclaredAs(ds) :: x in StreamsAs(ss)
  {
    hide Sound, FirstMatch;
    var a, b := StreamsAs(ss), DeclaredAs(ds);
    forall i | 0 <= i < |ss|
      ensures a[i] in b
    {
      var j := FirstMatch(ds, ss[i]).value;
      assert b[j] == a[i];
    }
    Pigeonhole(a, b);
  }

  lemma {:induction false} PairsByIdentity(ds: seq<Declaration>, ss: seq<StreamInfo>, pair: seq<nat>)
    requires Distinct(DeclaredAs(ds)) && Distinct(StreamsAs(ss)) && |pair| == |ss| == |ds|
    requires forall x | x in DeclaredAs(ds) :: x in StreamsAs(ss)
    requires forall i | 0 <= i < |ss| :: pair[i] < |ds| && Matches(ds[pair[i]], ss[i])
    ensures Pairs(ds, ss, pair)
  {
    var a, b := StreamsAs(ss), DeclaredAs(ds);
    forall i, j | 0 <= i < |ss| && 0 <= j < |ds|
      ensures (ds[j].direction, ds[j].contentType, ds[j].purpose) == (ss[i].direction, ss[i].contentType, ss[i].purpose)
              <==> j == pair[i]
    {
      assert b[j] == (ds[j].direction, ds[j].contentType, ds[j].purpose);
      assert a[i] == (ss[i].direction, ss[i].contentType, ss[i].purpose);
      assert b[pair[i]] == a[i];
      assert Matches(ds[j], ss[i]) <==> b[j] == a[i];
    }
    forall i, k | 0 <= i < k < |pair|
      ensures pair[i] != pair[k]
    {
      assert b[pair[i]] == a[i] && b[pair[k]] == a[k];
    }
    forall j | 0 <= j < |ds|
      ensures j in pair
    {
      assert b[j] in a;
      var i :| 0 <= i < |a| && a[i] == b[j];
      assert Matches(ds[j], ss[i]);
      assert pair[i] == j;
    }
  }

  /** The offset a declaration asks for. */
  function Requested(d: Declaration, s: StreamInfo): nat {
    match d.resumeOffset case Some(req) => req case None => s.offset
  }

  /** Each restored stream is the persisted one at its own declaration's request, never further on. */
  lemma {:induction false} ResumeKeepsStreams(ds: seq<Declaration>, ss: seq<StreamInfo>) returns (pair: seq<nat>)
    requires GoodStreams(ss) && Resume(ds, ss).Some?
    ensures Pairs(ds, ss, pair)
    ensures var rs := Resume(ds, ss).value;
            && |rs| == |ss|
            && GoodStreams(rs)
            && forall i | 0 <= i < |ss| ::
                 && rs[i] == ss[i].(offset := Requested(ds[pair[i]], ss[i]))
                 && rs[i].offset <= ss[i].offset
  {
    pair := ResumePairsOneToOne(ds, ss);
    RestoreEach(ds, ss);
    var rs := Resume(ds, ss).value;
    hide RestoreAll, FirstMatch, Pairs;
    forall i | 0 <= i < |ss|
      ensures rs[i] == ss[i].(offset := Requested(ds[pair[i]], ss[i])) && rs[i].offset <= ss[i].offset
    {
      assert Restore(ds, ss[i]).Some?;
    }
    assert forall i | 0 <= i < |ss| :: Sound(ss[i]) ==> Sound(rs[i]);
  }

  /** No declaration asks for more than its stream has. */
  ghost predicate Within(ds: seq<Declaration>, ss: seq<StreamInfo>, pair: seq<nat>)
    requires |pair| == |ss| && forall i | 0 <= i < |pair| :: pair[i] < |ds|
  {
    forall i | 0 <= i < |ss| :: ds[pair[i]].resumeOffset.Some? ==> ds[pair[i]].resumeOffset.value <= ss[i].offset
  }

  lemma {:induction false} RestoreIf(ds: seq<Declaration>, ss: seq<StreamInfo>, pair: seq<nat>, i: nat)
    requires Pairs(ds, ss, pair) && Within(ds, ss, pair) && i < |ss|
    ensures Restore(ds, ss[i]).Some?
  {
    var j := pair[i];
    assert Matches(ds[j], ss[i]);
    var found := FirstMatch(ds, ss[i]).value;
    assert Matches(ds[found], ss[i]);
    hide FirstMatch;
  }

  /**
   * A resume succeeds exactly when declarations and persisted streams pair up one to one on
   * direction, content type and purpose, and no declaration asks for more than its stream has.
   */
  lemma {:induction false} ResumesExactly(ds: seq<Declaration>, ss: seq<StreamInfo>)
    requires GoodStreams(ss)
    ensures Resume(ds, ss).Some? <==> exists pair :: Pairs(ds, ss, pair) && Within(ds, ss, pair)
  {
    hide GoodStreams, RestoreAll, Restore;
    RestoreEach(ds, ss);
    if Resume(ds, ss).Some? {
      var pair := ResumeKeepsStreams(ds, ss);
      RequestedWithin(ds, ss, pair);
    }
    if pair :| Pairs(ds, ss, pair) && Within(ds, ss, pair) {
      hide Pairs, Within;
      forall i | 0 <= i < |ss|
        ensures Restore(ds, ss[i]).Some?
      {
        RestoreIf(ds, ss, pair, i);
      }
      PairsSize(ds, ss, pair);
    }
  }

  lemma {:induction false} PairsSize(ds: seq<Declaration>, ss: seq<StreamInfo>, pair: seq<nat>)
    requires Pairs(ds, ss, pair)
    ensures |ds| == |ss|
  {
  }

  lemma {:induction false} RequestedWithin(ds: seq<Declaration>, ss: seq<StreamInfo>, pair: seq<nat>)
    requires |pair| == |ss| && forall i | 0 <= i < |pair| :: pair[i] < |ds|
    requires forall i | 0 <= i < |ss| :: Requested(ds[pair[i]], ss[i]) <= ss[i].offset
    ensures Within(ds, ss, pair)
  {
  }
}
