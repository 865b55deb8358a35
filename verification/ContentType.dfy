/** Content-type matching in C++. */
module ContentType {
  import opened Text
  import opened Lists

  datatype Param = Param(name: string, value: string) {
    /** Names compare without case, values with. */
    function Key(): (string, string) { (LowerAll(name), value) }
  }

  datatype Ct = Ct(media: string, params: seq<Param>) {
    function Keys(): seq<(string, string)> {
      seq(|params|, i requires 0 <= i < |params| => params[i].Key())
    }
  }

  const MAX_PARAMS := 16

  datatype Cut = Cut(segment: string, rest: string)

  /** The text up to the next ';' without outer blanks, and what follows it. */
  function CutSegment(s: string): (c: Cut)
    requires s != ""
    ensures |c.rest| < |s|
  {
    match Find(s, ";", 0)
    case Some(k) => Cut(Trim(s[..k]), s[k + 1..])
    case None => Cut(Trim(s), "")
  }

  function ParseParams(rest: string, room: nat): Option<seq<Param>>
    decreases |rest|
  {
    if rest == "" then Some([])
    else
      var c := CutSegment(rest);
      match Find(c.segment, "=", 0)
      case None => None
      case Some(eq) =>
        if room == 0 then None
        else
          match ParseParams(c.rest, room - 1)
          case None => None
          case Some(ps) =>
            Some([Param(Trim(c.segment[..eq]), Trim(c.segment[eq + 1..]))] + ps)
  }

  function Parse(ct: string): Option<Ct> {
    match Find(ct, ";", 0)
    case None => Some(Ct(Trim(ct), []))
    case Some(k) =>
      match ParseParams(ct[k + 1..], MAX_PARAMS)
      case None => None
      case Some(ps) => Some(Ct(Trim(ct[..k]), ps))
  }

  /** The segments between semicolons, without outer blanks; nothing after a last semicolon is no segment. */
  function Segments(rest: string): seq<string>
    decreases |rest|
  {
    if rest == "" then []
    else
      var c := CutSegment(rest);
      [c.segment] + Segments(c.rest)
  }

  /** The segment is `name=value`, split at its first '='. */
  ghost predicate Segment(s: string, p: Param) {
    exists name, value ::
      s == name + "=" + value && '=' !in name && p == Param(Trim(name), Trim(value))
  }

  /** Parameters parse exactly when there is room for all segments and each has an '='; each is then one segment. */
  lemma {:induction false} ParamsExactly(rest: string, room: nat, ps: seq<Param>)
    ensures var ss := Segments(rest);
            ParseParams(rest, room) == Some(ps) <==>
              |ss| <= room && |ps| == |ss| && forall i | 0 <= i < |ss| :: Segment(ss[i], ps[i])
    decreases |rest|
  {
    hide CutSegment, Segment, Find, Trim;
    if rest != "" {
      var c := CutSegment(rest);
      SplitsOnce(c.segment);
      if room > 0 && ps != [] {
        ParamsExactly(c.rest, room - 1, ps[1..]);
        assert ps == [ps[0]] + ps[1..];
        assert Segments(rest)[1..] == Segments(c.rest);
        if |ps| == |Segments(rest)| {
          ParamsCons(c.segment, Segments(c.rest), ps);
        }
      }
    }
  }

  /** A text parses exactly when it has at most sixteen segments after the first ';', each with an '='. */
  lemma {:induction false} ParsesExactly(media: string, rest: string)
    requires ';' !in media
    ensures Parse(media) == Some(Ct(Trim(media), []))
    ensures var ss := Segments(rest);
            && (Parse(media + ";" + rest).Some? <==> |ss| <= 16 && forall i | 0 <= i < |ss| :: '=' in ss[i])
            && (Parse(media + ";" + rest).Some? ==>
                  var c := Parse(media + ";" + rest).value;
                  && c.media == Trim(media) && |c.params| == |ss|
                  && forall i | 0 <= i < |ss| :: Segment(ss[i], c.params[i]))
  {
    FindAbsent(media, ";");
    FindAfter(media, ";", rest);
    var text := media + ";" + rest;
    assert text[..|media|] == media && text[|media| + 1..] == rest;
    hide Find, Trim, Segment, Segments, ParseParams;
    ParamsParse(rest, MAX_PARAMS);
    if ParseParams(rest, MAX_PARAMS).Some? {
      ParamsExactly(rest, MAX_PARAMS, ParseParams(rest, MAX_PARAMS).value);
    }
  }

  lemma {:induction false} ParamsParse(rest: string, room: nat)
    ensures var ss := Segments(rest);
            ParseParams(rest, room).Some? <==> |ss| <= room && forall i | 0 <= i < |ss| :: '=' in ss[i]
    decreases |rest|
  {
    hide CutSegment, Trim;
    if rest != "" {
      var c := CutSegment(rest);
      BeforeFirst(c.segment, '=');
      assert ['='] == "=";
      hide Find;
      EachHasEquals(c.segment, Segments(c.rest));
      if room > 0 {
        ParamsParse(c.rest, room - 1);
      }
    }
  }

  lemma {:induction false} EachHasEquals(s: string, ss: seq<string>)
    ensures var all := [s] + ss;
            (forall i | 0 <= i < |all| :: '=' in all[i]) <==> '=' in s && forall i | 0 <= i < |ss| :: '=' in ss[i]
  {
    var all := [s] + ss;
    assert all[0] == s && forall i | 0 <= i < |ss| :: all[i + 1] == ss[i];
    if forall i | 0 <= i < |all| :: '=' in all[i] {
      forall i | 0 <= i < |ss|
        ensures '=' in ss[i]
      {
        assert '=' in all[i + 1];
      }
    }
  }

  lemma {:induction false} ParamsCons(s: string, ss: seq<string>, ps: seq<Param>)
    requires ps != [] && |ps| == |ss| + 1
    ensures (forall i | 0 <= i < |ps| :: Segment(([s] + ss)[i], ps[i])) <==>
              Segment(s, ps[0]) && forall i | 0 <= i < |ss| :: Segment(ss[i], ps[1..][i])
  {
    hide Segment;
    var all := [s] + ss;
    if Segment(s, ps[0]) && forall i | 0 <= i < |ss| :: Segment(ss[i], ps[1..][i]) {
      forall i | 0 <= i < |ps|
        ensures Segment(all[i], ps[i])
      {
        assert i > 0 ==> all[i] == ss[i - 1] && ps[i] == ps[1..][i - 1];
      }
    }
    if forall i | 0 <= i < |ps| :: Segment(all[i], ps[i]) {
      assert Segment(all[0], ps[0]);
      forall i | 0 <= i < |ss|
        ensures Segment(ss[i], ps[1..][i])
      {
        assert Segment(all[i + 1], ps[i + 1]);
      }
    }
  }

  lemma {:induction false} SplitsOnce(s: string)
    ensures match Find(s, "=", 0)
            case None => forall p :: !Segment(s, p)
            case Some(eq) =>
              eq < |s| && forall p :: Segment(s, p) <==> p == Param(Trim(s[..eq]), Trim(s[eq + 1..]))
  {
    BeforeFirst(s, '=');
    assert ['='] == "=";
    hide Find, Trim;
    forall name, value | s == name + "=" + value && '=' !in name
      ensures Find(s, "=", 0) == Some(|name|) && s[..|name|] == name && s[|name| + 1..] == value
    {
      FindAfter(name, "=", value);
    }
    if Find(s, "=", 0).Some? {
      var eq := Find(s, "=", 0).value;
      assert s == s[..eq] + "=" + s[eq + 1..];
      assert Segment(s, Param(Trim(s[..eq]), Trim(s[eq + 1..])));
    }
  }

  predicate Found(p: Param, ps: seq<Param>) {
    exists j | 0 <= j < |ps| :: IEquals(p.name, ps[j].name) && p.value == ps[j].value
  }

  /** The comparison of two parsed types: one-sided search, equal counts. */
  predicate Same(d: Ct, r: Ct) {
    && IEquals(d.media, r.media)
    && |d.params| == |r.params|
    && forall i | 0 <= i < |d.params| :: Found(d.params[i], r.params)
  }

  predicate Matches(declared: string, received: string) {
    Parse(declared).Some? && Parse(received).Some? && Same(Parse(declared).value, Parse(received).value)
  }

  /** content_type_matches, with its two nested loops over the parameters. */
  method ContentTypeMatches(declared: string, received: string) returns (ok: bool)
    ensures ok <==> Matches(declared, received)
  {
    hide Parse, IEquals;
    var d, r := Parse(declared), Parse(received);
    if d.None? || r.None? {
      return false;
    }
    if !IEquals(d.value.media, r.value.media) || |d.value.params| != |r.value.params| {
      return false;
    }
    for i := 0 to |d.value.params|
      invariant forall k | 0 <= k < i :: Found(d.value.params[k], r.value.params)
    {
      var p := d.value.params[i];
      var found, j := false, 0;
      while j < |r.value.params| && !found
        invariant 0 <= j <= |r.value.params|
        invariant found ==> Found(p, r.value.params)
        invariant !found ==> forall k | 0 <= k < j ::
                    !(IEquals(p.name, r.value.params[k].name) && p.value == r.value.params[k].value)
        decreases |r.value.params| - j, !found
      {
        found := IEquals(p.name, r.value.params[j].name) && p.value == r.value.params[j].value;
        j := j + 1;
      }
      if !found {
        return false;
      }
    }
    return true;
  }

  lemma {:induction false} FoundByKey(p: Param, c: Ct)
    ensures Found(p, c.params) <==> p.Key() in c.Keys()
  {
    forall q: Param
      ensures IEquals(p.name, q.name) && p.value == q.value <==> p.Key() == q.Key()
    {
      KeyEquality(p, q);
    }
    hide IEquals, Param.Key;
    if Found(p, c.params) {
      var j :| 0 <= j < |c.params| && IEquals(p.name, c.params[j].name) && p.value == c.params[j].value;
      assert c.Keys()[j] == p.Key();
    }
    if p.Key() in c.Keys() {
      var j :| 0 <= j < |c.Keys()| && c.Keys()[j] == p.Key();
      assert c.params[j].Key() == p.Key();
    }
  }

  lemma {:induction false} KeyEquality(p: Param, q: Param)
    ensures IEquals(p.name, q.name) && p.value == q.value <==> p.Key() == q.Key()
  {
    if IEquals(p.name, q.name) {
      assert LowerAll(p.name) == LowerAll(q.name);
    }
    if p.Key() == q.Key() {
      assert forall i | 0 <= i < |p.name| :: LowerAll(p.name)[i] == LowerAll(q.name)[i];
    }
  }

  /** Matching is a question about key lists only. */
  lemma {:induction false} SameByKeys(d: Ct, r: Ct)
    ensures Same(d, r) <==> IEquals(d.media, r.media) && |d.params| == |r.params|
                            && forall k | k in d.Keys() :: k in r.Keys()
  {
    hide IEquals, Param.Key, Found;
    forall i | 0 <= i < |d.params|
      ensures Found(d.params[i], r.params) <==> d.Keys()[i] in r.Keys()
    {
      FoundByKey(d.params[i], r);
    }
    if forall k | k in d.Keys() :: k in r.Keys() {
      forall i | 0 <= i < |d.params|
        ensures Found(d.params[i], r.params)
      {
        assert d.Keys()[i] in d.Keys();
      }
    }
  }

  lemma {:induction false} SameIsPreorder(a: Ct, b: Ct, c: Ct)
    ensures Same(a, a)
    ensures Same(a, b) && Same(b, c) ==> Same(a, c)
  {
  }

  /** Parameter order never matters. */
  lemma {:induction false} OrderInsensitive(d: Ct, r: Ct, r': Ct)
    requires r.media == r'.media && multiset(r.Keys()) == multiset(r'.Keys())
    ensures Same(d, r) <==> Same(d, r')
    ensures Same(r, d) <==> Same(r', d)
  {
    assert |r.Keys()| == |multiset(r.Keys())| == |multiset(r'.Keys())| == |r'.Keys()|;
    assert |r.params| == |r'.params|;
    SameByKeys(d, r);
    SameByKeys(d, r');
    SameByKeys(r, d);
    SameByKeys(r', d);
    hide Ct.Keys, Found;
    forall k
      ensures k in r.Keys() <==> k in r'.Keys()
    {
      assert k in multiset(r.Keys()) <==> k in multiset(r'.Keys());
    }
  }

  lemma {:induction false} SymmetricIf(d: Ct, r: Ct)
    requires Distinct(d.Keys()) && Same(d, r)
    ensures Same(r, d) && Distinct(r.Keys())
  {
    SameByKeys(d, r);
    SameByKeys(r, d);
    assert |d.Keys()| == |r.Keys()|;
    hide Ct.Keys, Found;
    Pigeonhole(d.Keys(), r.Keys());
  }

  function TotalLength(ps: seq<Param>): nat {
    if ps == [] then 0 else |ps[0].name| + TotalLength(ps[1..])
  }

  lemma {:induction false} TotalBounds(ps: seq<Param>, i: nat)
    requires i < |ps|
    ensures |ps[i].name| <= TotalLength(ps)
  {
    if i > 0 {
      TotalBounds(ps[1..], i - 1);
    }
  }

  /** A name longer than every name in the list. */
  function Longer(ps: seq<Param>): (r: string)
    ensures |r| == TotalLength(ps) + 1 && forall i | 0 <= i < |r| :: r[i] == 'x'
  {
    seq(TotalLength(ps) + 1, _ => 'x')
  }

  /** Repeating a parameter makes room for one the other side has never seen. */
  lemma {:induction false} AsymmetricPartner(d: Ct, i: nat, j: nat) returns (r: Ct)
    requires i < j < |d.params| && d.params[i].Key() == d.params[j].Key()
    ensures Same(d, r) && !Same(r, d)
    ensures r == d.(params := d.params[j := Param(Longer(d.params), "")])
  {
    r := Ct(d.media, d.params[j := Param(Longer(d.params), "")]);
    assert |r.params[j].Key().0| == TotalLength(d.params) + 1;
    hide Longer, Found;
    forall k | k in d.Keys()
      ensures k in r.Keys()
    {
      var n :| 0 <= n < |d.Keys()| && d.Keys()[n] == k;
      var m := if n == j then i else n;
      assert r.Keys()[m] == k;
    }
    SameByKeys(d, r);
    SameByKeys(r, d);
    forall n | 0 <= n < |d.Keys()|
      ensures d.Keys()[n] != r.Keys()[j]
    {
      TotalBounds(d.params, n);
      assert |d.Keys()[n].0| < |r.Keys()[j].0|;
    }
    assert r.Keys()[j] in r.Keys();
  }

  // ---- Parsed types as texts ------------------------------------------------

  predicate CleanParam(p: Param) {
    Trimmed(p.name) && Trimmed(p.value) && ';' !in p.name && '=' !in p.name && ';' !in p.value
  }

  /** What parsing yields, and what can be written so that it parses back. */
  ghost predicate Clean(c: Ct) {
    && Trimmed(c.media) && ';' !in c.media
    && |c.params| <= MAX_PARAMS
    && forall i | 0 <= i < |c.params| :: CleanParam(c.params[i])
  }

  function SegmentOf(p: Param): string {
    p.name + "=" + p.value
  }

  function Joined(ps: seq<Param>): string
    requires ps != []
  {
    if |ps| == 1 then SegmentOf(ps[0]) else SegmentOf(ps[0]) + ";" + Joined(ps[1..])
  }

  function TextOf(c: Ct): string {
    if c.params == [] then c.media else c.media + ";" + Joined(c.params)
  }

  lemma {:induction false} SegmentReads(p: Param)
    requires CleanParam(p)
    ensures var s := SegmentOf(p);
            && s != "" && Trim(s) == s && ';' !in s
            && Find(s, "=", 0) == Some(|p.name|)
            && s[..|p.name|] == p.name && s[|p.name| + 1..] == p.value
            && Trim(p.name) == p.name && Trim(p.value) == p.value
  {
    hide Find, Trim;
    var s := SegmentOf(p);
    FindAfter(p.name, "=", p.value);
    TrimIdle(p.name);
    TrimIdle(p.value);
    assert s[0] == (if p.name == "" then '=' else p.name[0]);
    assert s[|s| - 1] == (if p.value == "" then '=' else p.value[|p.value| - 1]);
    TrimIdle(s);
  }

  lemma {:induction false} CutJoined(ps: seq<Param>)
    requires ps != [] && CleanParam(ps[0])
    ensures Joined(ps) != ""
    ensures CutSegment(Joined(ps)) == Cut(SegmentOf(ps[0]), if |ps| == 1 then "" else Joined(ps[1..]))
  {
    hide Find, Trim, CleanParam;
    SegmentReads(ps[0]);
    var seg := SegmentOf(ps[0]);
    hide SegmentOf;
    if |ps| == 1 {
      FindAbsent(seg, ";");
    } else {
      var rest := Joined(ps[1..]);
      FindAfter(seg, ";", rest);
      assert Joined(ps)[..|seg|] == seg && Joined(ps)[|seg| + 1..] == rest;
    }
  }

  lemma {:induction false} ParseJoined(ps: seq<Param>, room: nat)
    requires 0 < |ps| <= room && forall i | 0 <= i < |ps| :: CleanParam(ps[i])
    ensures ParseParams(Joined(ps), room) == Some(ps)
    decreases |ps|
  {
    hide CutSegment, SegmentOf, CleanParam, Find, Trim;
    CutJoined(ps);
    SegmentReads(ps[0]);
    if |ps| > 1 {
      ParseJoined(ps[1..], room - 1);
    } else {
      assert ParseParams("", room - 1) == Some([]);
    }
    assert [ps[0]] + ps[1..] == ps;
  }

  /** Every clean type is the parse of its own text. */
  lemma {:induction false} ParseText(c: Ct)
    requires Clean(c)
    ensures Parse(TextOf(c)) == Some(c)
  {
    hide Find, Trim, CleanParam, Joined, ParseParams;
    TrimIdle(c.media);
    if c.params == [] {
      FindAbsent(c.media, ";");
    } else {
      var rest := Joined(c.params);
      FindAfter(c.media, ";", rest);
      ParseJoined(c.params, MAX_PARAMS);
      assert TextOf(c)[..|c.media|] == c.media && TextOf(c)[|c.media| + 1..] == rest;
    }
  }

  lemma {:induction false} TrimClean(s: string, c: char)
    requires c !in s
    ensures Trimmed(Trim(s)) && c !in Trim(s)
  {
    hide Trim;
    TrimSpan(s);
    TrimChars(s, c);
  }

  /** The text before the first `c` does not contain it. */
  lemma {:induction false} BeforeFirst(s: string, c: char)
    ensures match Find(s, [c], 0)
            case None => c !in s
            case Some(k) => k < |s| && s[k] == c && c !in s[..k]
  {
    var k := Find(s, [c], 0);
    if k.None? {
      forall i | 0 <= i < |s|
        ensures s[i] != c
      {
        assert !At(s, [c], i);
      }
    } else {
      FindBound(s, [c], 0);
      assert At(s, [c], k.value);
      assert s[k.value + 0] == [c][0];
      forall i | 0 <= i < k.value
        ensures s[i] != c
      {
        assert !At(s, [c], i);
      }
    }
  }

  lemma {:induction false} SegmentClean(rest: string)
    requires rest != ""
    ensures ';' !in CutSegment(rest).segment
  {
    hide Find, Trim;
    BeforeFirst(rest, ';');
    assert [';'] == ";";
    match Find(rest, ";", 0)
    case Some(k) => TrimClean(rest[..k], ';');
    case None => TrimClean(rest, ';');
  }

  lemma {:induction false} ParamClean(segment: string, eq: nat)
    requires ';' !in segment && Find(segment, "=", 0) == Some(eq)
    ensures eq < |segment| && CleanParam(Param(Trim(segment[..eq]), Trim(segment[eq + 1..])))
  {
    hide Find, Trim;
    assert ['='] == "=";
    BeforeFirst(segment, '=');
    TrimClean(segment[..eq], ';');
    TrimClean(segment[..eq], '=');
    TrimClean(segment[eq + 1..], ';');
  }

  lemma {:induction false} ParamsClean(rest: string, room: nat)
    requires ParseParams(rest, room).Some?
    ensures var ps := ParseParams(rest, room).value;
            |ps| <= room && forall i | 0 <= i < |ps| :: CleanParam(ps[i])
    decreases |rest|
  {
    hide CutSegment, CleanParam, Find, Trim;
    if rest != "" {
      var c := CutSegment(rest);
      SegmentClean(rest);
      var eq := Find(c.segment, "=", 0).value;
      ParamClean(c.segment, eq);
      ParamsClean(c.rest, room - 1);
    }
  }

  /** And parsing yields nothing else. */
  lemma {:induction false} ParsedClean(s: string)
    requires Parse(s).Some?
    ensures Clean(Parse(s).value)
  {
    hide Find, Trim, CleanParam, ParseParams;
    assert [';'] == ";";
    BeforeFirst(s, ';');
    match Find(s, ";", 0)
    case None => TrimClean(s, ';');
    case Some(k) =>
      TrimClean(s[..k], ';');
      ParamsClean(s[k + 1..], MAX_PARAMS);
  }

  lemma {:induction false} PartnerClean(d: Ct, j: nat)
    requires Clean(d) && j < |d.params|
    ensures Clean(d.(params := d.params[j := Param(Longer(d.params), "")]))
  {
    var name := Longer(d.params);
    assert forall c | c in name :: c == 'x';
    assert CleanParam(Param(name, ""));
    hide CleanParam, Longer;
  }

  /** A received text that a declared one matches and that does not match it back. */
  lemma {:induction false} OneWay(d: string) returns (r: string)
    requires Parse(d).Some? && !Distinct(Parse(d).value.Keys())
    ensures Matches(d, r) && !Matches(r, d)
  {
    hide Parse, Same, Clean;
    var c := Parse(d).value;
    var i, j :| 0 <= i < j < |c.Keys()| && c.Keys()[i] == c.Keys()[j];
    assert c.params[i].Key() == c.params[j].Key();
    ParsedClean(d);
    var partner := AsymmetricPartner(c, i, j);
    PartnerClean(c, j);
    ParseText(partner);
    r := TextOf(partner);
  }

  /** The one-sided search is symmetric for a declared type exactly when it repeats no parameter. */
  lemma {:induction false} SymmetricIff(d: string)
    requires Parse(d).Some?
    ensures (forall r: string :: Matches(d, r) ==> Matches(r, d)) <==> Distinct(Parse(d).value.Keys())
  {
    hide Parse, Same;
    if Distinct(Parse(d).value.Keys()) {
      forall r: string | Matches(d, r)
        ensures Matches(r, d)
      {
        SymmetricIf(Parse(d).value, Parse(r).value);
      }
    } else {
      var r := OneWay(d);
    }
  }

  lemma {:induction false} TwoParams(m: char, a: char, v: char, b: char, w: char)
    requires !Ws(m) && !Ws(a) && !Ws(v) && !Ws(b) && !Ws(w)
    requires ';' !in [m, a, v, b, w] && '=' !in [a, b]
    ensures Parse([m, ';', a, '=', v, ';', b, '=', w]) == Some(Ct([m], [Param([a], [v]), Param([b], [w])]))
  {
    hide Parse;
    var p, q := Param([a], [v]), Param([b], [w]);
    var c := Ct([m], [p, q]);
    assert SegmentOf(p) == [a, '=', v] && SegmentOf(q) == [b, '=', w];
    assert [p, q][1..] == [q];
    assert Joined([p, q]) == [a, '=', v, ';', b, '=', w];
    assert TextOf(c) == [m, ';', a, '=', v, ';', b, '=', w];
    assert CleanParam(p) && CleanParam(q);
    hide TextOf, CleanParam;
    ParseText(c);
  }

  /** The smallest such case as texts. */
  lemma {:induction false} RepeatedParameterOneWay()
    ensures Matches("a;x=1;x=1", "a;x=1;y=2") && !Matches("a;x=1;y=2", "a;x=1;x=1")
  {
    hide Parse;
    TwoParams('a', 'x', '1', 'x', '1');
    TwoParams('a', 'x', '1', 'y', '2');
    var x, y := Param("x", "1"), Param("y", "2");
    assert IEquals(x.name, [x, y][0].name);
    assert Found(x, [x, y]);
    assert !Found(y, [x, x]);
    assert [x, x][0] == x && [x, x][1] == x && [x, y][1] == y;
    hide Found;
  }

  /**
   * On texts: matching is reflexive where it parses, transitive, and symmetric between types that
   * repeat no parameter; a match of such a type repeats none either.
   */
  lemma {:induction false} MatchesIsEquivalence(a: string, b: string, c: string)
    ensures Matches(a, a) <==> Parse(a).Some?
    ensures Matches(a, b) && Matches(b, c) ==> Matches(a, c)
    ensures Matches(a, b) && Distinct(Parse(a).value.Keys()) ==> Matches(b, a) && Distinct(Parse(b).value.Keys())
  {
    hide Parse, Same;
    if Parse(a).Some? {
      var x := Parse(a).value;
      SameIsPreorder(x, x, x);
      if Parse(b).Some? {
        var y := Parse(b).value;
        if Same(x, y) && Distinct(x.Keys()) {
          SymmetricIf(x, y);
        }
        if Parse(c).Some? {
          SameIsPreorder(x, y, Parse(c).value);
        }
      }
    }
  }

  /** On texts: reordering the parameters of either side does not change the answer. */
  lemma {:induction false} MatchesIgnoresOrder(d: string, r: string, r': string)
    requires Parse(r).Some? && Parse(r').Some? && Parse(r).value.media == Parse(r').value.media
    requires multiset(Parse(r).value.Keys()) == multiset(Parse(r').value.Keys())
    ensures Matches(d, r) <==> Matches(d, r')
    ensures Matches(r, d) <==> Matches(r', d)
  {
    hide Parse, Same;
    if Parse(d).Some? {
      OrderInsensitive(Parse(d).value, Parse(r).value, Parse(r').value);
    }
  }
}
