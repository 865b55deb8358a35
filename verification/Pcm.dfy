/** PCM content types and the sample-based offset increment. */
module Pcm {
  import opened Text
  import opened Decimal
  import opened ContentType
  import Message

  datatype PcmParams = PcmParams(rate: nat, channels: nat, bits: nat) {
    predicate Usable() {
      rate <= MAX_U32 && 0 < channels <= MAX_U16 && 0 < bits <= MAX_U16 && bits % 8 == 0
    }
  }

  /** What one parameter of a PCM content type contributes. */
  datatype Part = Rate(n: nat) | Channels(n: nat) | Bits(n: nat) | Ignored | Bad

  function Numeric(text: string, max: nat, make: nat -> Part): Part {
    match Read(text, max)
    case Some(n) => make(n)
    case None => Bad
  }

  function Classify(parameter: string): Part {
    match Find(parameter, "=", 0)
    case None => Bad
    case Some(eq) =>
      var key, number := Trim(parameter[..eq]), Trim(parameter[eq + 1..]);
      if !Message.ValidName(key) then Bad
      else if IEquals(key, "rate") then Numeric(number, MAX_U32, (n: nat) => Rate(n))
      else if IEquals(key, "channels") then Numeric(number, MAX_U16, (n: nat) => Channels(n))
      else if IEquals(key, "bits") then Numeric(number, MAX_U16, (n: nat) => Bits(n))
      else Ignored
  }

  /** The three parameters as found so far. */
  datatype Acc = Acc(rate: Option<nat>, channels: Option<nat>, bits: Option<nat>)

  const EMPTY := Acc(None, None, None)

  /** One turn of the parameter loop; a bad or repeated parameter fails for good. */
  function Take(acc: Option<Acc>, p: Part): Option<Acc> {
    match (acc, p)
    case (Some(a), Rate(n)) => if a.rate.Some? then None else Some(a.(rate := Some(n)))
    case (Some(a), Channels(n)) => if a.channels.Some? then None else Some(a.(channels := Some(n)))
    case (Some(a), Bits(n)) => if a.bits.Some? then None else Some(a.(bits := Some(n)))
    case (Some(a), Ignored) => Some(a)
    case _ => None
  }

  function TakeAll(acc: Option<Acc>, ps: seq<string>): Option<Acc>
    decreases |ps|
  {
    if ps == [] then acc else TakeAll(Take(acc, Classify(ps[0])), ps[1..])
  }

  function Finish(acc: Option<Acc>): (r: Option<PcmParams>) {
    match acc
    case Some(Acc(Some(rate), Some(channels), Some(bits))) =>
      if channels == 0 || bits == 0 || bits % 8 != 0 then None
      else Some(PcmParams(rate, channels, bits))
    case _ => None
  }

  /** The text of a content type before and after its first ';'. */
  function MediaOf(contentType: string): string {
    var value := Trim(contentType);
    match Find(value, ";", 0) case Some(semi) => Trim(value[..semi]) case None => Trim(value)
  }

  function ParametersOf(contentType: string): seq<string> {
    var value := Trim(contentType);
    match Find(value, ";", 0) case Some(semi) => Segments(value[semi + 1..]) case None => []
  }

  /** parse_content_type, as far as PCM: the parameters of a well-formed audio/pcm type. */
  function PcmOf(contentType: string): Option<PcmParams> {
    var media := MediaOf(contentType);
    match Find(media, "/", 0)
    case None => None
    case Some(slash) =>
      if IEquals(Trim(media[..slash]), "audio") && IEquals(Trim(media[slash + 1..]), "pcm") then
        Finish(TakeAll(Some(EMPTY), ParametersOf(contentType)))
      else None
  }

  // ---- Parameter order ------------------------------------------------------

  lemma {:induction false} TakeCommutes(acc: Option<Acc>, p: Part, q: Part)
    ensures Take(Take(acc, p), q) == Take(Take(acc, q), p)
  {
  }

  lemma {:induction false} TakeAnyFirst(acc: Option<Acc>, ps: seq<string>, i: nat)
    requires i < |ps|
    ensures TakeAll(acc, ps) == TakeAll(Take(acc, Classify(ps[i])), ps[..i] + ps[i + 1..])
    decreases |ps|
  {
    hide Classify, Take;
    if i == 0 {
      assert ps[..0] + ps[1..] == ps[1..];
    } else {
      var rest, others := ps[1..], ps[..i] + ps[i + 1..];
      TakeAnyFirst(Take(acc, Classify(ps[0])), rest, i - 1);
      TakeCommutes(acc, Classify(ps[0]), Classify(ps[i]));
      assert rest[..i - 1] + rest[i..] == others[1..];
    }
  }

  lemma {:induction false} RemoveAt(qs: seq<string>, i: nat)
    requires i < |qs|
    ensures multiset(qs[..i] + qs[i + 1..]) == multiset(qs) - multiset{qs[i]}
  {
    assert qs == qs[..i] + [qs[i]] + qs[i + 1..];
  }

  lemma {:induction false} TakeAllPermutes(acc: Option<Acc>, ps: seq<string>, qs: seq<string>)
    requires multiset(ps) == multiset(qs)
    ensures TakeAll(acc, ps) == TakeAll(acc, qs)
    decreases |ps|
  {
    hide Classify, Take;
    if ps == [] {
      assert |qs| == |multiset(qs)| == 0;
    } else {
      assert ps == [ps[0]] + ps[1..];
      assert ps[0] in multiset(qs);
      var i :| 0 <= i < |qs| && qs[i] == ps[0];
      TakeAnyFirst(acc, qs, i);
      var others := qs[..i] + qs[i + 1..];
      RemoveAt(qs, i);
      RemoveAt(ps, 0);
      assert ps[..0] + ps[1..] == ps[1..];
      TakeAllPermutes(Take(acc, Classify(ps[0])), ps[1..], others);
    }
  }

  /** Two content types that differ in the order of their parameters yield the same PCM data, or both none. */
  lemma {:induction false} PcmOrderInsensitive(a: string, b: string)
    requires MediaOf(a) == MediaOf(b) && multiset(ParametersOf(a)) == multiset(ParametersOf(b))
    ensures PcmOf(a) == PcmOf(b)
  {
    hide MediaOf, ParametersOf, TakeAll;
    TakeAllPermutes(Some(EMPTY), ParametersOf(a), ParametersOf(b));
  }

  ghost predicate InRange(acc: Acc) {
    && (acc.rate.Some? ==> acc.rate.value <= MAX_U32)
    && (acc.channels.Some? ==> acc.channels.value <= MAX_U16)
    && (acc.bits.Some? ==> acc.bits.value <= MAX_U16)
  }

  lemma {:induction false} TakeAllInRange(acc: Acc, ps: seq<string>)
    requires InRange(acc) && TakeAll(Some(acc), ps).Some?
    ensures InRange(TakeAll(Some(acc), ps).value)
    decreases |ps|
  {
    if ps != [] {
      var p := Classify(ps[0]);
      TakeNone(ps[1..]);
      assert Take(Some(acc), p).Some?;
      ClassifyInRange(ps[0]);
      TakeAllInRange(Take(Some(acc), p).value, ps[1..]);
    }
  }

  lemma {:induction false} TakeNone(ps: seq<string>)
    ensures TakeAll(None, ps) == None
  {
    if ps != [] {
      TakeNone(ps[1..]);
    }
  }

  lemma {:induction false} ClassifyInRange(p: string)
    ensures match Classify(p)
            case Rate(n) => n <= MAX_U32
            case Channels(n) => n <= MAX_U16
            case Bits(n) => n <= MAX_U16
            case _ => true
  {
  }

  /** A stream registered with PCM parameters has usable ones. */
  lemma {:induction false} PcmUsable(contentType: string)
    requires PcmOf(contentType).Some?
    ensures PcmOf(contentType).value.Usable()
  {
    hide Find, Trim, IEquals, MediaOf, ParametersOf;
    TakeAllInRange(EMPTY, ParametersOf(contentType));
  }

  /** What is left of a text from a cursor that may stand one past its end. */
  function Rest(value: string, cursor: nat): string {
    if cursor < |value| then value[cursor..] else ""
  }

  /** Where the segment at the cursor ends. */
  function EndOf(value: string, cursor: nat): (r: nat)
    ensures cursor < |value| ==> cursor <= r <= |value|
  {
    match Find(value, ";", cursor)
    case Some(k) => k
    case None => |value|
  }

  lemma {:induction false} RestFrom(value: string, cursor: nat)
    ensures cursor <= |value| ==> Rest(value, cursor) == value[cursor..]
    ensures cursor >= |value| ==> Rest(value, cursor) == ""
    ensures cursor < |value| ==> Rest(value, cursor) != ""
  {
  }

  lemma {:induction false} CutRest(value: string, cursor: nat)
    requires cursor < |value|
    ensures var end := EndOf(value, cursor);
            && Rest(value, cursor) != "" && cursor <= end <= |value|
            && CutSegment(Rest(value, cursor)) == Cut(Trim(value[cursor..end]), Rest(value, end + 1))
  {
    hide Find, At, Trim, CutSegment, Rest;
    CutFrom(value, cursor);
    RestFrom(value, cursor);
    RestFrom(value, EndOf(value, cursor) + 1);
    if Find(value, ";", cursor).Some? {
      FindBound(value, ";", cursor);
    } else {
      assert value[cursor..] == value[cursor..|value|];
    }
  }

  lemma {:induction false} TakeSegment(rest: string, acc: Option<Acc>)
    requires rest != ""
    ensures var c := CutSegment(rest);
            TakeAll(acc, Segments(rest)) == TakeAll(Take(acc, Classify(c.segment)), Segments(c.rest))
  {
    hide CutSegment, Take, Classify;
    var c := CutSegment(rest);
    assert ([c.segment] + Segments(c.rest))[1..] == Segments(c.rest);
  }

  lemma {:induction false} NextSegment(value: string, cursor: nat, acc: Option<Acc>)
    requires cursor < |value|
    ensures var end := EndOf(value, cursor);
            && cursor <= end <= |value|
            && TakeAll(acc, Segments(Rest(value, cursor))) ==
               TakeAll(Take(acc, Classify(Trim(value[cursor..end]))), Segments(Rest(value, end + 1)))
  {
    hide EndOf, Rest, Trim, CutSegment, Take, TakeAll, Classify, Segments;
    CutRest(value, cursor);
    TakeSegment(Rest(value, cursor), acc);
  }

  /** The parameter loop of parse_content_type, with its cursor. */
  method ParseParameters(value: string, start: nat) returns (r: Option<PcmParams>)
    requires start <= |value|
    ensures r == Finish(TakeAll(Some(EMPTY), Segments(value[start..])))
  {
    hide Classify, Take, TakeAll, Segments, Finish, EndOf, Trim, Rest;
    RestFrom(value, start);
    var acc := EMPTY;
    var cursor := start;
    while cursor < |value|
      invariant TakeAll(Some(EMPTY), Segments(value[start..])) == TakeAll(Some(acc), Segments(Rest(value, cursor)))
      decreases |value| - cursor
    {
      NextSegment(value, cursor, Some(acc));
      var next := EndOf(value, cursor);
      var taken := Take(Some(acc), Classify(Trim(value[cursor..next])));
      if taken.None? {
        TakeNone(Segments(Rest(value, next + 1)));
        FinishNone();
        return None;
      }
      acc := taken.value;
      cursor := next + 1;
    }
    RestFrom(value, cursor);
    TakeNothing(Some(acc));
    return Finish(Some(acc));
  }

  lemma {:induction false} TakeNothing(acc: Option<Acc>)
    ensures TakeAll(acc, Segments("")) == acc
  {
  }

  lemma {:induction false} FinishNone()
    ensures Finish(None) == None
  {
  }

  lemma {:induction false} CutFrom(s: string, from: nat)
    requires from < |s|
    ensures CutSegment(s[from..])
         == match Find(s, ";", from)
            case Some(k) => Cut(Trim(s[from..k]), s[k + 1..])
            case None => Cut(Trim(s[from..]), "")
  {
    hide Trim, Find, At, CutSegment;
    if Find(s, ";", from).Some? {
      FindBound(s, ";", from);
      CutAt(s, from, Find(s, ";", from).value);
    } else {
      CutEnd(s, from);
    }
  }

  lemma {:induction false} CutAt(s: string, from: nat, k: nat)
    requires from <= k < |s| && Find(s, ";", from) == Some(k)
    ensures CutSegment(s[from..]) == Cut(Trim(s[from..k]), s[k + 1..])
  {
    hide Trim, Find, At;
    FindShift(s, ";", from);
    Suffix(s, from, k);
  }

  lemma {:induction false} CutEnd(s: string, from: nat)
    requires from < |s| && Find(s, ";", from) == None
    ensures CutSegment(s[from..]) == Cut(Trim(s[from..]), "")
  {
    hide Trim, Find, At;
    FindShift(s, ";", from);
  }

  lemma {:induction false} Suffix(s: string, from: nat, e: nat)
    requires from <= e < |s|
    ensures s[from..][..e - from] == s[from..e]
    ensures s[from..][e - from + 1..] == s[e + 1..]
  {
  }

  // ---- Increments -----------------------------------------------------------

  /** compute_pcm_increment. */
  function PcmIncrement(bytes: nat, p: PcmParams): Option<nat> {
    if p.channels == 0 || p.bits == 0 || p.bits % 8 != 0 then None
    else Some(bytes / (p.channels * (p.bits / 8)))
  }

  function Stride(p: PcmParams): nat {
    p.channels * (p.bits / 8)
  }

  /** Usable parameters give an increment for every payload length, the whole samples it holds. */
  lemma {:induction false} UsableIncrement(bytes: nat, p: PcmParams)
    requires p.Usable()
    ensures Stride(p) > 0 && PcmIncrement(bytes, p).Some?
    ensures var n := PcmIncrement(bytes, p).value; n * Stride(p) <= bytes < (n + 1) * Stride(p)
  {
  }

  lemma {:induction false} DivBounds(a: nat, s: nat)
    requires s > 0
    ensures (a / s) * s <= a < (a / s + 1) * s
    ensures (a / s) * s == a <==> a % s == 0
    ensures a - (a / s) * s == a % s
  {
  }

  // ---- Reading back ---------------------------------------------------------

  /** A segment such as the parser leaves: no outer blanks, no ';', not empty. */
  predicate Bare(s: string) {
    s != "" && Trimmed(s) && ';' !in s
  }

  lemma {:induction false} SegmentsFirst(s: string, rest: string)
    requires Bare(s)
    ensures Segments(s) == [s] && Segments(s + ";" + rest) == [s] + Segments(rest)
  {
    TrimIdle(s);
    FindAbsent(s, ";");
    FindAfter(s, ";", rest);
    var text := s + ";" + rest;
    assert text[..|s|] == s && text[|s| + 1..] == rest;
    hide Find, Trim;
    assert Segments("") == [];
  }

  lemma {:induction false} DigitsBare(n: nat)
    ensures var s := Render(n); s != "" && (forall i | 0 <= i < |s| :: '0' <= s[i] <= '9')
  {
    RenderReads(n);
    DigitsEach(Render(n));
  }

  lemma {:induction false} DigitsEach(s: string)
    requires AllDigits(s)
    ensures forall i | 0 <= i < |s| :: '0' <= s[i] <= '9'
  {
    if s != "" {
      var init := s[..|s| - 1];
      assert s[..|s|] == s;
      DigitsPrefix(s, |s| - 1);
      DigitsEach(init);
      DigitsSplit(s, |s| - 1);
    }
  }

  /** `key=n`. */
  function Setting(key: string, n: nat): string {
    key + "=" + Render(n)
  }

  predicate LowerCase(key: string) {
    key != "" && forall i | 0 <= i < |key| :: 'a' <= key[i] <= 'z'
  }

  /** A setting is one bare segment, split at its '=' with nothing to trim. */
  lemma {:induction false} SettingSplits(key: string, n: nat)
    requires LowerCase(key)
    ensures var s := Setting(key, n);
            && Bare(s) && Find(s, "=", 0) == Some(|key|)
            && Trim(s[..|key|]) == key && Trim(s[|key| + 1..]) == Render(n)
  {
    hide Find, Trim, Render;
    DigitsBare(n);
    var s, digits := key + "=" + Render(n), Render(n);
    FindAfter(key, "=", digits);
    TrimIdle(key);
    TrimIdle(digits);
    assert s[..|key|] == key && s[|key| + 1..] == digits;
    assert s[0] == key[0] && s[|s| - 1] == digits[|digits| - 1];
    assert forall i | 0 <= i < |s| :: s[i] != ';';
  }

  lemma {:induction false} LowerValid(key: string)
    requires LowerCase(key)
    ensures Message.ValidName(key)
  {
    Message.TokensAll(key);
  }

  lemma {:induction false} ReadRendered(n: nat, max: nat)
    ensures Read(Render(n), max) == if n <= max then Some(n) else None
  {
    if n <= max {
      ReadExactly(Render(n), max, n);
    } else if Read(Render(n), max).Some? {
      var m := Read(Render(n), max).value;
      ReadExactly(Render(n), max, m);
      RenderReads(n);
      RenderReads(m);
    }
  }

  lemma {:induction false} KeysDiffer()
    ensures LowerCase("rate") && LowerCase("channels") && LowerCase("bits")
    ensures IEquals("rate", "rate") && IEquals("channels", "channels") && IEquals("bits", "bits")
    ensures !IEquals("channels", "rate") && !IEquals("bits", "rate") && !IEquals("bits", "channels")
  {
    assert Lower("bits"[0]) == 'b' && Lower("rate"[0]) == 'r';
  }

  lemma {:induction false} Classified(n: nat)
    ensures Classify(Setting("rate", n)) == if n <= MAX_U32 then Rate(n) else Bad
    ensures Classify(Setting("channels", n)) == if n <= MAX_U16 then Channels(n) else Bad
    ensures Classify(Setting("bits", n)) == if n <= MAX_U16 then Bits(n) else Bad
  {
    hide Find, Trim, Message.ValidName, Setting, Read, LowerCase, IEquals, Bare;
    KeysDiffer();
    SettingSplits("rate", n);
    SettingSplits("channels", n);
    SettingSplits("bits", n);
    LowerValid("rate");
    LowerValid("channels");
    LowerValid("bits");
    ReadRendered(n, MAX_U32);
    ReadRendered(n, MAX_U16);
  }

  /** A parameter of another name changes nothing, and one without '=' or with an invalid name is an error. */
  lemma {:induction false} OtherParameter(name: string, value: string, acc: Option<Acc>)
    requires Trimmed(name) && '=' !in name
    ensures Message.ValidName(name)
            && !IEquals(name, "rate") && !IEquals(name, "channels") && !IEquals(name, "bits") ==>
              Take(acc, Classify(name + "=" + value)) == acc
    ensures !Message.ValidName(name) ==> Take(acc, Classify(name + "=" + value)) == None
    ensures Take(acc, Classify(name)) == None
  {
    TrimIdle(name);
    FindAfter(name, "=", value);
    FindAbsent(name, "=");
    var text := name + "=" + value;
    assert text[..|name|] == name;
    hide Find, Trim, IEquals, Message.ValidName, Numeric;
  }

  /** The text of PCM parameters: `audio/pcm;rate=R;channels=C;bits=B`. */
  function PcmText(rate: nat, channels: nat, bits: nat): string {
    "audio/pcm" + ";" + (Setting("rate", rate) + ";" + (Setting("channels", channels) + ";" + Setting("bits", bits)))
  }

  /**
   * `audio/pcm;rate=R;channels=C;bits=B` yields exactly R, C and B, and is refused exactly when one is
   * out of range, channels or bits are zero, or bits are not whole bytes. By PcmOrderInsensitive the
   * same holds in any other order.
   */
  lemma {:induction false} PcmReadsBack(rate: nat, channels: nat, bits: nat)
    ensures PcmOf(PcmText(rate, channels, bits)) ==
              if rate <= MAX_U32 && 0 < channels <= MAX_U16 && 0 < bits <= MAX_U16 && bits % 8 == 0
              then Some(PcmParams(rate, channels, bits)) else None
  {
    hide Classify, TakeAll, MediaOf, ParametersOf, Find, Trim, IEquals, Setting;
    PcmTextParts(rate, channels, bits);
    Classified(rate);
    Classified(channels);
    Classified(bits);
    ThreeTaken(Setting("rate", rate), Setting("channels", channels), Setting("bits", bits));
    MediaIsPcm();
  }

  lemma {:induction false} ThreeTaken(r: string, c: string, b: string)
    ensures TakeAll(Some(EMPTY), [r, c, b]) ==
              Take(Take(Take(Some(EMPTY), Classify(r)), Classify(c)), Classify(b))
  {
    hide Classify, Take;
    assert [r, c, b][1..] == [c, b] && [c, b][1..] == [b] && [b][1..] == [];
    var one := Take(Some(EMPTY), Classify(r));
    var two := Take(one, Classify(c));
    assert TakeAll(two, [b]) == TakeAll(Take(two, Classify(b)), []);
    assert TakeAll(one, [c, b]) == TakeAll(two, [b]);
  }

  lemma {:induction false} MediaIsPcm()
    ensures Find("audio/pcm", "/", 0) == Some(5)
    ensures IEquals(Trim("audio/pcm"[..5]), "audio") && IEquals(Trim("audio/pcm"[6..]), "pcm")
  {
    FindAfter("audio", "/", "pcm");
    assert "audio" + "/" + "pcm" == "audio/pcm";
    assert "audio/pcm"[..5] == "audio" && "audio/pcm"[6..] == "pcm";
    TrimIdle("audio");
    TrimIdle("pcm");
  }

  lemma {:induction false} MediaThenRest(media: string, rest: string)
    requires Bare(media) && rest != "" && rest[|rest| - 1] != ' ' && rest[|rest| - 1] != '\t'
    ensures MediaOf(media + ";" + rest) == media && ParametersOf(media + ";" + rest) == Segments(rest)
  {
    var text := media + ";" + rest;
    assert text[0] == media[0] && text[|text| - 1] == rest[|rest| - 1];
    TrimIdle(text);
    TrimIdle(media);
    FindAfter(media, ";", rest);
    assert text[..|media|] == media && text[|media| + 1..] == rest;
    hide Find, Trim, Segments;
  }

  lemma {:induction false} PcmTextParts(rate: nat, channels: nat, bits: nat)
    ensures var text := PcmText(rate, channels, bits);
            && MediaOf(text) == "audio/pcm"
            && ParametersOf(text) == [Setting("rate", rate), Setting("channels", channels), Setting("bits", bits)]
  {
    hide Segments, MediaOf, ParametersOf, Setting, Find, Trim, LowerCase, IEquals;
    var r, c, b := Setting("rate", rate), Setting("channels", channels), Setting("bits", bits);
    KeysDiffer();
    SettingSplits("rate", rate);
    SettingSplits("channels", channels);
    SettingSplits("bits", bits);
    SegmentsFirst(r, c + ";" + b);
    SegmentsFirst(c, b);
    SegmentsFirst(b, "");
    assert [r] + ([c] + [b]) == [r, c, b];
    var rest := r + ";" + (c + ";" + b);
    assert rest[|rest| - 1] == b[|b| - 1];
    MediaThenRest("audio/pcm", rest);
  }
}
