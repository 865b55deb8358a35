/** Frame headers: the parser and the grammar it decides. */
module Message {
  import opened Text

  datatype Error =
    | MissingHeaderTerminator
    | HeaderBlockTooLarge
    | InvalidHeaderLine
    | InvalidHeaderName
    | InvalidHeaderValue
    | DuplicateHeader
    | BufferTooSmall

  datatype Limits = Limits(block: nat, value: nat, count: nat)

  const DEFAULT_LIMITS := Limits(8192, 4096, 64)

  const RESERVED_NAMES: seq<string> := [
    "Event", "Content-Type", "Authorization", "Session-Id", "Stream-Id",
    "Offset", "Timestamp", "Buffer-Window", "Reason", "Code"
  ]

  /** The optional slots of a parsed frame, by index in RESERVED_NAMES. */
  type Slots = map<nat, string>

  datatype Parsed = Parsed(block: string, body: string, slots: Slots)

  // ---- Characters and names -------------------------------------------------

  /** tchar of section 5.6.2 of RFC 9110. */
  predicate IsToken(c: char) {
    || '0' <= c <= '9' || 'A' <= c <= 'Z' || 'a' <= c <= 'z'
    || c == '!' || c == '#' || c == '$' || c == '%' || c == '&' || c == '\'' || c == '*' || c == '+'
    || c == '-' || c == '.' || c == '^' || c == '_' || c == '`' || c == '|' || c == '~'
  }

  /** That is, the visible characters but the delimiters of that section. */
  lemma {:induction false} TokenExactly(c: char)
    ensures IsToken(c) <==> '!' <= c <= '~' && c !in "\"(),/:;<=>?@[\\]{}"
  {
  }

  predicate AllTokens(s: string) {
    s == "" || (IsToken(s[0]) && AllTokens(s[1..]))
  }

  lemma {:induction false} TokensOnly(s: string, c: char)
    requires AllTokens(s) && !IsToken(c)
    ensures c !in s
  {
    if s != "" {
      TokensOnly(s[1..], c);
    }
  }

  predicate ValidName(s: string) {
    s != "" && AllTokens(s)
  }

  predicate ValidValue(s: string) {
    '\r' !in s && '\n' !in s && '\0' !in s
  }

  /** A value is any text without line ends and NUL. */
  lemma {:induction false} ValueExactly(s: string)
    ensures ValidValue(s) <==> forall i | 0 <= i < |s| :: s[i] != '\r' && s[i] != '\n' && s[i] != '\0'
  {
  }

  /** The slot of a header name, ignoring case. */
  function ReservedOf(name: string): Option<nat> {
    ReservedFrom(name, 0)
  }

  function ReservedFrom(name: string, i: nat): Option<nat>
    decreases |RESERVED_NAMES| - i
  {
    if i >= |RESERVED_NAMES| then None
    else if IEquals(name, RESERVED_NAMES[i]) then Some(i)
    else ReservedFrom(name, i + 1)
  }

  /** The reserved names differ pairwise, ignoring case: seven have lengths of their own. */
  lemma {:induction false} ReservedDistinct(i: nat, j: nat)
    requires i < j < |RESERVED_NAMES|
    ensures !IEquals(RESERVED_NAMES[i], RESERVED_NAMES[j])
  {
    assert |RESERVED_NAMES[1]| == 12 && |RESERVED_NAMES[2]| == 13 && |RESERVED_NAMES[7]| == 13;
    assert Lower(RESERVED_NAMES[2][0]) == 'a' && Lower(RESERVED_NAMES[7][0]) == 'b';
    assert Lower(RESERVED_NAMES[4][1]) == 't' && Lower(RESERVED_NAMES[6][1]) == 'i';
    assert Lower(RESERVED_NAMES[5][0]) == 'o' && Lower(RESERVED_NAMES[8][0]) == 'r';
  }

  lemma {:induction false} IEqualsJoins(a: string, b: string, c: string)
    requires IEquals(a, b) && IEquals(a, c)
    ensures IEquals(b, c)
  {
  }

  lemma {:induction false} ReservedFinds(name: string, i: nat, k: nat)
    requires i <= k < |RESERVED_NAMES| && IEquals(name, RESERVED_NAMES[k])
    ensures ReservedFrom(name, i) == Some(k)
    decreases k - i
  {
    if i < k {
      if IEquals(name, RESERVED_NAMES[i]) {
        IEqualsJoins(name, RESERVED_NAMES[i], RESERVED_NAMES[k]);
        ReservedDistinct(i, k);
        assert false;
      }
      hide IEquals;
      ReservedFinds(name, i + 1, k);
    }
  }

  lemma {:induction false} ReservedOnly(name: string, i: nat)
    requires ReservedFrom(name, i).Some?
    ensures var k := ReservedFrom(name, i).value; i <= k < |RESERVED_NAMES| && IEquals(name, RESERVED_NAMES[k])
    decreases |RESERVED_NAMES| - i
  {
    hide IEquals;
    if !IEquals(name, RESERVED_NAMES[i]) {
      ReservedOnly(name, i + 1);
    }
  }

  /** The name is the k-th reserved one, ignoring case. */
  predicate Named(name: string, k: nat) {
    k < |RESERVED_NAMES| && IEquals(name, RESERVED_NAMES[k])
  }

  /** A name has slot `k` exactly when it is the k-th reserved name, ignoring case. */
  lemma {:induction false} ReservedExactly(name: string, k: nat)
    ensures ReservedOf(name) == Some(k) <==> Named(name, k)
  {
    hide IEquals, ReservedFrom;
    if k < |RESERVED_NAMES| && IEquals(name, RESERVED_NAMES[k]) {
      ReservedFinds(name, 0, k);
    }
    if ReservedOf(name) == Some(k) {
      ReservedOnly(name, 0);
    }
  }

  /** Letters and hyphens only. */
  predicate Letters(s: string) {
    forall i | 0 <= i < |s| :: s[i] == '-' || 'A' <= s[i] <= 'Z' || 'a' <= s[i] <= 'z'
  }

  lemma {:induction false} LettersValid(s: string)
    requires s != "" && Letters(s)
    ensures ValidName(s)
  {
    TokensAll(s);
  }

  lemma {:induction false} ShortNames()
    ensures Letters("Event") && Letters("Offset") && Letters("Reason") && Letters("Code") && Letters("Timestamp")
  {
  }

  lemma {:induction false} LongNames()
    ensures Letters("Content-Type") && Letters("Authorization") && Letters("Session-Id")
    ensures Letters("Stream-Id") && Letters("Buffer-Window")
  {
  }

  /** Every reserved name can be written as a header. */
  lemma {:induction false} ReservedValid(k: nat)
    requires k < |RESERVED_NAMES|
    ensures ValidName(RESERVED_NAMES[k])
  {
    hide Letters, ValidName;
    ShortNames();
    LongNames();
    LettersValid(RESERVED_NAMES[k]);
  }

  lemma {:induction false} TokensAll(s: string)
    ensures AllTokens(s) <==> forall i | 0 <= i < |s| :: IsToken(s[i])
  {
    hide IsToken;
    if s != "" {
      TokensAll(s[1..]);
      assert forall i | 1 <= i < |s| :: s[i] == s[1..][i - 1];
    }
  }

  // ---- The grammar ----------------------------------------------------------

  /** One header line `name:raw`; its value is `raw` without surrounding blanks. */
  datatype Field = Field(name: string, raw: string) {
    function Line(): string { name + ":" + raw }
    function Value(): string { Trim(raw) }
    predicate Valid(lim: Limits) {
      ValidName(name) && |Value()| <= lim.value && ValidValue(Value())
    }
  }

  /** The lines of a header block, separated by CRLF. */
  function Block(fs: seq<Field>): string {
    if fs == [] then ""
    else if |fs| == 1 then fs[0].Line()
    else fs[0].Line() + CRLF + Block(fs[1..])
  }

  /** No reserved name occurs twice, ignoring case. */
  ghost predicate NoDuplicates(fs: seq<Field>) {
    forall i, j | 0 <= i < j < |fs| && ReservedOf(fs[i].name).Some? ::
      ReservedOf(fs[i].name) != ReservedOf(fs[j].name)
  }

  /** The slots a field list denotes. */
  function SlotsOf(fs: seq<Field>): Slots {
    if fs == [] then map[]
    else
      var rest := SlotsOf(fs[1..]);
      match ReservedOf(fs[0].name)
      case Some(k) => rest[k := fs[0].Value()]
      case None => rest
  }

  /** `frame` is the block of `fs`, an empty line and `body`, within the limits. */
  ghost predicate Grammar(frame: string, lim: Limits, fs: seq<Field>, body: string) {
    && frame == Block(fs) + TERMINATOR + body
    && |Block(fs)| <= lim.block
    && |fs| <= lim.count
    && (forall f | f in fs :: f.Valid(lim))
    && NoDuplicates(fs)
  }

  lemma {:induction false} SlotsBySlot(fs: seq<Field>)
    requires NoDuplicates(fs)
    ensures forall k :: k in SlotsOf(fs) <==> exists f :: f in fs && ReservedOf(f.name) == Some(k)
    ensures forall f | f in fs && ReservedOf(f.name).Some? ::
              SlotsOf(fs)[ReservedOf(f.name).value] == f.Value()
  {
    hide ReservedOf, Field.Value;
    if fs != [] {
      var rest := fs[1..];
      forall i, j | 0 <= i < j < |rest| && ReservedOf(rest[i].name).Some?
        ensures ReservedOf(rest[i].name) != ReservedOf(rest[j].name)
      {
        assert rest[i] == fs[i + 1] && rest[j] == fs[j + 1];
      }
      SlotsBySlot(rest);
      forall f | f in fs
        ensures f == fs[0] || (f in rest && (ReservedOf(f.name).Some? ==> ReservedOf(f.name) != ReservedOf(fs[0].name)))
      {
        var i :| 0 <= i < |fs| && fs[i] == f;
        assert i > 0 ==> rest[i - 1] == f;
      }
      assert forall f | f in rest :: f in fs;
    }
  }

  /** No reserved name is repeated: at most one field is the k-th reserved name, ignoring case. */
  lemma {:induction false} DuplicatesExactly(fs: seq<Field>)
    ensures NoDuplicates(fs) <==>
              forall i, j, k: nat | 0 <= i < j < |fs| :: !(Named(fs[i].name, k) && Named(fs[j].name, k))
  {
    forall i, k: nat | 0 <= i < |fs|
      ensures ReservedOf(fs[i].name) == Some(k) <==> Named(fs[i].name, k)
    {
      ReservedExactly(fs[i].name, k);
    }
    hide ReservedOf, Named;
  }

  /** Slot `k` holds `v` exactly when a field named as the k-th reserved name, ignoring case, has value `v`. */
  lemma {:induction false} SlotsMeaning(fs: seq<Field>, k: nat, v: string)
    requires NoDuplicates(fs)
    ensures k in SlotsOf(fs) && SlotsOf(fs)[k] == v <==>
              exists f :: f in fs && Named(f.name, k) && f.Value() == v
  {
    SlotsBySlot(fs);
    forall f: Field
      ensures ReservedOf(f.name) == Some(k) <==> Named(f.name, k)
    {
      ReservedExactly(f.name, k);
    }
    hide ReservedOf, Named, SlotsOf, Field.Value, NoDuplicates;
  }

  // ---- The parser -----------------------------------------------------------

  function ParseLine(line: string, lim: Limits): Result<Field, Error> {
    match Find(line, ":", 0)
    case None => Err(InvalidHeaderLine)
    case Some(k) =>
      var f := Field(line[..k], line[k + 1..]);
      if !ValidName(f.name) then Err(InvalidHeaderName)
      else if |f.Value()| > lim.value || !ValidValue(f.Value()) then Err(InvalidHeaderValue)
      else Ok(f)
  }

  lemma {:induction false} ParseLineExact(line: string, lim: Limits, f: Field)
    ensures ParseLine(line, lim) == Ok(f) <==> line == f.Line() && f.Valid(lim)
  {
    if f.Valid(lim) && line == f.Line() {
      TokensOnly(f.name, ':');
      FindAfter(f.name, ":", f.raw);
      assert line[..|f.name|] == f.name && line[|f.name| + 1..] == f.raw;
    }
    if ParseLine(line, lim) == Ok(f) {
      var k := Find(line, ":", 0).value;
      assert line == line[..k] + line[k..k + 1] + line[k + 1..];
    }
  }

  lemma {:induction false} LineHasNoCr(f: Field, lim: Limits)
    requires f.Valid(lim)
    ensures f.Line() != "" && '\r' !in f.Line()
  {
    TokensOnly(f.name, '\r');
    TrimChars(f.raw, '\r');
  }

  datatype Walk = Walk(fields: seq<Field>, slots: Slots)

  datatype Cut = Cut(line: string, next: string)

  /** The first line of a non-empty rest of the block, and what follows its CRLF. */
  function CutLine(rest: string): (c: Cut)
    requires rest != ""
    ensures |c.next| < |rest|
  {
    match Find(rest, CRLF, 0)
    case Some(e) => Cut(rest[..e], rest[e + 2..])
    case None => Cut(rest, "")
  }

  lemma {:induction false} CutBlock(fs: seq<Field>, lim: Limits)
    requires fs != [] && fs[0].Valid(lim)
    ensures Block(fs) != "" && CutLine(Block(fs)) == Cut(fs[0].Line(), Block(fs[1..]))
  {
    var line := fs[0].Line();
    LineHasNoCr(fs[0], lim);
    if |fs| == 1 {
      FindAbsent(line, CRLF);
    } else {
      var tail := Block(fs[1..]);
      FindAfter(line, CRLF, tail);
      assert Block(fs)[..|line|] == line && Block(fs)[|line| + 2..] == tail;
    }
  }

  lemma {:induction false} CutJoin(rest: string)
    requires rest != ""
    ensures var c := CutLine(rest);
            rest == c.line + CRLF + c.next || (rest == c.line && c.next == "")
  {
  }

  /** The parser's loop over what is left of the block, with the fields seen so far. */
  function ParseBlock(rest: string, lim: Limits, seen: Walk): Result<Walk, Error>
    decreases |rest|
  {
    if rest == "" then Ok(seen)
    else if |seen.fields| >= lim.count then Err(HeaderBlockTooLarge)
    else
      var c := CutLine(rest);
      match ParseLine(c.line, lim)
      case Err(e) => Err(e)
      case Ok(f) =>
        match Add(seen, f)
        case None => Err(DuplicateHeader)
        case Some(more) => ParseBlock(c.next, lim, more)
  }

  function Add(seen: Walk, f: Field): Option<Walk> {
    match ReservedOf(f.name)
    case None => Some(Walk(seen.fields + [f], seen.slots))
    case Some(k) =>
      if k in seen.slots then None
      else Some(Walk(seen.fields + [f], seen.slots[k := f.Value()]))
  }

  ghost predicate Fresh(fs: seq<Field>, slots: Slots) {
    forall f | f in fs && ReservedOf(f.name).Some? :: ReservedOf(f.name).value !in slots
  }

  /** Adding fields one by one refuses exactly the lists with a repeated reserved name. */
  lemma {:induction false} AddIff(seen: Walk, f: Field, fs: seq<Field>)
    ensures Fresh([f] + fs, seen.slots) && NoDuplicates([f] + fs) <==>
              && Add(seen, f).Some?
              && Fresh(fs, Add(seen, f).value.slots)
              && NoDuplicates(fs)
  {
    hide ReservedOf;
    var gs := [f] + fs;
    assert gs[0] == f && forall i | 0 <= i < |fs| :: gs[i + 1] == fs[i];
    if Fresh(gs, seen.slots) && NoDuplicates(gs) {
      forall g | g in fs && ReservedOf(g.name).Some?
        ensures ReservedOf(g.name) != ReservedOf(f.name) && g in gs
      {
        var j :| 0 <= j < |fs| && fs[j] == g;
        assert gs[j + 1] == g;
      }
      forall i, j | 0 <= i < j < |fs| && ReservedOf(fs[i].name).Some?
        ensures ReservedOf(fs[i].name) != ReservedOf(fs[j].name)
      {
        assert gs[i + 1] == fs[i] && gs[j + 1] == fs[j];
      }
    }
  }

  lemma {:induction false} AddSlots(seen: Walk, f: Field, fs: seq<Field>)
    requires Add(seen, f).Some?
    ensures SlotsOf(fs) + Add(seen, f).value.slots == SlotsOf([f] + fs) + seen.slots
    ensures Add(seen, f).value.fields + fs == seen.fields + ([f] + fs)
  {
    hide ReservedOf, Field.Value;
    assert ([f] + fs)[1..] == fs;
  }

  lemma {:induction false} BlockComplete(fs: seq<Field>, lim: Limits, seen: Walk)
    requires |seen.fields| + |fs| <= lim.count
    requires forall f | f in fs :: f.Valid(lim)
    requires NoDuplicates(fs) && Fresh(fs, seen.slots)
    ensures ParseBlock(Block(fs), lim, seen)
         == Ok(Walk(seen.fields + fs, SlotsOf(fs) + seen.slots))
  {
    if fs == [] {
      assert seen.fields + fs == seen.fields && SlotsOf(fs) + seen.slots == seen.slots;
    } else {
      var f, gs := fs[0], fs[1..];
      assert fs == [f] + gs;
      CutBlock(fs, lim);
      ParseLineExact(f.Line(), lim, f);
      AddIff(seen, f, gs);
      AddSlots(seen, f, gs);
      hide ParseLine, CutLine, ReservedOf, Block, NoDuplicates, Fresh, SlotsOf;
      BlockComplete(gs, lim, Add(seen, f).value);
    }
  }

  lemma {:induction false} BlockJoin(rest: string, c: Cut, f: Field, fs: seq<Field>, lim: Limits)
    requires rest == c.line + CRLF + c.next || (rest == c.line && c.next == "")
    requires c.line == f.Line() && forall g | g in fs :: g.Valid(lim)
    requires c.next == Block(fs) || (fs != [] && c.next == Block(fs) + CRLF)
    ensures rest == Block([f] + fs) || rest == Block([f] + fs) + CRLF
  {
  }

  lemma {:induction false} BlockSound(rest: string, lim: Limits, seen: Walk) returns (fs: seq<Field>)
    requires ParseBlock(rest, lim, seen).Ok? && |seen.fields| <= lim.count
    ensures ParseBlock(rest, lim, seen).value == Walk(seen.fields + fs, SlotsOf(fs) + seen.slots)
    ensures rest == Block(fs) || (fs != [] && rest == Block(fs) + CRLF)
    ensures |seen.fields| + |fs| <= lim.count
    ensures forall f | f in fs :: f.Valid(lim)
    ensures NoDuplicates(fs) && Fresh(fs, seen.slots)
    decreases |rest|
  {
    if rest == "" {
      fs := [];
      assert seen.fields + fs == seen.fields && SlotsOf(fs) + seen.slots == seen.slots;
    } else {
      var c := CutLine(rest);
      CutJoin(rest);
      var f := ParseLine(c.line, lim).value;
      ParseLineExact(c.line, lim, f);
      hide ParseLine, CutLine, ReservedOf, NoDuplicates, Fresh, SlotsOf, Block;
      var gs := BlockSound(c.next, lim, Add(seen, f).value);
      fs := [f] + gs;
      AddIff(seen, f, gs);
      AddSlots(seen, f, gs);
      BlockJoin(rest, c, f, gs, lim);
    }
  }

  function SearchLength(frame: string, lim: Limits): nat {
    if |frame| < lim.block + 4 then |frame| else lim.block + 4
  }

  /** parse_headers as a function of the frame. */
  function Parse(frame: string, lim: Limits): Result<Parsed, Error> {
    match Find(frame[..SearchLength(frame, lim)], TERMINATOR, 0)
    case None =>
      if |frame| > lim.block then Err(HeaderBlockTooLarge) else Err(MissingHeaderTerminator)
    case Some(t) =>
      if t > lim.block then Err(HeaderBlockTooLarge)
      else
        match ParseBlock(frame[..t], lim, Walk([], map[]))
        case Err(e) => Err(e)
        case Ok(w) => Ok(Parsed(frame[..t], frame[t + 4..], w.slots))
  }

  /** The length-bounded terminator search finds the unbounded first occurrence, up to the limit. */
  lemma {:induction false} BoundedSearch(frame: string, lim: Limits)
    ensures Find(frame[..SearchLength(frame, lim)], TERMINATOR, 0)
         == match Find(frame, TERMINATOR, 0)
            case None => None
            case Some(t) => if t <= lim.block then Some(t) else None
  {
    var n := SearchLength(frame, lim);
    forall i | 0 <= i
      ensures At(frame[..n], TERMINATOR, i) <==> At(frame, TERMINATOR, i) && i + 4 <= n
    {
      if i + 4 <= n {
        assert frame[..n][i..i + 4] == frame[i..i + 4];
      }
    }
  }

  /** A line without CR, followed by a CRLF and a non-empty line, holds no terminator. */
  lemma {:induction false} TerminatorSkipsLine(line: string, tail: string)
    requires '\r' !in line && tail != "" && tail[0] != '\r'
    requires Find(tail, TERMINATOR, 0).Some?
    ensures Find(line + CRLF + tail, TERMINATOR, 0)
         == Some(|line| + 2 + Find(tail, TERMINATOR, 0).value)
  {
    hide At;
    var s, n := line + CRLF + tail, |line| + 2;
    assert s[n..] == tail;
    forall i | 0 <= i < n
      ensures !At(s, TERMINATOR, i)
    {
      NoEarlyTerminator(line, tail, i);
    }
    FindFrom(s, TERMINATOR, n);
    FindShift(s, TERMINATOR, n);
    hide Find;
  }

  lemma {:induction false} NoEarlyTerminator(line: string, tail: string, i: nat)
    requires '\r' !in line && tail != "" && tail[0] != '\r' && i < |line| + 2
    ensures !At(line + CRLF + tail, TERMINATOR, i)
  {
    var s := line + CRLF + tail;
    if i < |line| {
      assert s[i] == line[i];
      NotAt(s, TERMINATOR, i, 0);
    } else if i == |line| {
      assert s[i + 2] == tail[0];
      if |tail| > 1 {
        NotAt(s, TERMINATOR, i, 2);
      }
    } else {
      assert s[i] == '\n';
      NotAt(s, TERMINATOR, i, 0);
    }
  }

  lemma {:induction false} TerminatorSkipsInBlock(line: string, next: string, body: string)
    requires '\r' !in line && next != "" && next[0] != '\r'
    requires Find(next + TERMINATOR + body, TERMINATOR, 0) == Some(|next|)
    ensures Find(line + CRLF + next + TERMINATOR + body, TERMINATOR, 0) == Some(|line| + 2 + |next|)
  {
    hide Find, At;
    var tail := next + TERMINATOR + body;
    TerminatorSkipsLine(line, tail);
    assert line + CRLF + next + TERMINATOR + body == line + CRLF + tail;
  }

  /** A block of valid lines holds no empty line, so the first CRLFCRLF ends it. */
  lemma {:induction false} TerminatorAfterBlock(fs: seq<Field>, lim: Limits, body: string)
    requires forall f | f in fs :: f.Valid(lim)
    ensures Find(Block(fs) + TERMINATOR + body, TERMINATOR, 0) == Some(|Block(fs)|)
  {
    hide Find, At, Field.Valid, Field.Line;
    if fs == [] {
      FindAfter("", TERMINATOR, body);
    } else {
      var line := fs[0].Line();
      LineHasNoCr(fs[0], lim);
      if |fs| == 1 {
        FindAfter(line, TERMINATOR, body);
      } else {
        TerminatorAfterBlock(fs[1..], lim, body);
        BlockStart(fs[1..], lim);
        TerminatorSkipsInBlock(line, Block(fs[1..]), body);
      }
    }
  }

  lemma {:induction false} BlockStart(fs: seq<Field>, lim: Limits)
    requires fs != [] && fs[0].Valid(lim)
    ensures Block(fs) != "" && Block(fs)[0] != '\r'
  {
  }

  /** Completeness: every frame of the grammar parses, to the slots and body it denotes. */
  lemma {:induction false} ParseComplete(frame: string, lim: Limits, fs: seq<Field>, body: string)
    requires Grammar(frame, lim, fs, body)
    ensures Parse(frame, lim) == Ok(Parsed(Block(fs), body, SlotsOf(fs)))
  {
    TerminatorAfterBlock(fs, lim, body);
    BoundedSearch(frame, lim);
    BlockComplete(fs, lim, Walk([], map[]));
    var t := |Block(fs)|;
    assert frame[..t] == Block(fs) && frame[t + 4..] == body;
    assert SlotsOf(fs) + map[] == SlotsOf(fs);
  }

  /** Soundness: a frame that parses is one of the grammar. */
  lemma {:induction false} ParseSound(frame: string, lim: Limits) returns (fs: seq<Field>)
    requires Parse(frame, lim).Ok?
    ensures Grammar(frame, lim, fs, Parse(frame, lim).value.body)
    ensures Parse(frame, lim).value.block == Block(fs)
    ensures Parse(frame, lim).value.slots == SlotsOf(fs)
  {
    BoundedSearch(frame, lim);
    var t := Find(frame, TERMINATOR, 0).value;
    SplitTerminator(frame, t);
    fs := BlockSound(frame[..t], lim, Walk([], map[]));
    assert SlotsOf(fs) + map[] == SlotsOf(fs);
    hide ParseBlock, SlotsOf, NoDuplicates, Fresh, At;
    if frame[..t] == Block(fs) + CRLF {
      EarlierTerminator(Block(fs), frame[t + 4..]);
      assert false;
    }
  }

  lemma {:induction false} SplitTerminator(frame: string, t: nat)
    requires At(frame, TERMINATOR, t)
    ensures t + 4 <= |frame| && frame == frame[..t] + TERMINATOR + frame[t + 4..]
  {
  }

  /** A line break before a terminator makes an earlier one. */
  lemma {:induction false} EarlierTerminator(head: string, tail: string)
    ensures At(head + CRLF + TERMINATOR + tail, TERMINATOR, |head|)
  {
  }

  /** The grammar is unambiguous. */
  lemma {:induction false} GrammarUnambiguous(frame: string, lim: Limits, fs: seq<Field>, body: string,
                           gs: seq<Field>, body': string)
    requires Grammar(frame, lim, fs, body) && Grammar(frame, lim, gs, body')
    ensures fs == gs && body == body'
  {
    ParseComplete(frame, lim, fs, body);
    ParseComplete(frame, lim, gs, body');
    BlockComplete(fs, lim, Walk([], map[]));
    BlockComplete(gs, lim, Walk([], map[]));
    assert [] + fs == fs && [] + gs == gs;
  }

  /** parse_headers, with its cursor over the block. */
  method ParseHeaders(frame: string, lim: Limits) returns (r: Result<Parsed, Error>)
    ensures r.Ok? <==> exists fs, body :: Grammar(frame, lim, fs, body)
    ensures forall fs, body | Grammar(frame, lim, fs, body) ::
              r == Ok(Parsed(Block(fs), body, SlotsOf(fs)))
    ensures r == Err(MissingHeaderTerminator) <==>
              Find(frame, TERMINATOR, 0).None? && |frame| <= lim.block
    ensures r == Parse(frame, lim)
  {
    ghost var spec := Parse(frame, lim);
    if spec.Ok? {
      var fs := ParseSound(frame, lim);
    }
    forall fs, body | Grammar(frame, lim, fs, body)
      ensures spec == Ok(Parsed(Block(fs), body, SlotsOf(fs)))
    {
      ParseComplete(frame, lim, fs, body);
    }
    BoundedSearch(frame, lim);
    r := RunParser(frame, lim);
    ParseErrors(frame, lim);
  }

  lemma {:induction false} NeverMissing(rest: string, lim: Limits, seen: Walk)
    ensures ParseBlock(rest, lim, seen) != Err(MissingHeaderTerminator)
    decreases |rest|
  {
    if rest != "" && |seen.fields| < lim.count {
      var c := CutLine(rest);
      if ParseLine(c.line, lim).Ok? && Add(seen, ParseLine(c.line, lim).value).Some? {
        NeverMissing(c.next, lim, Add(seen, ParseLine(c.line, lim).value).value);
      }
    }
  }

  lemma {:induction false} ParseErrors(frame: string, lim: Limits)
    ensures Parse(frame, lim) == Err(MissingHeaderTerminator) <==>
              Find(frame, TERMINATOR, 0).None? && |frame| <= lim.block
  {
    BoundedSearch(frame, lim);
    hide ParseBlock;
    var t := Find(frame, TERMINATOR, 0);
    if t.Some? && t.value <= lim.block {
      NeverMissing(frame[..t.value], lim, Walk([], map[]));
    }
  }

  /** The checks on one line: separator, name, then value. */
  method CheckLine(line: string, lim: Limits) returns (r: Result<Field, Error>)
    ensures r == ParseLine(line, lim)
  {
    var separator := Find(line, ":", 0);
    if line == "" || separator.None? {
      return Err(InvalidHeaderLine);
    }
    var name, value := line[..separator.value], Trim(line[separator.value + 1..]);
    if !ValidName(name) {
      return Err(InvalidHeaderName);
    }
    if |value| > lim.value || !ValidValue(value) {
      return Err(InvalidHeaderValue);
    }
    return Ok(Field(name, line[separator.value + 1..]));
  }

  lemma {:induction false} CutFrom(block: string, from: nat)
    requires from < |block|
    ensures CutLine(block[from..])
         == match Find(block, CRLF, from)
            case Some(e) => Cut(block[from..e], block[e + 2..])
            case None => Cut(block[from..], "")
  {
    hide Find, At;
    FindShift(block, CRLF, from);
    var e := Find(block, CRLF, from);
    if e.Some? {
      FindBound(block, CRLF, from);
      Suffix(block, from, e.value);
    }
  }

  lemma {:induction false} Suffix(s: string, from: nat, e: nat)
    requires from <= e && e + 2 <= |s|
    ensures s[from..][..e - from] == s[from..e]
    ensures s[from..][e - from + 2..] == s[e + 2..]
  {
  }

  method RunParser(frame: string, lim: Limits) returns (r: Result<Parsed, Error>)
    ensures r == Parse(frame, lim)
  {
    var terminator := Find(frame[..SearchLength(frame, lim)], TERMINATOR, 0);
    if terminator.None? {
      return Err(if |frame| > lim.block then HeaderBlockTooLarge else MissingHeaderTerminator);
    }
    if terminator.value > lim.block {
      return Err(HeaderBlockTooLarge);
    }
    var block := frame[..terminator.value];
    var w := ParseLines(block, lim);
    match w
    case Err(e) => return Err(e);
    case Ok(slots) => return Ok(Parsed(block, frame[terminator.value + 4..], slots));
  }

  /** The loop over the block: one line per turn, assigning reserved slots. */
  method ParseLines(block: string, lim: Limits) returns (r: Result<Slots, Error>)
    ensures r == match ParseBlock(block, lim, Walk([], map[]))
                 case Err(e) => Err(e)
                 case Ok(w) => Ok(w.slots)
  {
    var slots: Slots := map[];
    var lineStart, headerCount := 0, 0;
    ghost var fields: seq<Field> := [];
    ghost var rest := block;
    hide ParseLine, CutLine, ReservedOf;
    while lineStart < |block|
      invariant rest == if lineStart < |block| then block[lineStart..] else ""
      invariant headerCount == |fields|
      invariant ParseBlock(block, lim, Walk([], map[])) == ParseBlock(rest, lim, Walk(fields, slots))
      decreases |block| - lineStart
    {
      if headerCount >= lim.count {
        return Err(HeaderBlockTooLarge);
      }
      CutFrom(block, lineStart);
      var lineEnd := match Find(block, CRLF, lineStart) case Some(e) => e case None => |block|;
      assert CutLine(rest).line == block[lineStart..lineEnd];
      rest := CutLine(rest).next;
      var line := CheckLine(block[lineStart..lineEnd], lim);
      if line.Err? {
        return Err(line.error);
      }
      var slot := ReservedOf(line.value.name);
      if slot.Some? {
        if slot.value in slots {
          return Err(DuplicateHeader);
        }
        slots := slots[slot.value := line.value.Value()];
      }
      fields := fields + [line.value];
      headerCount := headerCount + 1;
      lineStart := lineEnd + 2;
    }
    return Ok(slots);
  }
}
