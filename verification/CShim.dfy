/** The C entry points: a second walk over an already validated block, and serialization by offsets. */
module CShim {
  import opened Text
  import opened Message
  import opened Serializer

  /** culpeo_header: byte offsets into the caller's buffer. */
  datatype Slice = Slice(keyPtr: nat, keyLen: nat, valPtr: nat, valLen: nat) {
    predicate InBounds(n: nat) { keyPtr + keyLen <= n && valPtr + valLen <= n }
    function Key(buf: string): string
      requires InBounds(|buf|)
    { buf[keyPtr..keyPtr + keyLen] }
    function Val(buf: string): string
      requires InBounds(|buf|)
    { buf[valPtr..valPtr + valLen] }
  }

  ghost predicate Locates(buf: string, s: Slice, f: Field) {
    s.InBounds(|buf|) && s.Key(buf) == f.name && s.Val(buf) == f.Value()
  }

  /** The headers that slices denote in a buffer. */
  ghost function Views(headers: seq<Slice>, strings: string): seq<Header>
    requires forall h | h in headers :: h.InBounds(|strings|)
  {
    seq(|headers|, i requires 0 <= i < |headers| =>
      assert headers[i] in headers; Header(headers[i].Key(strings), headers[i].Val(strings)))
  }

  /** Slices that locate the fields denote the parsed headers. */
  lemma {:induction false} LocatedViews(buf: string, slices: seq<Slice>, fs: seq<Field>)
    requires |slices| == |fs| && forall i | 0 <= i < |fs| :: Locates(buf, slices[i], fs[i])
    ensures forall h | h in slices :: h.InBounds(|buf|)
    ensures Views(slices, buf) == HeadersOf(fs)
  {
    hide Field.Value;
  }

  /** The slice of one line: key without trailing blanks, value without outer blanks. */
  function LineSlice(line: string, at: nat): Option<Slice> {
    match Find(line, ":", 0)
    case None => None
    case Some(colon) =>
      var val := line[colon + 1..];
      Some(Slice(at, |TrimRight(line[..colon])|,
                 at + colon + 1 + (|val| - |TrimLeft(val)|), |Trim(val)|))
  }

  lemma {:induction false} LineSliceLocates(buf: string, at: nat, f: Field, lim: Limits)
    requires f.Valid(lim) && at + |f.Line()| <= |buf| && buf[at..at + |f.Line()|] == f.Line()
    ensures LineSlice(f.Line(), at).Some?
    ensures Locates(buf, LineSlice(f.Line(), at).value, f)
    ensures LineSlice(f.Line(), at).value.InBounds(at + |f.Line()|)
  {
    hide AllTokens, ValidValue, Find, Trim, TrimLeft, TrimRight, Trimmed, At, Field.Line;
    LineParts(f);
    NameHasNoBlanks(f.name);
    ValueWithin(buf, at, f);
    Within(buf, at, f.Line(), 0, |f.name|);
    assert buf[at..at + |f.name|] == f.name;
  }

  lemma {:induction false} LineParts(f: Field)
    requires AllTokens(f.name)
    ensures |f.Line()| == |f.name| + 1 + |f.raw|
    ensures Find(f.Line(), ":", 0) == Some(|f.name|)
    ensures f.Line()[..|f.name|] == f.name && f.Line()[|f.name| + 1..] == f.raw
  {
    TokensOnly(f.name, ':');
    FindAfter(f.name, ":", f.raw);
  }

  lemma {:induction false} ValueWithin(buf: string, at: nat, f: Field)
    requires at + |f.Line()| <= |buf| && buf[at..at + |f.Line()|] == f.Line()
    ensures var from := at + |f.name| + 1 + (|f.raw| - |TrimLeft(f.raw)|);
            && |TrimLeft(f.raw)| <= |f.raw|
            && from + |f.Value()| <= at + |f.Line()|
            && buf[from..from + |f.Value()|] == f.Value()
  {
    TrimSpan(f.raw);
    hide Trim, TrimLeft, Trimmed;
    var from := |f.raw| - |TrimLeft(f.raw)|;
    var to, colon := from + |f.Value()|, |f.name|;
    LineTail(f, from, to);
    hide Field.Line;
    Within(buf, at, f.Line(), colon + 1 + from, colon + 1 + to);
  }

  lemma {:induction false} LineTail(f: Field, from: nat, to: nat)
    requires from <= to <= |f.raw|
    ensures |f.Line()| == |f.name| + 1 + |f.raw|
    ensures f.Line()[|f.name| + 1 + from..|f.name| + 1 + to] == f.raw[from..to]
  {
    var line, n := f.Line(), |f.name| + 1;
    assert forall i | 0 <= i < |f.raw| :: line[n + i] == f.raw[i];
  }

  lemma {:induction false} Within(buf: string, at: nat, line: string, a: nat, b: nat)
    requires at + |line| <= |buf| && buf[at..at + |line|] == line && a <= b <= |line|
    ensures buf[at + a..at + b] == line[a..b]
  {
    assert forall i | 0 <= i < |line| :: line[i] == buf[at + i];
  }

  lemma {:induction false} NameHasNoBlanks(name: string)
    requires AllTokens(name)
    ensures TrimRight(name) == name
  {
    TokensOnly(name, ' ');
    TokensOnly(name, '\t');
    if name != "" {
      assert name[|name| - 1] in name;
    }
  }

  /**
   * culpeo_parse_headers. On success the walk returns one slice per header of the grammar, each
   * locating its validated name and trimmed value; the exit for a line without separator is dead.
   */
  method ParseForC(buf: string, headersOut: array<Slice>, maxHeaders: int)
    returns (code: int, bodyOffset: nat)
    requires maxHeaders <= headersOut.Length
    modifies headersOut
    ensures maxHeaders <= 0 ==> code == -2
    ensures maxHeaders > 0 ==>
              match Parse(buf, DEFAULT_LIMITS)
              case Err(MissingHeaderTerminator) => code == -1
              case Err(HeaderBlockTooLarge) => code == -3
              case Err(_) => code == -2
              case Ok(_) => code == -3 || 0 <= code <= maxHeaders
    ensures forall fs, body |
              maxHeaders > 0 && Grammar(buf, DEFAULT_LIMITS, fs, body) ::
                && (code == -3 <==> |fs| > maxHeaders)
                && (code != -3 ==>
                      && code == |fs| && bodyOffset <= |buf| && buf[bodyOffset..] == body
                      && (forall i | 0 <= i < |fs| ::
                            Locates(buf, headersOut[i], fs[i]) && headersOut[i].InBounds(DEFAULT_LIMITS.block))
                      && (forall h | h in headersOut[..code] :: h.InBounds(|buf|))
                      && Views(headersOut[..code], buf) == HeadersOf(fs))
  {
    bodyOffset := 0;
    if maxHeaders <= 0 {
      return -2, 0;
    }
    var result := ParseHeaders(buf, DEFAULT_LIMITS);
    if result.Err? {
      hide Grammar, Parse;
      code := match result.error
              case MissingHeaderTerminator => -1
              case HeaderBlockTooLarge => -3
              case _ => -2;
      return;
    }
    bodyOffset := |buf| - |result.value.body|;
    ghost var fs := ParseSound(buf, DEFAULT_LIMITS);
    forall gs, body | Grammar(buf, DEFAULT_LIMITS, gs, body)
      ensures gs == fs && body == result.value.body
    {
      GrammarUnambiguous(buf, DEFAULT_LIMITS, fs, result.value.body, gs, body);
    }
    code := SecondWalk(buf, result.value.block, headersOut, maxHeaders, fs);
    if code != -3 {
      LocatedViews(buf, headersOut[..code], fs);
    }
  }

  /** The walk's next line is the next field's, and the rest is the block of the fields after it. */
  lemma {:induction false} BlockTail(fs: seq<Field>, n: nat, block: string, at: nat, lim: Limits)
    requires n < |fs| && fs[n].Valid(lim)
    requires at <= |block| && block[at..] == Block(fs[n..])
    ensures var end := at + |fs[n].Line()|;
            && at < end <= |block|
            && block[at..end] == fs[n].Line()
            && (if end < |block| then end + 2 <= |block| && block[end + 2..] == Block(fs[n + 1..])
                else Block(fs[n + 1..]) == "")
            && Find(block, CRLF, at) == (if end < |block| then Some(end) else None)
  {
    assert fs[n..] == [fs[n]] + fs[n + 1..];
    LineHasNoCr(fs[n], lim);
    BlockCons(fs[n], fs[n + 1..]);
    hide Block, Find, ValidName, ValidValue, At, Field.Line, Field.Valid;
    if n + 1 == |fs| {
      LastLine(block, at, fs[n].Line());
    } else {
      SplitTwice(block, at, fs[n].Line(), Block(fs[n + 1..]));
    }
  }

  lemma {:induction false} LastLine(s: string, at: nat, line: string)
    requires at <= |s| && s[at..] == line && '\r' !in line
    ensures at + |line| == |s| && s[at..at + |line|] == line && Find(s, CRLF, at) == None
  {
    assert s[at..|s|] == s[at..];
    FindShift(s, CRLF, at);
    FindAbsent(line, CRLF);
  }

  lemma {:induction false} SplitTwice(s: string, at: nat, line: string, next: string)
    requires at <= |s| && s[at..] == line + CRLF + next && '\r' !in line
    ensures at + |line| + 2 <= |s| && s[at..at + |line|] == line && s[at + |line| + 2..] == next
    ensures Find(s, CRLF, at) == Some(at + |line|)
  {
    FindAfter(line, CRLF, next);
    FindShift(s, CRLF, at);
    hide Find, At;
    assert line + CRLF + next == line + (CRLF + next);
    SplitAt(s, at, line, CRLF + next);
    SplitAt(s, at, line + CRLF, next);
  }

  lemma {:induction false} SplitAt(s: string, at: nat, a: string, b: string)
    requires at <= |s| && s[at..] == a + b
    ensures at + |a| <= |s| && s[at..at + |a|] == a && s[at + |a|..] == b
  {
  }

  lemma {:induction false} BlockCons(f: Field, fs: seq<Field>)
    ensures Block([f] + fs) == if fs == [] then f.Line() else f.Line() + CRLF + Block(fs)
    ensures fs == [] ==> Block(fs) == ""
  {
  }

  method SecondWalk(buf: string, hblock: string, headersOut: array<Slice>, maxHeaders: int,
                    ghost fs: seq<Field>)
    returns (code: int)
    requires 0 < maxHeaders <= headersOut.Length
    requires hblock <= buf && hblock == Block(fs) && |hblock| <= DEFAULT_LIMITS.block
    requires forall f | f in fs :: f.Valid(DEFAULT_LIMITS)
    modifies headersOut
    ensures code == if |fs| > maxHeaders then -3 else |fs|
    ensures code != -3 ==> forall i | 0 <= i < |fs| ::
              Locates(buf, headersOut[i], fs[i]) && headersOut[i].InBounds(DEFAULT_LIMITS.block)
  {
    var count, lineStart := 0, 0;
    hide Block, Find, Locates, LineSlice;
    while lineStart < |hblock|
      invariant 0 <= count <= |fs| && count <= maxHeaders && lineStart <= |hblock|
      invariant hblock[lineStart..] == Block(fs[count..])
      invariant forall i | 0 <= i < count ::
                  Locates(buf, headersOut[i], fs[i]) && headersOut[i].InBounds(DEFAULT_LIMITS.block)
      decreases |hblock| - lineStart
    {
      EmptyIff(fs[count..], DEFAULT_LIMITS);
      if count >= maxHeaders {
        return -3;
      }
      ghost var f := fs[count];
      BlockTail(fs, count, hblock, lineStart, DEFAULT_LIMITS);
      var lineEnd := match Find(hblock, CRLF, lineStart) case Some(e) => e case None => |hblock|;
      var line := hblock[lineStart..lineEnd];
      assert line == f.Line() && buf[lineStart..lineEnd] == line;
      LineSliceLocates(buf, lineStart, f, DEFAULT_LIMITS);
      var slice := LineSlice(line, lineStart);
      if slice.None? {
        assert false;
      }
      headersOut[count] := slice.value;
      count := count + 1;
      lineStart := if lineEnd < |hblock| then lineEnd + 2 else lineEnd;
    }
    EmptyIff(fs[count..], DEFAULT_LIMITS);
    return count;
  }

  lemma {:induction false} EmptyIff(fs: seq<Field>, lim: Limits)
    requires forall f | f in fs :: f.Valid(lim)
    ensures Block(fs) == "" <==> fs == []
  {
  }

  const MAX_HEADERS := 128
  const INT_MAX := 0x7fff_ffff

  /** culpeo_serialize_frame: bounds-checked slices, then the serializer. */
  method SerializeForC(headers: seq<Slice>, strings: string, body: string, out: array<char>)
    returns (code: int)
    modifies out
    ensures (exists h :: h in headers && !h.InBounds(|strings|)) ==> code < 0
    ensures out.Length == 0 || |headers| > 128 ==> code == -1
    ensures code >= 0 ==>
              && (forall h | h in headers :: h.InBounds(|strings|))
              && (forall h | h in Views(headers, strings) :: Fault(h).None?)
              && code <= out.Length
              && out[..code] == Frame(Views(headers, strings), body)
              && (forall i | code <= i < out.Length :: out[i] == old(out[i]))
    ensures && 0 < out.Length <= INT_MAX && |headers| <= 128
            && (forall h | h in headers :: h.InBounds(|strings|))
            && |Frame(Views(headers, strings), body)| <= out.Length
            && (forall h | h in Views(headers, strings) :: Fault(h).None?)
            ==> code == |Frame(Views(headers, strings), body)|
  {
    hide Frame, Fault, FirstFault, SerializedSize;
    if out.Length == 0 || |headers| > MAX_HEADERS {
      return -1;
    }
    var views: seq<Header> := [];
    for i := 0 to |headers|
      invariant forall j | 0 <= j < i :: headers[j].InBounds(|strings|)
      invariant views == Views(headers[..i], strings)
    {
      if !headers[i].InBounds(|strings|) {
        return -2;
      }
      views := views + [Header(headers[i].Key(strings), headers[i].Val(strings))];
    }
    assert headers[..|headers|] == headers;
    SizeIsExact(views, body);
    var written := SerializeToBuffer(views, body, out);
    if written.Err? {
      return -1;
    }
    if written.value > INT_MAX {
      return -4;
    }
    return written.value;
  }

  /**
   * Parse for C, serialize the slices for C, parse for C again: the frame written is one no header of
   * which is faulty, and the second parse denotes the same headers and body exactly when the
   * normalised block is within the limit.
   */
  lemma {:induction false} RoundTripForC(buf: string, fs: seq<Field>, body: string, slices: seq<Slice>)
    requires Grammar(buf, DEFAULT_LIMITS, fs, body) && fs != []
    requires |slices| == |fs| && forall i | 0 <= i < |fs| :: Locates(buf, slices[i], fs[i])
    ensures forall h | h in slices :: h.InBounds(|buf|)
    ensures var hs := Views(slices, buf);
            && (forall h | h in hs :: Fault(h).None?)
            && (|Rendered(hs)| <= DEFAULT_LIMITS.block + 2 <==>
                exists gs :: Grammar(Frame(hs, body), DEFAULT_LIMITS, gs, body) && HeadersOf(gs) == hs)
  {
    hide Grammar, Locates, Frame, Rendered, Fault;
    LocatedViews(buf, slices, fs);
    ReserializeExactly(buf, fs, body, DEFAULT_LIMITS);
    NoFaults(buf, fs, body);
  }

  lemma {:induction false} NoFaults(buf: string, fs: seq<Field>, body: string)
    requires Grammar(buf, DEFAULT_LIMITS, fs, body)
    ensures forall h | h in HeadersOf(fs) :: Fault(h).None?
  {
    HeadersClean(fs, DEFAULT_LIMITS);
  }
}
