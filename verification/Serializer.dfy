/** Frame serialization into a caller's buffer, and its round trip through the parser. */
module Serializer {
  import opened Text
  import opened Message

  datatype Header = Header(name: string, value: string)

  /** The header lines as the serializer writes them. */
  function Rendered(hs: seq<Header>): string {
    if hs == [] then "" else Rendered(hs[..|hs| - 1]) + Piece(hs[|hs| - 1])
  }

  function Piece(h: Header): string {
    h.name + ": " + h.value + CRLF
  }

  function Frame(hs: seq<Header>, body: string): string {
    Rendered(hs) + CRLF + body
  }

  function SerializedSize(hs: seq<Header>, bodySize: nat): nat {
    if hs == [] then 2 + bodySize
    else
      var h := hs[|hs| - 1];
      SerializedSize(hs[..|hs| - 1], bodySize) + |h.name| + 2 + |h.value| + 2
  }

  lemma {:induction false} SizeIsExact(hs: seq<Header>, body: string)
    ensures |Frame(hs, body)| == SerializedSize(hs, |body|)
  {
    if hs != [] {
      SizeIsExact(hs[..|hs| - 1], body);
    }
  }

  lemma {:induction false} SizeGrows(hs: seq<Header>, i: nat)
    requires i <= |hs|
    ensures |Rendered(hs[..i])| <= |Rendered(hs)|
  {
    if i < |hs| {
      var init := hs[..|hs| - 1];
      SizeGrows(init, i);
      assert init[..i] == hs[..i];
    } else {
      assert hs[..i] == hs;
    }
  }

  /** What the serializer checks of a header before writing it. */
  function Fault(h: Header): Option<Error> {
    if !ValidName(h.name) then Some(InvalidHeaderName)
    else if !ValidValue(h.value) then Some(InvalidHeaderValue)
    else None
  }

  /** `e` is the fault of the first faulty header. */
  ghost predicate FirstFault(hs: seq<Header>, e: Error) {
    exists i | 0 <= i < |hs| ::
      Fault(hs[i]) == Some(e) && forall j | 0 <= j < i :: Fault(hs[j]).None?
  }

  /** In plain terms: the headers before it are valid, and the name counts before the value. */
  lemma {:induction false} FaultsExactly(hs: seq<Header>, e: Error)
    ensures FirstFault(hs, e) <==>
              exists i | 0 <= i < |hs| ::
                && (forall j | 0 <= j < i :: ValidName(hs[j].name) && ValidValue(hs[j].value))
                && ((e == InvalidHeaderName && !ValidName(hs[i].name))
                    || (e == InvalidHeaderValue && ValidName(hs[i].name) && !ValidValue(hs[i].value)))
    ensures (forall h | h in hs :: Fault(h).None?) <==> forall h | h in hs :: ValidName(h.name) && ValidValue(h.value)
  {
    hide ValidName, ValidValue;
    if i :| 0 <= i < |hs| && Fault(hs[i]) == Some(e) && forall j | 0 <= j < i :: Fault(hs[j]).None? {
      assert forall j | 0 <= j < i :: ValidName(hs[j].name) && ValidValue(hs[j].value);
    }
  }

  // ---- Writing --------------------------------------------------------------

  method WriteBytes(output: array<char>, cursor: nat, data: string) returns (next: nat)
    requires cursor + |data| <= output.Length
    modifies output
    ensures next == cursor + |data|
    ensures output[..next] == old(output[..cursor]) + data
    ensures forall i | next <= i < output.Length :: output[i] == old(output[i])
  {
    for i := 0 to |data|
      invariant output[..cursor + i] == old(output[..cursor]) + data[..i]
      invariant forall j | cursor + i <= j < output.Length :: output[j] == old(output[j])
    {
      output[cursor + i] := data[i];
    }
    next := cursor + |data|;
  }

  method WriteHeader(output: array<char>, start: nat, h: Header) returns (cursor: nat)
    requires start + |Piece(h)| <= output.Length
    modifies output
    ensures cursor == start + |Piece(h)|
    ensures output[..cursor] == old(output[..start]) + Piece(h)
    ensures forall i | cursor <= i < output.Length :: output[i] == old(output[i])
  {
    ghost var before := output[..start];
    cursor := WriteBytes(output, start, h.name);
    cursor := WriteBytes(output, cursor, ": ");
    assert output[..cursor] == before + (h.name + ": ");
    cursor := WriteBytes(output, cursor, h.value);
    assert output[..cursor] == before + (h.name + ": " + h.value);
    cursor := WriteBytes(output, cursor, CRLF);
    assert output[..cursor] == before + (h.name + ": " + h.value + CRLF);
  }

  /** Writes the whole frame or reports the first fault; never touches bytes past the frame. */
  method SerializeToBuffer(headers: seq<Header>, body: string, output: array<char>)
    returns (r: Result<nat, Error>)
    modifies output
    ensures var size := SerializedSize(headers, |body|);
            if output.Length < size then
              r == Err(BufferTooSmall) && output[..] == old(output[..])
            else
              && (forall i | size <= i < output.Length :: output[i] == old(output[i]))
              && (r.Ok? <==> forall h | h in headers :: Fault(h).None?)
              && (r.Ok? ==> r.value == size && output[..size] == Frame(headers, body))
              && (r.Err? ==> FirstFault(headers, r.error))
  {
    var required := SerializedSize(headers, |body|);
    SizeIsExact(headers, body);
    hide Fault, FirstFault, SerializedSize, Rendered;
    if output.Length < required {
      return Err(BufferTooSmall);
    }
    r := WriteHeaders(headers, output);
    if r.Ok? {
      var cursor := WriteBytes(output, r.value, CRLF);
      cursor := WriteBytes(output, cursor, body);
      r := Ok(cursor);
    }
  }

  /** The header loop: check, then write, one header per turn. */
  method WriteHeaders(headers: seq<Header>, output: array<char>) returns (r: Result<nat, Error>)
    requires |Rendered(headers)| <= output.Length
    modifies output
    ensures forall j | |Rendered(headers)| <= j < output.Length :: output[j] == old(output[j])
    ensures r.Ok? <==> forall h | h in headers :: Fault(h).None?
    ensures r.Ok? ==> r.value == |Rendered(headers)| && output[..r.value] == Rendered(headers)
    ensures r.Err? ==> FirstFault(headers, r.error)
  {
    var cursor := 0;
    hide Fault, Piece;
    for i := 0 to |headers|
      invariant cursor == |Rendered(headers[..i])| <= |Rendered(headers)|
      invariant output[..cursor] == Rendered(headers[..i])
      invariant forall j | |Rendered(headers)| <= j < output.Length :: output[j] == old(output[j])
      invariant forall j | 0 <= j < i :: Fault(headers[j]).None?
    {
      var fault := Fault(headers[i]);
      if fault.Some? {
        return Err(fault.value);
      }
      SizeGrows(headers, i + 1);
      assert headers[..i + 1][..i] == headers[..i];
      cursor := WriteHeader(output, cursor, headers[i]);
    }
    assert headers[..|headers|] == headers;
    return Ok(cursor);
  }

  // ---- Round trip -----------------------------------------------------------

  /** The grammar fields of a rendered header list, and the header list a field list denotes. */
  function FieldsOf(hs: seq<Header>): seq<Field> {
    seq(|hs|, i requires 0 <= i < |hs| => Field(hs[i].name, " " + hs[i].value))
  }

  function HeadersOf(fs: seq<Field>): seq<Header> {
    seq(|fs|, i requires 0 <= i < |fs| => Header(fs[i].name, fs[i].Value()))
  }

  lemma {:induction false} BlockSnoc(fs: seq<Field>, f: Field)
    requires fs != []
    ensures Block(fs + [f]) == Block(fs) + CRLF + f.Line()
  {
    var gs := fs + [f];
    assert gs[0] == fs[0];
    if |fs| == 1 {
      assert gs[1..] == [f];
    } else {
      BlockSnoc(fs[1..], f);
      assert gs[1..] == fs[1..] + [f];
      assert (fs[0].Line() + CRLF + Block(fs[1..])) + CRLF + f.Line()
          == fs[0].Line() + CRLF + (Block(fs[1..]) + CRLF + f.Line());
    }
  }

  lemma {:induction false} RenderedIsBlock(hs: seq<Header>)
    requires hs != []
    ensures Rendered(hs) == Block(FieldsOf(hs)) + CRLF
  {
    var init, h := hs[..|hs| - 1], hs[|hs| - 1];
    var f := Field(h.name, " " + h.value);
    assert Piece(h) == f.Line() + CRLF;
    if init == [] {
      assert FieldsOf(hs) == [f];
      assert Rendered(hs) == "" + Piece(h);
    } else {
      RenderedIsBlock(init);
      BlockSnoc(FieldsOf(init), f);
      assert FieldsOf(hs) == FieldsOf(init) + [f];
      assert Block(FieldsOf(init)) + CRLF + (f.Line() + CRLF)
          == (Block(FieldsOf(init)) + CRLF + f.Line()) + CRLF;
    }
  }

  lemma {:induction false} FrameShape(hs: seq<Header>, body: string)
    requires hs != []
    ensures Frame(hs, body) == Block(FieldsOf(hs)) + TERMINATOR + body
  {
    RenderedIsBlock(hs);
    assert CRLF + CRLF == TERMINATOR;
    assert Block(FieldsOf(hs)) + CRLF + CRLF + body == Block(FieldsOf(hs)) + (CRLF + CRLF) + body;
  }

  /** The lists that survive serialization and parsing. */
  ghost predicate Survives(hs: seq<Header>, lim: Limits) {
    && hs != []
    && |hs| <= lim.count
    && |Rendered(hs)| <= lim.block + 2
    && (forall h | h in hs :: Trimmed(h.value) && |h.value| <= lim.value)
    && NoDuplicates(FieldsOf(hs))
  }

  /** Parsing `frame` succeeds with exactly these headers and this body. */
  ghost predicate ReadsBack(frame: string, lim: Limits, hs: seq<Header>, body: string) {
    exists fs :: Grammar(frame, lim, fs, body) && HeadersOf(fs) == hs
  }

  lemma {:induction false} FieldsReadBack(hs: seq<Header>)
    requires forall h | h in hs :: Trimmed(h.value)
    ensures HeadersOf(FieldsOf(hs)) == hs
  {
    forall i | 0 <= i < |hs|
      ensures HeadersOf(FieldsOf(hs))[i] == hs[i]
    {
      TrimIdle(hs[i].value);
    }
  }

  lemma {:induction false} FieldsValid(hs: seq<Header>, lim: Limits)
    requires forall h | h in hs :: Fault(h).None? && Trimmed(h.value) && |h.value| <= lim.value
    ensures forall f | f in FieldsOf(hs) :: f.Valid(lim)
  {
    FieldsReadBack(hs);
    var fs := FieldsOf(hs);
    hide ValidName, ValidValue, Trimmed;
    forall f | f in fs
      ensures f.Valid(lim)
    {
      var i :| 0 <= i < |fs| && fs[i] == f;
      assert HeadersOf(fs)[i] == hs[i];
    }
  }

  lemma {:induction false} RoundTripIf(hs: seq<Header>, body: string, lim: Limits)
    requires forall h | h in hs :: Fault(h).None?
    requires Survives(hs, lim)
    ensures Grammar(Frame(hs, body), lim, FieldsOf(hs), body)
    ensures HeadersOf(FieldsOf(hs)) == hs
  {
    RenderedIsBlock(hs);
    FrameShape(hs, body);
    FieldsReadBack(hs);
    FieldsValid(hs, lim);
    assert |FieldsOf(hs)| == |hs|;
    hide Block, Frame, Rendered, NoDuplicates, FieldsOf, Fault, Trimmed;
  }

  lemma {:induction false} BlockFits(hs: seq<Header>, body: string, lim: Limits, fs: seq<Field>)
    requires Grammar(Frame(hs, body), lim, fs, body) && |fs| == |hs|
    ensures hs != [] && |Rendered(hs)| <= lim.block + 2
  {
  }

  lemma {:induction false} HeadersClean(fs: seq<Field>, lim: Limits)
    requires NoDuplicates(fs) && forall f | f in fs :: f.Valid(lim)
    ensures NoDuplicates(FieldsOf(HeadersOf(fs)))
    ensures forall h | h in HeadersOf(fs) :: Fault(h).None? && Trimmed(h.value) && |h.value| <= lim.value
  {
    hide ReservedOf, ValidName, ValidValue;
    var hs := HeadersOf(fs);
    forall h | h in hs
      ensures Fault(h).None? && Trimmed(h.value) && |h.value| <= lim.value
    {
      var i :| 0 <= i < |hs| && hs[i] == h;
      assert fs[i] in fs;
      TrimSpan(fs[i].raw);
    }
    var gs := FieldsOf(hs);
    forall i, j | 0 <= i < j < |gs| && ReservedOf(gs[i].name).Some?
      ensures ReservedOf(gs[i].name) != ReservedOf(gs[j].name)
    {
      assert gs[i].name == fs[i].name && gs[j].name == fs[j].name;
    }
  }

  lemma {:induction false} RoundTripOnlyIf(hs: seq<Header>, body: string, lim: Limits, fs: seq<Field>)
    requires Grammar(Frame(hs, body), lim, fs, body) && HeadersOf(fs) == hs
    ensures Survives(hs, lim)
  {
    BlockFits(hs, body, lim, fs);
    HeadersClean(fs, lim);
  }

  /** Serialize-then-parse is the identity exactly on the surviving lists, for every body. */
  lemma {:induction false} RoundTripExactly(hs: seq<Header>, body: string, lim: Limits)
    requires forall h | h in hs :: Fault(h).None?
    ensures ReadsBack(Frame(hs, body), lim, hs, body) <==> Survives(hs, lim)
    ensures Survives(hs, lim) ==>
              Parse(Frame(hs, body), lim) == Ok(Parsed(Block(FieldsOf(hs)), body, SlotsOf(FieldsOf(hs))))
  {
    var frame := Frame(hs, body);
    if Survives(hs, lim) {
      RoundTripIf(hs, body, lim);
      ParseComplete(frame, lim, FieldsOf(hs), body);
    }
    hide Frame, Survives, Grammar, Parse;
    forall fs | Grammar(frame, lim, fs, body) && HeadersOf(fs) == hs
      ensures Survives(hs, lim)
    {
      RoundTripOnlyIf(hs, body, lim, fs);
    }
  }

  /** Without headers the frame starts with a lone CRLF: it never reads back. */
  lemma {:induction false} ZeroHeadersNeverReadBack(body: string, lim: Limits)
    ensures Frame([], body) == CRLF + body
    ensures !ReadsBack(Frame([], body), lim, [], body)
  {
  }

  /** Whatever parsed can be serialized and parsed again, as long as the normalised block fits. */
  lemma {:induction false} ReserializeExactly(frame: string, fs: seq<Field>, body: string, lim: Limits)
    requires Grammar(frame, lim, fs, body) && fs != []
    ensures ReadsBack(Frame(HeadersOf(fs), body), lim, HeadersOf(fs), body) <==>
              |Rendered(HeadersOf(fs))| <= lim.block + 2
  {
    HeadersClean(fs, lim);
    RoundTripExactly(HeadersOf(fs), body, lim);
  }
}
