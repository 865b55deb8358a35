/** Which error the header parser reports: that of the first line it cannot take. */
module MessageErrors {
  import opened Text
  import opened Message

  /** The lines of `fs`, each with its CRLF. */
  function Lines(fs: seq<Field>): string {
    if fs == [] then "" else fs[0].Line() + CRLF + Lines(fs[1..])
  }

  /** Why a line alone is no header: no colon, or what its first colon separates. */
  ghost predicate BadLine(line: string, lim: Limits, e: Error) {
    if ':' !in line then e == InvalidHeaderLine else exists name, raw :: BadSplit(line, name, raw, lim, e)
  }

  ghost predicate BadSplit(line: string, name: string, raw: string, lim: Limits, e: Error) {
    && line == name + ":" + raw && ':' !in name
    && if !ValidName(name) then e == InvalidHeaderName
       else e == InvalidHeaderValue && (|Trim(raw)| > lim.value || !ValidValue(Trim(raw)))
  }

  /** A line that is a header with a reserved name the lines before it have used. */
  ghost predicate RepeatedLine(line: string, lim: Limits, before: seq<Field>) {
    exists f: Field :: line == f.Line() && f.Valid(lim) && Repeats(f, before)
  }

  ghost predicate Repeats(f: Field, before: seq<Field>) {
    exists i, k: nat :: 0 <= i < |before| && Named(f.name, k) && Named(before[i].name, k)
  }

  /** After good lines `fs`, the parser cannot go on with `rest`, for reason `e`. */
  ghost predicate Stops(block: string, lim: Limits, fs: seq<Field>, rest: string, e: Error) {
    && block == Lines(fs) + rest && rest != ""
    && (forall f | f in fs :: f.Valid(lim))
    && NoDuplicates(fs) && |fs| <= lim.count
    && if |fs| == lim.count then e == HeaderBlockTooLarge
       else
         var line := CutLine(rest).line;
         BadLine(line, lim, e) || (e == DuplicateHeader && RepeatedLine(line, lim, fs))
  }

  lemma {:induction false} ColonFirst(name: string, raw: string)
    requires ':' !in name
    ensures var line := name + ":" + raw;
            Find(line, ":", 0) == Some(|name|) && line[..|name|] == name && line[|name| + 1..] == raw
  {
    FindAfter(name, ":", raw);
  }

  lemma {:induction false} NoColon(line: string)
    ensures Find(line, ":", 0).None? <==> ':' !in line
    ensures Find(line, ":", 0).Some? ==>
              var k := Find(line, ":", 0).value;
              k < |line| && line == line[..k] + ":" + line[k + 1..] && ':' !in line[..k]
  {
    var k := Find(line, ":", 0);
    if k.None? {
      forall i | 0 <= i < |line|
        ensures line[i] != ':'
      {
        assert !At(line, ":", i);
      }
    } else {
      FindBound(line, ":", 0);
      assert line[k.value + 0] == ":"[0];
      forall i | 0 <= i < k.value
        ensures line[i] != ':'
      {
        assert !At(line, ":", i);
      }
    }
  }

  lemma {:induction false} LineErrors(line: string, lim: Limits, e: Error)
    ensures ParseLine(line, lim) == Err(e) <==> BadLine(line, lim, e)
  {
    NoColon(line);
    hide Find, ValidName, ValidValue, Trim, At;
    if ':' in line {
      var k := Find(line, ":", 0).value;
      forall name, raw | BadSplit(line, name, raw, lim, e)
        ensures name == line[..k] && raw == line[k + 1..]
      {
        ColonFirst(name, raw);
      }
      assert ParseLine(line, lim) == Err(e) <==> BadSplit(line, line[..k], line[k + 1..], lim, e);
    }
  }

  // ---- The loop -------------------------------------------------------------

  lemma {:induction false} CutFirst(f: Field, more: string, lim: Limits)
    requires f.Valid(lim)
    ensures var rest := f.Line() + CRLF + more; rest != "" && CutLine(rest) == Cut(f.Line(), more)
  {
    LineHasNoCr(f, lim);
    FindAfter(f.Line(), CRLF, more);
    var rest, line := f.Line() + CRLF + more, f.Line();
    assert rest[..|line|] == line && rest[|line| + 2..] == more;
  }

  /** The reason to stop, with the slots filled so far. */
  ghost predicate StopsNow(rest: string, lim: Limits, seen: Walk, e: Error) {
    && rest != ""
    && if |seen.fields| >= lim.count then e == HeaderBlockTooLarge
       else
         match ParseLine(CutLine(rest).line, lim)
         case Err(x) => e == x
         case Ok(f) => Add(seen, f).None? && e == DuplicateHeader
  }

  lemma {:induction false} StopIf(fs: seq<Field>, rest: string, lim: Limits, seen: Walk, e: Error)
    requires forall f | f in fs :: f.Valid(lim)
    requires NoDuplicates(fs) && Fresh(fs, seen.slots) && |seen.fields| + |fs| <= lim.count
    requires StopsNow(rest, lim, Walk(seen.fields + fs, SlotsOf(fs) + seen.slots), e)
    ensures ParseBlock(Lines(fs) + rest, lim, seen) == Err(e)
    decreases |fs|
  {
    if fs == [] {
      assert Lines(fs) + rest == rest;
      assert seen.fields + fs == seen.fields && SlotsOf(fs) + seen.slots == seen.slots;
    } else {
      var f, gs := fs[0], fs[1..];
      assert fs == [f] + gs;
      CutFirst(f, Lines(gs) + rest, lim);
      assert Lines(fs) + rest == f.Line() + CRLF + (Lines(gs) + rest);
      ParseLineExact(f.Line(), lim, f);
      AddIff(seen, f, gs);
      AddSlots(seen, f, gs);
      hide ParseLine, CutLine, ReservedOf, NoDuplicates, Fresh, SlotsOf, Lines, StopsNow;
      StopIf(gs, rest, lim, Add(seen, f).value, e);
    }
  }

  lemma {:induction false} StopOnlyIf(all: string, lim: Limits, seen: Walk, e: Error)
    returns (fs: seq<Field>, rest: string)
    requires ParseBlock(all, lim, seen) == Err(e) && |seen.fields| <= lim.count
    ensures all == Lines(fs) + rest
    ensures forall f | f in fs :: f.Valid(lim)
    ensures NoDuplicates(fs) && Fresh(fs, seen.slots) && |seen.fields| + |fs| <= lim.count
    ensures StopsNow(rest, lim, Walk(seen.fields + fs, SlotsOf(fs) + seen.slots), e)
    decreases |all|
  {
    if StopsNow(all, lim, seen, e) {
      fs, rest := [], all;
      assert Lines(fs) + rest == rest;
      assert seen.fields + fs == seen.fields && SlotsOf(fs) + seen.slots == seen.slots;
    } else {
      var c := CutLine(all);
      CutJoin(all);
      var f := ParseLine(c.line, lim).value;
      ParseLineExact(c.line, lim, f);
      assert c.next != "" by { NothingLeft(lim, Add(seen, f).value); }
      hide ParseLine, CutLine, ReservedOf, NoDuplicates, Fresh, SlotsOf, StopsNow;
      var gs;
      gs, rest := StopOnlyIf(c.next, lim, Add(seen, f).value, e);
      fs := [f] + gs;
      AddIff(seen, f, gs);
      AddSlots(seen, f, gs);
      LinesCons(f, gs, rest);
    }
  }

  lemma {:induction false} NothingLeft(lim: Limits, seen: Walk)
    ensures ParseBlock("", lim, seen).Ok?
  {
  }

  lemma {:induction false} LinesCons(f: Field, gs: seq<Field>, rest: string)
    ensures Lines([f] + gs) + rest == f.Line() + CRLF + (Lines(gs) + rest)
  {
    assert ([f] + gs)[1..] == gs;
    hide Field.Line;
    assert f.Line() + CRLF + Lines(gs) + rest == f.Line() + CRLF + (Lines(gs) + rest);
  }

  /** What stops the loop after `fs` is what `Stops` says in plain terms. */
  lemma {:induction false} StopsPlainly(lim: Limits, fs: seq<Field>, rest: string, e: Error)
    requires NoDuplicates(fs) && |fs| <= lim.count && rest != ""
    ensures StopsNow(rest, lim, Walk([] + fs, SlotsOf(fs) + map[]), e) <==>
              if |fs| == lim.count then e == HeaderBlockTooLarge
              else BadLine(CutLine(rest).line, lim, e)
                   || (e == DuplicateHeader && RepeatedLine(CutLine(rest).line, lim, fs))
  {
    assert [] + fs == fs && SlotsOf(fs) + map[] == SlotsOf(fs);
    var line := CutLine(rest).line;
    LineErrors(line, lim, e);
    RepeatedExactly(line, lim, fs);
    hide CutLine, BadLine, RepeatedLine, ParseLine, Add, SlotsOf;
  }

  lemma {:induction false} RepeatsExactly(f: Field, fs: seq<Field>)
    requires NoDuplicates(fs)
    ensures Add(Walk(fs, SlotsOf(fs)), f).None? <==> Repeats(f, fs)
  {
    SlotsBySlot(fs);
    forall g: Field, k: nat
      ensures ReservedOf(g.name) == Some(k) <==> Named(g.name, k)
    {
      ReservedExactly(g.name, k);
    }
    hide ReservedOf, Named, SlotsOf, NoDuplicates, Field.Value;
    if Add(Walk(fs, SlotsOf(fs)), f).None? {
      var k := ReservedOf(f.name).value;
      var g :| g in fs && ReservedOf(g.name) == Some(k);
      var i :| 0 <= i < |fs| && fs[i] == g;
      assert Named(f.name, k) && Named(fs[i].name, k);
    }
    if i, k: nat :| 0 <= i < |fs| && Named(f.name, k) && Named(fs[i].name, k) {
      assert fs[i] in fs && ReservedOf(fs[i].name) == Some(k) && ReservedOf(f.name) == Some(k);
    }
  }

  lemma {:induction false} RepeatedExactly(line: string, lim: Limits, fs: seq<Field>)
    requires NoDuplicates(fs)
    ensures ParseLine(line, lim).Ok? && Add(Walk(fs, SlotsOf(fs)), ParseLine(line, lim).value).None?
            <==> RepeatedLine(line, lim, fs)
  {
    forall f: Field
      ensures ParseLine(line, lim) == Ok(f) <==> line == f.Line() && f.Valid(lim)
      ensures Add(Walk(fs, SlotsOf(fs)), f).None? <==> Repeats(f, fs)
    {
      ParseLineExact(line, lim, f);
      RepeatsExactly(f, fs);
    }
    hide ParseLine, Repeats, SlotsOf, NoDuplicates, Field.Line, Field.Valid, Add;
    if ParseLine(line, lim).Ok? {
      var f := ParseLine(line, lim).value;
      assert line == f.Line() && f.Valid(lim);
    }
  }

  /** The line loop fails with `e` exactly when some good lines are followed by one it stops at for that reason. */
  lemma {:induction false} BlockErrors(block: string, lim: Limits, e: Error)
    ensures ParseBlock(block, lim, Walk([], map[])) == Err(e) <==> exists fs, rest :: Stops(block, lim, fs, rest, e)
  {
    hide ParseBlock, StopsNow, NoDuplicates, BadLine, RepeatedLine, Lines, SlotsOf;
    var none := Walk([], map[]);
    if ParseBlock(block, lim, none) == Err(e) {
      var fs, rest := StopOnlyIf(block, lim, none, e);
      NotEmpty(rest, lim, Walk(none.fields + fs, SlotsOf(fs) + none.slots), e);
      StopsPlainly(lim, fs, rest, e);
      assert Stops(block, lim, fs, rest, e);
    }
    if fs, rest :| Stops(block, lim, fs, rest, e) {
      StopsPlainly(lim, fs, rest, e);
      StopIf(fs, rest, lim, none, e);
    }
  }

  lemma {:induction false} NotEmpty(rest: string, lim: Limits, seen: Walk, e: Error)
    requires StopsNow(rest, lim, seen, e)
    ensures rest != ""
  {
  }

  /**
   * Every error of parse_headers: no terminator in a frame within the block limit; a block, or what
   * there is of it, past the limit; or the first line that cannot be taken.
   */
  lemma {:induction false} ErrorsExactly(frame: string, lim: Limits, e: Error)
    ensures Parse(frame, lim) == Err(e) <==>
              match Find(frame, TERMINATOR, 0)
              case None => e == if |frame| <= lim.block then MissingHeaderTerminator else HeaderBlockTooLarge
              case Some(t) =>
                if t > lim.block then e == HeaderBlockTooLarge
                else exists fs, rest :: Stops(frame[..t], lim, fs, rest, e)
  {
    BoundedSearch(frame, lim);
    var t := Find(frame, TERMINATOR, 0);
    hide ParseBlock, Stops, Find, At;
    if t.Some? && t.value <= lim.block {
      BlockErrors(frame[..t.value], lim, e);
    } else if t.Some? {
      FindBound(frame, TERMINATOR, 0);
    }
  }
}
