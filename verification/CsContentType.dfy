/** Content-type matching in C#. */
module CsContentType {
  import opened Text
  import opened Lists

  /** Character data of the runtime: blanks, and the case folding of ordinal comparison. */
  datatype Culture = Culture(ws: char -> bool, fold: char -> char) {
    function Fold(s: string): string {
      seq(|s|, i requires 0 <= i < |s| => fold(s[i]))
    }
    function TrimL(s: string): (r: string)
      ensures |r| <= |s|
    { if s != "" && ws(s[0]) then TrimL(s[1..]) else s }
    function TrimR(s: string): string { if s != "" && ws(s[|s| - 1]) then TrimR(s[..|s| - 1]) else s }
    function Strip(s: string): string { TrimR(TrimL(s)) }
  }

  /** Split on ';', trimmed, without empty entries. */
  function Entries(s: string, cu: Culture): seq<string>
    decreases |s|
  {
    var k := Find(s, ";", 0);
    var e := cu.Strip(if k.Some? then s[..k.value] else s);
    var rest := if k.Some? then Entries(s[k.value + 1..], cu) else [];
    if e == "" then rest else [e] + rest
  }

  type Dictionary = map<string, string>

  /** Adding one `name=value` entry; a missing '=', an empty or a repeated name fails. */
  function Put(m: Option<Dictionary>, entry: string, cu: Culture): Option<Dictionary> {
    match (m, Find(entry, "=", 0))
    case (Some(d), Some(eq)) =>
      var name, value := cu.Strip(entry[..eq]), cu.Strip(entry[eq + 1..]);
      if name == "" || cu.Fold(name) in d then None else Some(d[cu.Fold(name) := value])
    case _ => None
  }

  /** The loop over the entries. */
  function Collect(entries: seq<string>, cu: Culture): Option<Dictionary> {
    if entries == [] then Some(map[])
    else Put(Collect(entries[..|entries| - 1], cu), entries[|entries| - 1], cu)
  }

  datatype CsType = CsType(media: string, params: Dictionary)

  function TryParse(s: string, cu: Culture): Option<CsType> {
    var entries := Entries(s, cu);
    if entries == [] then None
    else
      match Collect(entries[1..], cu)
      case None => None
      case Some(m) => Some(CsType(entries[0], m))
  }

  /** ContentTypesMatch: exact text when either side does not parse. */
  predicate CsMatches(a: string, b: string, cu: Culture) {
    match (TryParse(a, cu), TryParse(b, cu))
    case (Some(x), Some(y)) =>
      && cu.Fold(x.media) == cu.Fold(y.media)
      && |x.params| == |y.params|
      && forall k | k in x.params :: k in y.params && x.params[k] == y.params[k]
    case _ => a == b
  }

  datatype Canonical = Typed(media: string, params: Dictionary) | Raw(text: string)

  function Canon(s: string, cu: Culture): Canonical {
    match TryParse(s, cu)
    case Some(t) => Typed(cu.Fold(t.media), t.params)
    case None => Raw(s)
  }

  /** Matching is equality of canonical forms, for all strings. */
  lemma {:induction false} CsMatchesIsCanonicalEquality(a: string, b: string, cu: Culture)
    ensures CsMatches(a, b, cu) <==> Canon(a, cu) == Canon(b, cu)
  {
    hide TryParse;
    if TryParse(a, cu).Some? && TryParse(b, cu).Some? {
      var x, y := TryParse(a, cu).value.params, TryParse(b, cu).value.params;
      if |x| == |y| && forall k | k in x :: k in y && x[k] == y[k] {
        assert |x.Keys| == |x| && |y.Keys| == |y|;
        SubsetOfSameSize(x.Keys, y.Keys);
        assert x == y;
      }
    }
  }

  lemma {:induction false} CsMatchesIsEquivalence(a: string, b: string, c: string, cu: Culture)
    ensures CsMatches(a, a, cu)
    ensures CsMatches(a, b, cu) <==> CsMatches(b, a, cu)
    ensures CsMatches(a, b, cu) && CsMatches(b, c, cu) ==> CsMatches(a, c, cu)
  {
    CsMatchesIsCanonicalEquality(a, a, cu);
    CsMatchesIsCanonicalEquality(a, b, cu);
    CsMatchesIsCanonicalEquality(b, a, cu);
    CsMatchesIsCanonicalEquality(b, c, cu);
    CsMatchesIsCanonicalEquality(a, c, cu);
    hide CsMatches, Canon;
  }

  // ---- Parameter order in C# ------------------------------------------------

  lemma {:induction false} PutCommutes(m: Option<Dictionary>, a: string, b: string, cu: Culture)
    ensures Put(Put(m, a, cu), b, cu) == Put(Put(m, b, cu), a, cu)
  {
    hide Find, Culture.Strip, Culture.Fold;
    if m.Some? && Find(a, "=", 0).Some? && Find(b, "=", 0).Some? {
      var j, k := Find(a, "=", 0).value, Find(b, "=", 0).value;
      PutsCommute(m.value, cu.Fold(cu.Strip(a[..j])), cu.Strip(a[j + 1..]), cu.Fold(cu.Strip(b[..k])),
                  cu.Strip(b[k + 1..]));
    }
  }

  lemma {:induction false} PutsCommute(m: Dictionary, a: string, v: string, b: string, w: string)
    ensures a != b ==> m[a := v][b := w] == m[b := w][a := v]
  {
  }

  function Dropped(s: seq<string>, i: nat): seq<string>
    requires i < |s|
  {
    s[..i] + s[i + 1..]
  }

  lemma {:induction false} DroppedCounts(s: seq<string>, i: nat)
    requires i < |s|
    ensures multiset(Dropped(s, i)) == multiset(s) - multiset{s[i]}
  {
    assert s == s[..i] + [s[i]] + s[i + 1..];
  }

  lemma {:induction false} DroppedEarly(s: seq<string>, i: nat)
    requires i < |s| - 1
    ensures var r, init := Dropped(s, i), s[..|s| - 1];
            init[i] == s[i] && |r| == |s| - 1 && r[..|r| - 1] == Dropped(init, i) && r[|r| - 1] == s[|s| - 1]
  {
  }

  /** Any entry can be taken to have come last. */
  lemma {:induction false} CollectAnyLast(es: seq<string>, i: nat, cu: Culture)
    requires i < |es|
    ensures Collect(es, cu) == Put(Collect(Dropped(es, i), cu), es[i], cu)
    decreases |es|
  {
    hide Put;
    if i == |es| - 1 {
      assert Dropped(es, i) == es[..i];
    } else {
      hide Dropped;
      var init, last := es[..|es| - 1], es[|es| - 1];
      DroppedEarly(es, i);
      CollectAnyLast(init, i, cu);
      PutCommutes(Collect(Dropped(init, i), cu), es[i], last, cu);
    }
  }

  lemma {:induction false} CollectPermutes(ps: seq<string>, qs: seq<string>, cu: Culture)
    requires multiset(ps) == multiset(qs)
    ensures Collect(ps, cu) == Collect(qs, cu)
    decreases |ps|
  {
    assert |multiset(ps)| == |ps| && |multiset(qs)| == |qs|;
    hide Put, Dropped;
    if ps != [] {
      var n := |ps| - 1;
      assert ps[n] in multiset(qs);
      var i :| 0 <= i < |qs| && qs[i] == ps[n];
      CollectAnyLast(ps, n, cu);
      CollectAnyLast(qs, i, cu);
      DroppedCounts(ps, n);
      DroppedCounts(qs, i);
      CollectPermutes(Dropped(ps, n), Dropped(qs, i), cu);
    }
  }

  /**
   * For all strings: entries in another order, and another case in the media type, change neither
   * whether a content type parses nor what it matches.
   */
  lemma {:induction false} CsIgnoresOrder(a: string, b: string, c: string, cu: Culture)
    requires Entries(a, cu) != [] && Entries(b, cu) != []
    requires cu.Fold(Entries(a, cu)[0]) == cu.Fold(Entries(b, cu)[0])
    requires multiset(Entries(a, cu)[1..]) == multiset(Entries(b, cu)[1..])
    ensures TryParse(a, cu).Some? <==> TryParse(b, cu).Some?
    ensures TryParse(a, cu).Some? ==> CsMatches(a, b, cu) && (CsMatches(a, c, cu) <==> CsMatches(b, c, cu))
  {
    hide Entries, Collect, Culture.Fold;
    CollectPermutes(Entries(a, cu)[1..], Entries(b, cu)[1..], cu);
    if TryParse(a, cu).Some? {
      CsMatchesIsCanonicalEquality(a, b, cu);
      CsMatchesIsEquivalence(a, b, c, cu);
      CsMatchesIsEquivalence(b, a, c, cu);
      hide CsMatches;
    }
  }

  // ---- What a C# parse holds ------------------------------------------------

  /** An entry with an '=', a name before the first one that folds to `k`, and value `v` after it. */
  predicate Entry(entry: string, cu: Culture, k: string, v: string) {
    match Find(entry, "=", 0)
    case None => false
    case Some(eq) =>
      && cu.Strip(entry[..eq]) != "" && cu.Fold(cu.Strip(entry[..eq])) == k
      && cu.Strip(entry[eq + 1..]) == v
  }

  lemma {:induction false} EntryOne(entry: string, cu: Culture, k: string, v: string, l: string, w: string)
    requires Entry(entry, cu, k, v) && Entry(entry, cu, l, w)
    ensures k == l && v == w
  {
    hide Find, Culture.Strip, Culture.Fold;
  }

  lemma {:induction false} PutExactly(d: Dictionary, entry: string, cu: Culture)
    ensures Put(Some(d), entry, cu).Some? <==> exists k, v :: Entry(entry, cu, k, v) && k !in d
    ensures forall k, v | Entry(entry, cu, k, v) && k !in d :: Put(Some(d), entry, cu) == Some(d[k := v])
  {
    hide Find, Culture.Strip, Culture.Fold;
    if Put(Some(d), entry, cu).Some? {
      var eq := Find(entry, "=", 0).value;
      assert Entry(entry, cu, cu.Fold(cu.Strip(entry[..eq])), cu.Strip(entry[eq + 1..]));
    }
  }

  /** The entry has an '=' and a non-empty name before it. */
  ghost predicate IsEntry(entry: string, cu: Culture) {
    exists k, v :: Entry(entry, cu, k, v)
  }

  /** Every entry has a non-empty name, and no two names fold alike. */
  ghost predicate WellFormed(es: seq<string>, cu: Culture) {
    && (forall i | 0 <= i < |es| :: IsEntry(es[i], cu))
    && forall i, j, k, v, w | 0 <= i < j < |es| :: !(Entry(es[i], cu, k, v) && Entry(es[j], cu, k, w))
  }

  /** Some entry has name `k` and value `v`. */
  ghost predicate Has(es: seq<string>, cu: Culture, k: string, v: string) {
    exists i :: 0 <= i < |es| && Entry(es[i], cu, k, v)
  }

  ghost predicate Holds(d: Dictionary, es: seq<string>, cu: Culture) {
    forall k, v :: (k in d && d[k] == v) <==> Has(es, cu, k, v)
  }

  lemma {:induction false} HasSnoc(es: seq<string>, e: string, cu: Culture, k: string, v: string)
    ensures Has(es + [e], cu, k, v) <==> Has(es, cu, k, v) || Entry(e, cu, k, v)
  {
    hide Entry;
    if i :| 0 <= i < |es| && Entry(es[i], cu, k, v) {
      assert (es + [e])[i] == es[i];
    }
    assert (es + [e])[|es|] == e;
  }

  lemma {:induction false} WellFormedSnoc(es: seq<string>, e: string, cu: Culture)
    ensures WellFormed(es + [e], cu) <==>
              && WellFormed(es, cu)
              && exists k, v :: Entry(e, cu, k, v) && forall w :: !Has(es, cu, k, w)
  {
    hide Entry;
    var all := es + [e];
    assert all[|es|] == e && forall i | 0 <= i < |es| :: all[i] == es[i];
    if WellFormed(all, cu) {
      forall i | 0 <= i < |es|
        ensures IsEntry(es[i], cu)
      {
        assert IsEntry(all[i], cu);
      }
      forall i, j, k, v, w | 0 <= i < j < |es|
        ensures !(Entry(es[i], cu, k, v) && Entry(es[j], cu, k, w))
      {
        assert !(Entry(all[i], cu, k, v) && Entry(all[j], cu, k, w));
      }
      assert IsEntry(all[|es|], cu);
      var k, v :| Entry(e, cu, k, v);
      forall w
        ensures !Has(es, cu, k, w)
      {
        if i :| 0 <= i < |es| && Entry(es[i], cu, k, w) {
          assert Entry(all[i], cu, k, w) && Entry(all[|es|], cu, k, v);
        }
      }
    }
    if WellFormed(es, cu) && exists k, v :: Entry(e, cu, k, v) && forall w :: !Has(es, cu, k, w) {
      WellFormedWith(es, e, cu);
    }
  }

  lemma {:induction false} WellFormedWith(es: seq<string>, e: string, cu: Culture)
    requires WellFormed(es, cu) && exists k, v :: Entry(e, cu, k, v) && forall w :: !Has(es, cu, k, w)
    ensures WellFormed(es + [e], cu)
  {
    var all := es + [e];
    var k, v :| Entry(e, cu, k, v) && forall w :: !Has(es, cu, k, w);
    forall l, x | Entry(e, cu, l, x)
      ensures l == k && x == v
    {
      EntryOne(e, cu, k, v, l, x);
    }
    hide Entry;
    forall i | 0 <= i < |all|
      ensures IsEntry(all[i], cu)
    {
      if i < |es| {
        assert IsEntry(es[i], cu);
      } else {
        assert Entry(all[i], cu, k, v);
      }
    }
    forall i, j, l, x, y | 0 <= i < j < |all|
      ensures !(Entry(all[i], cu, l, x) && Entry(all[j], cu, l, y))
    {
      if j == |es| && Entry(all[i], cu, l, x) {
        assert Has(es, cu, l, x);
      }
    }
  }

  /** The entries parse exactly when they are well formed, and the dictionary then holds what they say. */
  lemma {:induction false} CollectExactly(es: seq<string>, cu: Culture)
    ensures Collect(es, cu).Some? <==> WellFormed(es, cu)
    ensures Collect(es, cu).Some? ==> Holds(Collect(es, cu).value, es, cu)
  {
    hide Put, Entry;
    if es != [] {
      var init, e := es[..|es| - 1], es[|es| - 1];
      assert es == init + [e];
      CollectExactly(init, cu);
      WellFormedSnoc(init, e, cu);
      var before := Collect(init, cu);
      if before.Some? {
        CollectStep(before.value, init, e, cu);
      } else {
        PutNone(e, cu);
      }
    }
  }

  lemma {:induction false} PutNone(e: string, cu: Culture)
    ensures Put(None, e, cu).None?
  {
  }

  lemma {:induction false} CollectStep(d: Dictionary, es: seq<string>, e: string, cu: Culture)
    requires Holds(d, es, cu)
    ensures Put(Some(d), e, cu).Some? <==> exists k, v :: Entry(e, cu, k, v) && forall w :: !Has(es, cu, k, w)
    ensures Put(Some(d), e, cu).Some? ==> Holds(Put(Some(d), e, cu).value, es + [e], cu)
  {
    PutExactly(d, e, cu);
    hide Put;
    forall k
      ensures k !in d <==> forall w :: !Has(es, cu, k, w)
    {
      if k in d {
        assert Has(es, cu, k, d[k]);
      }
    }
    if k, v :| Entry(e, cu, k, v) && k !in d {
      forall l, x
        ensures l in d[k := v] && d[k := v][l] == x <==> Has(es + [e], cu, l, x)
      {
        HasSnoc(es, e, cu, l, x);
        if Entry(e, cu, l, x) {
          EntryOne(e, cu, k, v, l, x);
        }
      }
    }
  }

  /** A content type parses exactly when it has an entry and those after the first are well formed. */
  lemma {:induction false} TryParseExactly(s: string, cu: Culture)
    ensures var es := Entries(s, cu);
            && (TryParse(s, cu).Some? <==> es != [] && WellFormed(es[1..], cu))
            && (TryParse(s, cu).Some? ==>
                  TryParse(s, cu).value.media == es[0] && Holds(TryParse(s, cu).value.params, es[1..], cu))
  {
    hide Entries, Collect;
    if Entries(s, cu) != [] {
      CollectExactly(Entries(s, cu)[1..], cu);
    }
  }

  /**
   * Two texts that parse match exactly when their media types fold alike and they have the same
   * (folded name, value) pairs; two texts not both of which parse match exactly when they are equal.
   */
  lemma {:induction false} CsMatchesExactly(a: string, b: string, cu: Culture)
    ensures var x, y := Entries(a, cu), Entries(b, cu);
            CsMatches(a, b, cu) <==>
              if x != [] && WellFormed(x[1..], cu) && y != [] && WellFormed(y[1..], cu) then
                cu.Fold(x[0]) == cu.Fold(y[0]) && forall k, v :: Has(x[1..], cu, k, v) <==> Has(y[1..], cu, k, v)
              else a == b
  {
    hide Entries, Has, WellFormed, Culture.Fold;
    TryParseExactly(a, cu);
    TryParseExactly(b, cu);
    CsMatchesIsCanonicalEquality(a, b, cu);
    hide TryParse, CsMatches;
    if TryParse(a, cu).Some? && TryParse(b, cu).Some? {
      var x, y := TryParse(a, cu).value.params, TryParse(b, cu).value.params;
      SameHoldings(x, y, Entries(a, cu)[1..], Entries(b, cu)[1..], cu);
    }
  }

  lemma {:induction false} SameHoldings(d: Dictionary, e: Dictionary, xs: seq<string>, ys: seq<string>, cu: Culture)
    requires Holds(d, xs, cu) && Holds(e, ys, cu)
    ensures d == e <==> forall k, v :: Has(xs, cu, k, v) <==> Has(ys, cu, k, v)
  {
    hide Has;
    if forall k, v :: Has(xs, cu, k, v) <==> Has(ys, cu, k, v) {
      forall k
        ensures (k in d <==> k in e) && (k in d ==> d[k] == e[k])
      {
        if k in d {
          assert Has(xs, cu, k, d[k]);
        }
        if k in e {
          assert Has(ys, cu, k, e[k]);
        }
      }
    }
  }

  // ---- Texts with given entries ---------------------------------------------

  function JoinedEntries(es: seq<string>): string {
    if es == [] then "" else if |es| == 1 then es[0] else es[0] + ";" + JoinedEntries(es[1..])
  }

  /** The text before a ';' gives one entry without its outer blanks, and none if it is blank. */
  lemma {:induction false} EntriesExactly(e: string, rest: string, cu: Culture)
    requires ';' !in e
    ensures var first := if cu.Strip(e) == "" then [] else [cu.Strip(e)];
            Entries(e, cu) == first && Entries(e + ";" + rest, cu) == first + Entries(rest, cu)
  {
    FindAbsent(e, ";");
    FindAfter(e, ";", rest);
    var text := e + ";" + rest;
    assert text[..|e|] == e && text[|e| + 1..] == rest;
    hide Find, Culture.Strip;
    assert [] + Entries(rest, cu) == Entries(rest, cu);
  }

  /** Entries that are not empty, have no outer blanks and no ';' are read back from their text. */
  lemma {:induction false} EntriesReadBack(es: seq<string>, cu: Culture)
    requires forall i | 0 <= i < |es| :: es[i] != "" && cu.Strip(es[i]) == es[i] && ';' !in es[i]
    ensures Entries(JoinedEntries(es), cu) == es
    decreases |es|
  {
    hide Entries, Culture.Strip;
    EntriesNone(cu);
    if es != [] {
      assert es == [es[0]] + es[1..];
      EntriesReadBack(es[1..], cu);
      EntriesExactly(es[0], JoinedEntries(es[1..]), cu);
    }
  }

  lemma {:induction false} EntriesNone(cu: Culture)
    ensures Entries("", cu) == []
  {
  }
}
