/** Byte-string helpers shared by the C++ components; a string holds one char per byte. */
module Text {

  datatype Option<+T> = None | Some(value: T)

  datatype Result<+T, +E> = Ok(value: T) | Err(error: E)

  const CRLF := "\r\n"
  const TERMINATOR := "\r\n\r\n"

  /** `pat` occurs in `s` at index `i`. */
  predicate At(s: string, pat: string, i: int) {
    0 <= i <= |s| - |pat| && forall k | 0 <= k < |pat| :: s[i + k] == pat[k]
  }

  lemma {:induction false} NotAt(s: string, pat: string, i: nat, k: nat)
    requires k < |pat| && i + k < |s| && s[i + k] != pat[k]
    ensures !At(s, pat, i)
  {
  }

  /** First occurrence at or after `from`: std::string_view::find. */
  function Find(s: string, pat: string, from: nat): (r: Option<nat>)
    ensures r.Some? ==> from <= r.value && At(s, pat, r.value)
    ensures r.Some? ==> forall i | from <= i < r.value :: !At(s, pat, i)
    ensures r.None? ==> forall i | from <= i :: !At(s, pat, i)
    decreases |s| - from
  {
    if from + |pat| > |s| then None
    else if At(s, pat, from) then Some(from)
    else Find(s, pat, from + 1)
  }

  lemma {:induction false} FindBound(s: string, pat: string, from: nat)
    requires Find(s, pat, from).Some?
    ensures from <= Find(s, pat, from).value <= |s| - |pat|
  {
  }

  /** A character absent from `head` cannot start a match before `head` ends. */
  lemma {:induction false} FindAfter(head: string, pat: string, tail: string)
    requires pat != "" && pat[0] !in head
    ensures Find(head + pat + tail, pat, 0) == Some(|head|)
  {
    var s := head + pat + tail;
    assert At(s, pat, |head|);
    forall i | 0 <= i < |head|
      ensures !At(s, pat, i)
    {
      assert s[i + 0] == head[i];
    }
  }

  /** Searching a suffix is searching the whole string from that index. */
  lemma {:induction false} FindShift(s: string, pat: string, from: nat)
    requires from <= |s|
    ensures Find(s, pat, from).None? <==> Find(s[from..], pat, 0).None?
    ensures Find(s, pat, from).Some? ==>
              Find(s, pat, from).value == from + Find(s[from..], pat, 0).value
  {
    forall i | from <= i
      ensures At(s, pat, i) <==> At(s[from..], pat, i - from)
    {
      if i + |pat| <= |s| {
        assert s[i..i + |pat|] == s[from..][i - from..i - from + |pat|];
      }
    }
    var t := Find(s[from..], pat, 0);
    if t.Some? {
      assert At(s, pat, from + t.value);
    }
  }

  /** No occurrence before `from` makes the whole search the search from there. */
  lemma {:induction false} FindFrom(s: string, pat: string, from: nat)
    requires forall i | 0 <= i < from :: !At(s, pat, i)
    ensures Find(s, pat, 0) == Find(s, pat, from)
  {
  }

  lemma {:induction false} FindAbsent(s: string, pat: string)
    requires pat != "" && pat[0] !in s
    ensures Find(s, pat, 0) == None
  {
  }

  predicate Ws(c: char) {
    c == ' ' || c == '\t'
  }

  function TrimLeft(s: string): (r: string)
    ensures |r| <= |s|
  {
    if s != "" && Ws(s[0]) then TrimLeft(s[1..]) else s
  }

  function TrimRight(s: string): (r: string)
    ensures |r| <= |s|
  {
    if s != "" && Ws(s[|s| - 1]) then TrimRight(s[..|s| - 1]) else s
  }

  function Trim(s: string): (r: string)
    ensures |r| <= |s|
  {
    TrimRight(TrimLeft(s))
  }

  /** Trimming left removes a run of blanks and stops at the first other character. */
  lemma {:induction false} TrimLeftSpan(s: string)
    ensures var n := |s| - |TrimLeft(s)|;
            && TrimLeft(s) == s[n..]
            && (TrimLeft(s) != "" ==> !Ws(s[n]))
            && forall i | 0 <= i < n :: Ws(s[i])
  {
    if s != "" && Ws(s[0]) {
      TrimLeftSpan(s[1..]);
    }
  }

  lemma {:induction false} TrimRightSpan(s: string)
    ensures var n := |TrimRight(s)|;
            && TrimRight(s) == s[..n]
            && (n != 0 ==> !Ws(s[n - 1]))
            && forall i | n <= i < |s| :: Ws(s[i])
  {
    if s != "" && Ws(s[|s| - 1]) {
      TrimRightSpan(s[..|s| - 1]);
    }
  }

  /** Neither starts nor ends with a space or a tab. */
  predicate Trimmed(s: string) {
    s == "" || (s[0] != ' ' && s[0] != '\t' && s[|s| - 1] != ' ' && s[|s| - 1] != '\t')
  }

  /** The trimmed text is the slice of `s` between its outer runs of blanks. */
  lemma {:induction false} TrimSpan(s: string)
    ensures var from := |s| - |TrimLeft(s)|;
            var to := from + |Trim(s)|;
            && 0 <= from <= to <= |s|
            && Trim(s) == s[from..to] && Trimmed(Trim(s))
            && (forall i | 0 <= i < from :: s[i] == ' ' || s[i] == '\t')
            && (forall i | to <= i < |s| :: s[i] == ' ' || s[i] == '\t')
  {
    hide TrimLeft, TrimRight;
    TrimLeftSpan(s);
    TrimRightSpan(TrimLeft(s));
    var from := |s| - |TrimLeft(s)|;
    var to := from + |Trim(s)|;
    assert s[from..][..to - from] == s[from..to];
    forall i | to <= i < |s|
      ensures Ws(s[i])
    {
      assert s[i] == TrimLeft(s)[i - from];
    }
  }

  lemma {:induction false} TrimChars(s: string, c: char)
    ensures c in Trim(s) ==> c in s
    ensures c in s ==> c in Trim(s) || Ws(c)
  {
    TrimSpan(s);
    var from := |s| - |TrimLeft(s)|;
    if c in s {
      var i :| 0 <= i < |s| && s[i] == c;
      if from <= i < from + |Trim(s)| {
        assert Trim(s)[i - from] == c;
      }
    }
  }

  lemma {:induction false} TrimIdle(s: string)
    requires Trimmed(s)
    ensures Trim(s) == s && Trim(" " + s) == s
  {
  }

  function Lower(c: char): char {
    if 'A' <= c <= 'Z' then (c as int + 32) as char else c
  }

  function LowerAll(s: string): (r: string)
    ensures |r| == |s| && forall i | 0 <= i < |s| :: r[i] == Lower(s[i])
  {
    seq(|s|, i requires 0 <= i < |s| => Lower(s[i]))
  }

  /** ASCII case-insensitive equality. */
  predicate IEquals(a: string, b: string) {
    |a| == |b| && forall i | 0 <= i < |a| :: Lower(a[i]) == Lower(b[i])
  }

  /** Two characters are equal ignoring case exactly when they are equal or the two cases of one ASCII letter. */
  lemma {:induction false} LowerExactly(c: char, d: char)
    ensures Lower(c) == Lower(d) <==>
              || c == d
              || ('A' <= c <= 'Z' && d as int == c as int + 32)
              || ('A' <= d <= 'Z' && c as int == d as int + 32)
  {
  }
}
