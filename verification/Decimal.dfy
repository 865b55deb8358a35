/** Unsigned decimal header and parameter values. */
module Decimal {
  import opened Text

  const MAX_U16 := 0xffff
  const MAX_U32 := 0xffff_ffff
  const MAX_U64 := 0xffff_ffff_ffff_ffff

  predicate IsDigit(c: char) {
    '0' <= c <= '9'
  }

  function Digit(c: char): nat
    requires IsDigit(c)
  {
    c as int - '0' as int
  }

  /** The one way to write `n`: no sign, no leading zero. */
  function Render(n: nat): (s: string)
    ensures s != "" && IsDigit(s[|s| - 1])
  {
    var last := ['0' + (n % 10) as char];
    if n < 10 then last else Render(n / 10) + last
  }

  predicate AllDigits(s: string) {
    s == "" || (IsDigit(s[|s| - 1]) && AllDigits(s[..|s| - 1]))
  }

  function Value(s: string): nat
    requires AllDigits(s)
  {
    if s == "" then 0 else Value(s[..|s| - 1]) * 10 + Digit(s[|s| - 1])
  }

  /** A value is read only from its canonical text, and only within the bound. */
  function Read(s: string, max: nat): Option<nat> {
    if s == "" || (|s| > 1 && s[0] == '0') || !AllDigits(s) || Value(s) > max then None
    else Some(Value(s))
  }

  lemma {:induction false} RenderReads(n: nat)
    ensures AllDigits(Render(n)) && Value(Render(n)) == n
    ensures n > 0 ==> Render(n)[0] != '0'
  {
    var s := Render(n);
    if n < 10 {
      assert s[..|s| - 1] == "";
    } else {
      RenderReads(n / 10);
      assert s[..|s| - 1] == Render(n / 10);
    }
  }

  lemma {:induction false} RenderSnoc(n: nat, c: char)
    requires IsDigit(c)
    ensures Render(n * 10 + Digit(c)) == if n == 0 then [c] else Render(n) + [c]
  {
  }

  lemma {:induction false} ReadRenders(s: string)
    requires s != "" && AllDigits(s) && (|s| > 1 ==> s[0] != '0')
    ensures Render(Value(s)) == s
    ensures |s| > 1 ==> Value(s) >= 10
  {
    var init, last := s[..|s| - 1], s[|s| - 1];
    RenderSnoc(Value(init), last);
    if init == "" {
      assert s == [last];
    } else {
      assert init[0] == s[0];
      ReadRenders(init);
      assert Value(init) > 0 by {
        if |init| == 1 {
          assert init[..0] == "";
        }
      }
      hide Render;
      assert s == init + [last];
    }
  }

  /** Reading inverts rendering: exactly the canonical decimals of values within the bound. */
  lemma {:induction false} ReadExactly(s: string, max: nat, n: nat)
    ensures Read(s, max) == Some(n) <==> n <= max && s == Render(n)
  {
    RenderReads(n);
    if Read(s, max) == Some(n) {
      ReadRenders(s);
    }
    if s == Render(n) && n == 0 {
      assert |s| == 1;
    }
  }

  datatype NumberError = InvalidNumericParameter | LeadingZero

  lemma {:induction false} DigitsSplit(s: string, i: nat)
    requires i < |s|
    ensures AllDigits(s[..i + 1]) <==> AllDigits(s[..i]) && IsDigit(s[i])
    ensures AllDigits(s[..i + 1]) ==> Value(s[..i + 1]) == Value(s[..i]) * 10 + Digit(s[i])
  {
    assert s[..i + 1][..i] == s[..i];
  }

  lemma {:induction false} DigitsPrefix(s: string, i: nat)
    requires i <= |s| && AllDigits(s)
    ensures AllDigits(s[..i]) && Value(s[..i]) <= Value(s)
    decreases |s|
  {
    if i == |s| {
      assert s[..i] == s;
    } else {
      DigitsPrefix(s[..|s| - 1], i);
      assert s[..|s| - 1][..i] == s[..i];
    }
  }

  /** parse_u32: digit by digit, with an overflow test that never lets the accumulator wrap. */
  method ParseU32(value: string) returns (r: Result<nat, NumberError>)
    ensures r.Ok? <==> exists n: nat :: n <= MAX_U32 && value == Render(n)
    ensures r.Ok? ==> value == Render(r.value) && r.value <= MAX_U32
    ensures r == Err(LeadingZero) <==> |value| > 1 && value[0] == '0'
  {
    forall n: nat
      ensures Read(value, MAX_U32) == Some(n) <==> n <= MAX_U32 && value == Render(n)
    {
      ReadExactly(value, MAX_U32, n);
    }
    hide Render;
    if value == "" {
      return Err(InvalidNumericParameter);
    }
    if |value| > 1 && value[0] == '0' {
      return Err(LeadingZero);
    }
    var parsed: nat := 0;
    for i := 0 to |value|
      invariant AllDigits(value[..i]) && parsed == Value(value[..i]) <= MAX_U32
    {
      DigitsSplit(value, i);
      if AllDigits(value) {
        DigitsPrefix(value, i + 1);
      }
      if !IsDigit(value[i]) {
        return Err(InvalidNumericParameter);
      }
      var digit := Digit(value[i]);
      if parsed > (MAX_U32 - digit) / 10 {
        return Err(InvalidNumericParameter);
      }
      assert parsed * 10 + digit <= MAX_U32;
      parsed := parsed * 10 + digit;
    }
    assert value[..|value|] == value;
    ReadExactly(value, MAX_U32, parsed);
    return Ok(parsed);
  }

  /** parse_u16: the same, then the narrower range. */
  method ParseU16(value: string) returns (r: Result<nat, NumberError>)
    ensures r.Ok? <==> exists n: nat :: n <= MAX_U16 && value == Render(n)
    ensures r.Ok? ==> value == Render(r.value) && r.value <= MAX_U16
  {
    r := ParseU32(value);
    if r.Ok? && r.value > MAX_U16 {
      forall n: nat | value == Render(n)
        ensures n > MAX_U16
      {
        RenderReads(n);
        RenderReads(r.value);
      }
      return Err(InvalidNumericParameter);
    }
  }
}
