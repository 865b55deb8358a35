/** Auth-refresh challenges: hex text, constant-time comparison, and the one-shot nonce. */
module AuthRefresh {
  import opened Text

  type Bytes = seq<bv8>

  const NONCE_BYTES := 32

  // ---- Hex ------------------------------------------------------------------

  function HexDigit(n: bv8): char {
    match n
    case 0 => '0' case 1 => '1' case 2 => '2' case 3 => '3'
    case 4 => '4' case 5 => '5' case 6 => '6' case 7 => '7'
    case 8 => '8' case 9 => '9' case 10 => 'a' case 11 => 'b'
    case 12 => 'c' case 13 => 'd' case 14 => 'e' case _ => 'f'
  }

  function HexValue(c: char): Option<bv8> {
    match Lower(c)
    case '0' => Some(0) case '1' => Some(1) case '2' => Some(2) case '3' => Some(3)
    case '4' => Some(4) case '5' => Some(5) case '6' => Some(6) case '7' => Some(7)
    case '8' => Some(8) case '9' => Some(9) case 'a' => Some(10) case 'b' => Some(11)
    case 'c' => Some(12) case 'd' => Some(13) case 'e' => Some(14) case 'f' => Some(15)
    case _ => None
  }

  lemma {:induction false} HexDigitValue(n: bv8)
    requires n < 16
    ensures HexValue(HexDigit(n)) == Some(n)
  {
  }

  lemma {:induction false} HexValueDigit(c: char)
    requires HexValue(c).Some?
    ensures HexValue(c).value < 16 && HexDigit(HexValue(c).value) == Lower(c)
  {
  }

  function High(b: bv8): bv8 { (b >> 4) & 0x0f }

  function Low(b: bv8): bv8 { b & 0x0f }

  function Joined(h: bv8, l: bv8): bv8 { (h << 4) | l }

  lemma {:induction false} Nibbles(b: bv8)
    ensures High(b) < 16 && Low(b) < 16 && Joined(High(b), Low(b)) == b
  {
  }

  lemma {:induction false} NibblesBack(h: bv8, l: bv8)
    requires h < 16 && l < 16
    ensures High(Joined(h, l)) == h && Low(Joined(h, l)) == l
  {
  }

  function Encode(bytes: Bytes): string {
    if bytes == [] then ""
    else
      var b := bytes[|bytes| - 1];
      Encode(bytes[..|bytes| - 1]) + [HexDigit(High(b)), HexDigit(Low(b))]
  }

  function Decode(hex: string): Option<Bytes> {
    if hex == "" then Some([])
    else if |hex| == 1 then None
    else
      match (Decode(hex[..|hex| - 2]), HexValue(hex[|hex| - 2]), HexValue(hex[|hex| - 1]))
      case (Some(bs), Some(h), Some(l)) => Some(bs + [Joined(h, l)])
      case _ => None
  }

  /** Decoding inverts encoding: exactly the texts that are the encoding, up to letter case. */
  lemma {:induction false} DecodeExactly(hex: string, bytes: Bytes)
    ensures |Encode(bytes)| == 2 * |bytes|
    ensures Decode(hex) == Some(bytes) <==> LowerAll(hex) == Encode(bytes)
    decreases |hex| + |bytes|
  {
    hide HexDigit, HexValue, High, Low, Joined;
    if bytes == [] {
      DecodeLength(hex);
    } else if |hex| < 2 {
      EncodeLength(bytes);
      DecodeLength(hex);
    } else {
      var init, b := bytes[..|bytes| - 1], bytes[|bytes| - 1];
      var head := hex[..|hex| - 2];
      EncodeLength(init);
      DecodeExactly(head, init);
      BytePair(hex[|hex| - 2], hex[|hex| - 1], b);
      LowerSplit(hex);
      SnocEquality(LowerAll(head), Encode(init), Lower(hex[|hex| - 2]), Lower(hex[|hex| - 1]),
                   HexDigit(High(b)), HexDigit(Low(b)));
      assert bytes == init + [b];
    }
  }

  lemma {:induction false} BytePair(h: char, l: char, b: bv8)
    ensures HexValue(h).Some? && HexValue(l).Some? && Joined(HexValue(h).value, HexValue(l).value) == b
            <==> Lower(h) == HexDigit(High(b)) && Lower(l) == HexDigit(Low(b))
  {
    Nibbles(b);
    HexDigitValue(High(b));
    HexDigitValue(Low(b));
    LowerTwice(h);
    LowerTwice(l);
    if HexValue(h).Some? && HexValue(l).Some? {
      HexValueDigit(h);
      HexValueDigit(l);
      NibblesBack(HexValue(h).value, HexValue(l).value);
    }
    hide HexDigit, HexValue, High, Low, Joined, Lower;
    if Lower(h) == HexDigit(High(b)) && Lower(l) == HexDigit(Low(b)) {
      assert HexValue(Lower(h)) == Some(High(b)) && HexValue(Lower(l)) == Some(Low(b));
    }
  }

  lemma {:induction false} LowerTwice(c: char)
    ensures HexValue(Lower(c)) == HexValue(c)
  {
  }

  lemma {:induction false} LowerSplit(hex: string)
    requires |hex| >= 2
    ensures LowerAll(hex) == LowerAll(hex[..|hex| - 2]) + [Lower(hex[|hex| - 2]), Lower(hex[|hex| - 1])]
  {
  }

  lemma {:induction false} SnocEquality(s: string, t: string, a: char, b: char, c: char, d: char)
    ensures s + [a, b] == t + [c, d] <==> s == t && a == c && b == d
  {
    if s + [a, b] == t + [c, d] {
      assert s == (s + [a, b])[..|s|] && t == (t + [c, d])[..|t|];
      assert a == (s + [a, b])[|s|] && b == (s + [a, b])[|s| + 1];
    }
  }

  lemma {:induction false} EncodeLength(bytes: Bytes)
    ensures |Encode(bytes)| == 2 * |bytes|
  {
    if bytes != [] {
      EncodeLength(bytes[..|bytes| - 1]);
    }
  }

  lemma {:induction false} DecodeLength(hex: string)
    ensures Decode(hex).Some? ==> |hex| == 2 * |Decode(hex).value|
  {
    if |hex| >= 2 {
      DecodeLength(hex[..|hex| - 2]);
    }
  }

  /** bytes_to_hex. */
  method BytesToHex(bytes: Bytes) returns (out: string)
    ensures out == Encode(bytes)
    ensures Decode(out) == Some(bytes)
  {
    out := "";
    for i := 0 to |bytes|
      invariant out == Encode(bytes[..i])
    {
      assert bytes[..i + 1][..i] == bytes[..i];
      out := out + [HexDigit(High(bytes[i])), HexDigit(Low(bytes[i]))];
    }
    assert bytes[..|bytes|] == bytes;
    DecodeEncoded(bytes);
  }

  lemma {:induction false} DecodeEncoded(bytes: Bytes)
    ensures Decode(Encode(bytes)) == Some(bytes)
  {
    hide HexDigit, HexValue, High, Low, Joined;
    if bytes != [] {
      var init, b := bytes[..|bytes| - 1], bytes[|bytes| - 1];
      DecodeEncoded(init);
      Nibbles(b);
      HexDigitValue(High(b));
      HexDigitValue(Low(b));
      DecodeSnoc(Encode(init), HexDigit(High(b)), HexDigit(Low(b)));
      assert bytes == init + [b];
      hide Decode;
    }
  }

  lemma {:induction false} DecodeSnoc(s: string, h: char, l: char)
    requires Decode(s).Some? && HexValue(h).Some? && HexValue(l).Some?
    ensures Decode(s + [h, l]) == Some(Decode(s).value + [Joined(HexValue(h).value, HexValue(l).value)])
  {
    hide HexValue, Joined;
    assert (s + [h, l])[..|s|] == s;
  }

  /** hex_to_bytes: exactly NONCE_BYTES pairs of hex digits. */
  method HexToBytes(hex: string) returns (r: Option<Bytes>)
    ensures r == if |hex| == 2 * NONCE_BYTES then Decode(hex) else None
  {
    hide HexValue, Joined;
    if |hex| != 2 * NONCE_BYTES {
      return None;
    }
    var out: Bytes := [];
    for i := 0 to NONCE_BYTES
      invariant Decode(hex[..2 * i]) == Some(out)
    {
      var h, l := HexValue(hex[2 * i]), HexValue(hex[2 * i + 1]);
      DecodeStep(hex, i);
      if h.None? || l.None? {
        return None;
      }
      out := out + [Joined(h.value, l.value)];
    }
    assert hex[..2 * NONCE_BYTES] == hex;
    return Some(out);
  }

  lemma {:induction false} DecodeStep(hex: string, i: nat)
    requires 2 * i + 2 <= |hex| && |hex| % 2 == 0
    ensures var pre := hex[..2 * i + 2];
            pre[..2 * i] == hex[..2 * i] && pre[2 * i] == hex[2 * i] && pre[2 * i + 1] == hex[2 * i + 1]
    ensures HexValue(hex[2 * i]).None? || HexValue(hex[2 * i + 1]).None? ==> Decode(hex).None?
  {
    assert hex[..2 * i + 2][..2 * i] == hex[..2 * i];
    DecodeNeedsAll(hex, i);
  }

  lemma {:induction false} DecodeNeedsAll(hex: string, i: nat)
    requires 2 * i + 2 <= |hex| && |hex| % 2 == 0
    ensures HexValue(hex[2 * i]).None? || HexValue(hex[2 * i + 1]).None? ==> Decode(hex).None?
  {
    hide HexValue;
    if 2 * i + 2 < |hex| {
      var head := hex[..|hex| - 2];
      DecodeNeedsAll(head, i);
      assert head[2 * i] == hex[2 * i] && head[2 * i + 1] == hex[2 * i + 1];
    }
  }

  // ---- Comparison -----------------------------------------------------------

  /** constant_time_equal: the OR of all XORs is zero exactly for equal spans. */
  method ConstantTimeEqual(a: Bytes, b: Bytes) returns (eq: bool)
    ensures eq <==> a == b
  {
    if |a| != |b| {
      return false;
    }
    var diff: bv8 := 0;
    for i := 0 to |a|
      invariant diff == 0 <==> a[..i] == b[..i]
    {
      XorZero(diff, a[i], b[i]);
      assert a[..i + 1] == a[..i] + [a[i]] && b[..i + 1] == b[..i] + [b[i]];
      diff := diff | (a[i] ^ b[i]);
    }
    assert a[..|a|] == a && b[..|b|] == b;
    return diff == 0;
  }

  lemma {:induction false} XorZero(d: bv8, x: bv8, y: bv8)
    ensures d | (x ^ y) == 0 <==> d == 0 && x == y
  {
  }

  // ---- The manager ----------------------------------------------------------

  const SECOND := 1_000_000_000

  /** Whole seconds between two clock readings, truncated towards zero. */
  function Seconds(now: nat, then_: nat): int {
    if now >= then_ then (now - then_) / SECOND else -((then_ - now) / SECOND)
  }

  datatype Challenge = Challenge(bytes: Bytes, at: nat)

  /** The outstanding challenge, if any, and the time of the last issue (zero: none yet). */
  datatype Auth = Auth(pending: Option<Challenge>, lastIssued: nat)

  const NO_AUTH := Auth(None, 0)

  datatype Error = NonceAlreadyPending | NonceMismatch | NonceExpired | RandomFailed

  predicate MayIssue(a: Auth, now: nat, minInterval: nat) {
    a.pending.None? && (a.lastIssued == 0 || Seconds(now, a.lastIssued) >= minInterval)
  }

  function Issue(now: nat, random: Bytes): Auth {
    Auth(Some(Challenge(random, now)), now)
  }

  function Cleared(a: Auth): Auth {
    a.(pending := None)
  }

  /** The answer a response deserves: none is an acceptance. */
  function Judge(a: Auth, text: string, now: nat, timeout: nat): Option<Error> {
    match a.pending
    case None => Some(NonceMismatch)
    case Some(c) =>
      if Seconds(now, c.at) >= timeout then Some(NonceExpired)
      else if |text| == 2 * NONCE_BYTES && Decode(text) == Some(c.bytes) then None
      else Some(NonceMismatch)
  }

  class AuthRefreshManager {
    var nonce: Bytes
    var pending: bool
    var issuedAt: nat
    var lastIssued: nat

    function View(): Auth
      reads this
    {
      Auth(if pending then Some(Challenge(nonce, issuedAt)) else None, lastIssued)
    }

    constructor ()
      ensures View() == NO_AUTH
    {
      nonce, pending, issuedAt, lastIssued := [], false, 0, 0;
    }

    /** generate; `random` is what the generator delivers, if it does. */
    method Generate(now: nat, minInterval: nat, random: Option<Bytes>) returns (r: Result<string, Error>)
      requires random.Some? ==> |random.value| == NONCE_BYTES
      modifies this
      ensures r.Ok? <==> MayIssue(old(View()), now, minInterval) && random.Some?
      ensures old(lastIssued) <= now ==>
                (r.Ok? <==> random.Some? && !old(pending)
                            && (old(lastIssued) == 0 || now >= old(lastIssued) + minInterval * SECOND))
      ensures r.Ok? ==> View() == Issue(now, random.value) && Decode(r.value) == Some(random.value)
      ensures r.Err? ==> View() == old(View())
    {
      IssuesExactly(View(), now, minInterval);
      if pending {
        return Err(NonceAlreadyPending);
      }
      if lastIssued != 0 && Seconds(now, lastIssued) < minInterval {
        return Err(NonceAlreadyPending);
      }
      if random.None? {
        return Err(RandomFailed);
      }
      nonce := random.value;
      var hex := BytesToHex(nonce);
      pending, issuedAt, lastIssued := true, now, now;
      return Ok(hex);
    }

    /** clear: forget the challenge, keep the time of the last issue. */
    method Clear()
      modifies this
      ensures View() == Cleared(old(View()))
    {
      nonce := seq(NONCE_BYTES, _ => 0);
      pending := false;
    }

    /** is_expired, in clock ticks; a reading before the issue counts as in time unless it rounds to none. */
    method IsExpired(now: nat, timeout: nat) returns (expired: bool)
      ensures issuedAt <= now ==> (expired <==> pending && now >= issuedAt + timeout * SECOND)
      ensures now < issuedAt ==> (expired <==> pending && timeout == 0 && issuedAt - now < SECOND)
    {
      if issuedAt <= now {
        SecondsBound(now, issuedAt, timeout);
      } else {
        SecondsBack(now, issuedAt, timeout);
      }
      return pending && Seconds(now, issuedAt) >= timeout;
    }

    /** validate_and_consume: whatever the answer, no challenge is left outstanding. */
    method ValidateAndConsume(text: string, now: nat, timeout: nat) returns (r: Option<Error>)
      requires pending ==> |nonce| == NONCE_BYTES
      modifies this
      ensures r == Judge(old(View()), text, now, timeout)
      ensures View() == Cleared(old(View()))
    {
      hide Decode;
      if !pending {
        return Some(NonceMismatch);
      }
      if issuedAt <= now {
        SecondsBound(now, issuedAt, timeout);
      } else {
        SecondsBack(now, issuedAt, timeout);
      }
      hide Seconds;
      var expired := IsExpired(now, timeout);
      if expired {
        Clear();
        return Some(NonceExpired);
      }
      var echoed := HexToBytes(text);
      if echoed.None? {
        Clear();
        return Some(NonceMismatch);
      }
      var eq := ConstantTimeEqual(echoed.value, nonce);
      Clear();
      return if eq then None else Some(NonceMismatch);
    }
  }

  // ---- Whole runs -----------------------------------------------------------

  datatype Config = Config(minInterval: nat, timeout: nat)

  /** A response accepted: which challenge it answered, with what text, when. */
  datatype Acceptance = Acceptance(challenge: int, text: string, at: nat)

  /** The manager with the clock and the history of its calls. */
  datatype History = History(auth: Auth, clock: nat, issued: seq<Challenge>, accepted: seq<Acceptance>)

  /** A call made `wait` clock ticks after the previous one. */
  datatype Call =
    | Generate(wait: nat, random: Option<Bytes>)
    | Respond(wait: nat, text: string)
    | Clear(wait: nat)

  function Start(clock: nat): History {
    History(NO_AUTH, clock, [], [])
  }

  function Step(h: History, c: Call, cfg: Config): History {
    var now := h.clock + c.wait;
    match c
    case Generate(_, random) =>
      if random.Some? && MayIssue(h.auth, now, cfg.minInterval) then
        History(Issue(now, random.value), now, h.issued + [Challenge(random.value, now)], h.accepted)
      else h.(clock := now)
    case Respond(_, text) =>
      var accepted := Judge(h.auth, text, now, cfg.timeout).None?;
      History(Cleared(h.auth), now, h.issued,
              if accepted then h.accepted + [Acceptance(|h.issued| - 1, text, now)] else h.accepted)
    case Clear(_) => h.(auth := Cleared(h.auth), clock := now)
  }

  function Run(h: History, cs: seq<Call>, cfg: Config): History
    decreases |cs|
  {
    if cs == [] then h else Run(Step(h, cs[0], cfg), cs[1..], cfg)
  }

  /** A response answers its challenge: right bytes, in time. */
  predicate Answers(a: Acceptance, issued: seq<Challenge>, timeout: nat) {
    && 0 <= a.challenge < |issued|
    && Decode(a.text) == Some(issued[a.challenge].bytes)
    && issued[a.challenge].at <= a.at < issued[a.challenge].at + timeout * SECOND
  }

  /** Issues are spaced, each is accepted at most once, and the outstanding one is the last. */
  ghost predicate Inv(h: History, cfg: Config) {
    && h.clock > 0
    && (h.issued == [] <==> h.auth.lastIssued == 0)
    && (h.issued != [] ==> h.issued[|h.issued| - 1].at == h.auth.lastIssued <= h.clock)
    && (forall i | 0 < i < |h.issued| :: h.issued[i].at >= h.issued[i - 1].at + cfg.minInterval * SECOND)
    && (forall i | 0 <= i < |h.accepted| :: Answers(h.accepted[i], h.issued, cfg.timeout))
    && (forall i | 0 < i < |h.accepted| :: h.accepted[i - 1].challenge < h.accepted[i].challenge)
    && (h.auth.pending.Some? ==>
          && h.issued != [] && h.auth.pending.value == h.issued[|h.issued| - 1]
          && (h.accepted != [] ==> h.accepted[|h.accepted| - 1].challenge < |h.issued| - 1))
  }

  lemma {:induction false} IssueKeeps(h: History, now: nat, random: Bytes, cfg: Config)
    requires Inv(h, cfg) && now >= h.clock && MayIssue(h.auth, now, cfg.minInterval)
    ensures Inv(History(Issue(now, random), now, h.issued + [Challenge(random, now)], h.accepted), cfg)
  {
    hide Decode;
    if h.issued != [] {
      SecondsBound(now, h.auth.lastIssued, cfg.minInterval);
    }
    var issued := h.issued + [Challenge(random, now)];
    forall i | 0 <= i < |h.accepted|
      ensures Answers(h.accepted[i], issued, cfg.timeout)
    {
      assert Answers(h.accepted[i], h.issued, cfg.timeout);
    }
  }

  lemma {:induction false} AcceptKeeps(h: History, now: nat, text: string, cfg: Config)
    requires Inv(h, cfg) && now >= h.clock && Judge(h.auth, text, now, cfg.timeout).None?
    ensures Inv(History(Cleared(h.auth), now, h.issued,
                        h.accepted + [Acceptance(|h.issued| - 1, text, now)]), cfg)
  {
    hide Decode;
    SecondsBound(now, h.auth.lastIssued, cfg.timeout);
    assert Answers(Acceptance(|h.issued| - 1, text, now), h.issued, cfg.timeout);
    hide Answers, Judge;
  }

  lemma {:induction false} StepKeeps(h: History, c: Call, cfg: Config)
    requires Inv(h, cfg)
    ensures Inv(Step(h, c, cfg), cfg)
  {
    hide MayIssue, Issue, Judge, Answers;
    var now := h.clock + c.wait;
    match c
    case Generate(_, random) =>
      if random.Some? && MayIssue(h.auth, now, cfg.minInterval) {
        IssueKeeps(h, now, random.value, cfg);
      }
    case Respond(_, text) =>
      if Judge(h.auth, text, now, cfg.timeout).None? {
        AcceptKeeps(h, now, text, cfg);
      }
    case Clear(_) =>
  }

  lemma {:induction false} SecondsBound(now: nat, before: nat, limit: nat)
    requires before <= now
    ensures Seconds(now, before) >= limit <==> now >= before + limit * SECOND
  {
  }

  lemma {:induction false} SecondsBack(now: nat, after: nat, limit: nat)
    requires now < after
    ensures Seconds(now, after) >= limit <==> limit == 0 && after - now < SECOND
  {
  }

  lemma {:induction false} RunKeeps(h: History, cs: seq<Call>, cfg: Config)
    requires Inv(h, cfg)
    ensures Inv(Run(h, cs, cfg), cfg)
    decreases |cs|
  {
    hide Step, Inv;
    if cs != [] {
      StepKeeps(h, cs[0], cfg);
      RunKeeps(Step(h, cs[0], cfg), cs[1..], cfg);
    }
  }

  /** Over every run from a positive clock: one acceptance per challenge, and spaced challenges. */
  lemma {:induction false} OneShot(clock: nat, cs: seq<Call>, cfg: Config)
    requires clock > 0
    ensures var h := Run(Start(clock), cs, cfg);
            && (forall i | 0 <= i < |h.accepted| :: Answers(h.accepted[i], h.issued, cfg.timeout))
            && (forall i, j | 0 <= i < j < |h.accepted| :: h.accepted[i].challenge < h.accepted[j].challenge)
            && (forall i, j | 0 <= i < j < |h.issued| :: h.issued[j].at >= h.issued[i].at + cfg.minInterval * SECOND)
  {
    RunKeeps(Start(clock), cs, cfg);
    var h := Run(Start(clock), cs, cfg);
    hide Run, Answers;
    forall i, j | 0 <= i < j < |h.accepted|
      ensures h.accepted[i].challenge < h.accepted[j].challenge
    {
      Increasing(h.accepted, i, j);
    }
    forall i, j | 0 <= i < j < |h.issued|
      ensures h.issued[j].at >= h.issued[i].at + cfg.minInterval * SECOND
    {
      Spaced(h.issued, i, j, cfg.minInterval * SECOND);
    }
  }

  lemma {:induction false} Increasing(s: seq<Acceptance>, i: nat, j: nat)
    requires i < j < |s| && forall k | 0 < k < |s| :: s[k - 1].challenge < s[k].challenge
    ensures s[i].challenge < s[j].challenge
    decreases j
  {
    if i + 1 < j {
      Increasing(s, i, j - 1);
    }
  }

  lemma {:induction false} Spaced(s: seq<Challenge>, i: nat, j: nat, gap: nat)
    requires i < j < |s| && forall k | 0 < k < |s| :: s[k].at >= s[k - 1].at + gap
    ensures s[j].at >= s[i].at + gap
    decreases j
  {
    if i + 1 < j {
      Spaced(s, i, j - 1, gap);
    }
  }

  /**
   * In clock ticks: a challenge may be issued exactly when none is outstanding and the interval has
   * passed since the last issue, of which zero means none; a reading before the last issue counts
   * only for a zero interval less than a second away.
   */
  lemma {:induction false} IssuesExactly(a: Auth, now: nat, minInterval: nat)
    ensures MayIssue(a, now, minInterval) <==>
              && a.pending.None?
              && (|| a.lastIssued == 0
                  || (a.lastIssued <= now && now >= a.lastIssued + minInterval * SECOND)
                  || (now < a.lastIssued && minInterval == 0 && a.lastIssued - now < SECOND))
  {
    if a.lastIssued <= now {
      SecondsBound(now, a.lastIssued, minInterval);
    } else {
      SecondsBack(now, a.lastIssued, minInterval);
    }
    hide Seconds;
  }

  /** A response is accepted exactly when it answers the outstanding challenge in time. */
  lemma {:induction false} AcceptedExactly(a: Auth, text: string, now: nat, timeout: nat)
    requires a.pending.Some? ==> |a.pending.value.bytes| == NONCE_BYTES && a.pending.value.at <= now
    ensures Judge(a, text, now, timeout).None? <==>
              && a.pending.Some?
              && now < a.pending.value.at + timeout * SECOND
              && LowerAll(text) == Encode(a.pending.value.bytes)
    ensures Judge(a, text, now, timeout) == Some(NonceExpired) <==>
              a.pending.Some? && now >= a.pending.value.at + timeout * SECOND
    ensures Judge(a, text, now, timeout).Some? ==> Judge(a, text, now, timeout).value in {NonceExpired, NonceMismatch}
  {
    hide Decode, Encode;
    if a.pending.Some? {
      SecondsBound(now, a.pending.value.at, timeout);
      DecodeExactly(text, a.pending.value.bytes);
    }
  }

  /** With a clock that starts at zero the first issue leaves no trace, and the spacing fails. */
  lemma {:induction false} ZeroClockBreaksSpacing(cfg: Config, random: Bytes)
    requires cfg.minInterval > 0
    ensures var h := Run(Start(0), [Generate(0, Some(random)), Clear(0), Generate(0, Some(random))], cfg);
            |h.issued| == 2 && h.issued[0].at == h.issued[1].at
  {
    var c0, c1 := Generate(0, Some(random)), Clear(0);
    var cs := [c0, c1, c0];
    assert cs[1..] == [c1, c0] && cs[1..][1..] == [c0] && cs[1..][1..][1..] == [];
    var h1 := Step(Start(0), c0, cfg);
    var h2 := Step(h1, c1, cfg);
    assert Run(Start(0), cs, cfg) == Run(h1, [c1, c0], cfg) == Run(h2, [c0], cfg) == Run(Step(h2, c0, cfg), [], cfg);
  }

  // ---- Spacing, exactly -----------------------------------------------------

  /** Any two issues of a run are at least the minimum interval apart. */
  ghost predicate SpacedRun(clock: nat, cs: seq<Call>, cfg: Config) {
    var issued := Run(Start(clock), cs, cfg).issued;
    forall i, j | 0 <= i < j < |issued| :: issued[j].at >= issued[i].at + cfg.minInterval * SECOND
  }

  /** Issues come in the order of their times, whatever the clock. */
  ghost predicate Chronological(h: History) {
    && (forall i | 0 <= i < |h.issued| :: h.issued[i].at <= h.clock)
    && forall i, j | 0 <= i < j < |h.issued| :: h.issued[i].at <= h.issued[j].at
  }

  lemma {:induction false} RunChronological(h: History, cs: seq<Call>, cfg: Config)
    requires Chronological(h)
    ensures Chronological(Run(h, cs, cfg))
    decreases |cs|
  {
    hide MayIssue, Judge;
    if cs != [] {
      RunChronological(Step(h, cs[0], cfg), cs[1..], cfg);
    }
  }

  /** Every run keeps the minimum interval if and only if the clock starts above zero or there is none to keep. */
  lemma {:induction false} SpacingExactly(clock: nat, cfg: Config)
    ensures (forall cs :: SpacedRun(clock, cs, cfg)) <==> clock > 0 || cfg.minInterval == 0
  {
    if clock > 0 || cfg.minInterval == 0 {
      forall cs
        ensures SpacedRun(clock, cs, cfg)
      {
        if clock > 0 {
          OneShot(clock, cs, cfg);
        } else {
          RunChronological(Start(clock), cs, cfg);
        }
      }
    } else {
      var random: Bytes := [];
      ZeroClockBreaksSpacing(cfg, random);
      assert !SpacedRun(0, [Generate(0, Some(random)), Clear(0), Generate(0, Some(random))], cfg);
    }
  }
}
