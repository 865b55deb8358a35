/** Sliding-window limiters: the pruned queue decides as the full history would. */
module RateLimits {

  /** At most `limit` in a span; an entry exactly one span old is dropped if `inclusive`, kept otherwise. */
  datatype Rule = Rule(span: nat, limit: nat, inclusive: bool)

  /** TryTrackPing of the C# session, in ticks of 100 ns. */
  const CSHARP_PING := Rule(10_000_000, 5, true)

  /** handleIncomingPing of the TypeScript session, in milliseconds. */
  const TYPESCRIPT_PING := Rule(1_000, 5, true)

  /** IpRecord.TryAcquire, in ticks. */
  function IpRule(max: nat): Rule {
    Rule(600_000_000, max, false)
  }

  predicate Stale(rule: Rule, t: int, now: int) {
    if rule.inclusive then t <= now - rule.span else t < now - rule.span
  }

  function Pruned(rule: Rule, queue: seq<int>, now: int): seq<int> {
    if queue != [] && Stale(rule, queue[0], now) then Pruned(rule, queue[1..], now) else queue
  }

  /** A limiter's queue; the loop drops stale entries from its front. */
  class Limiter {
    const rule: Rule
    var queue: seq<int>

    constructor (rule: Rule)
      ensures this.rule == rule && queue == []
    {
      this.rule := rule;
      queue := [];
    }

    method TryAcquire(now: int) returns (ok: bool)
      modifies this
      ensures ok == (|Pruned(rule, old(queue), now)| < rule.limit)
      ensures queue == Pruned(rule, old(queue), now) + if ok then [now] else []
    {
      while |queue| > 0 && Stale(rule, queue[0], now)
        invariant Pruned(rule, queue, now) == Pruned(rule, old(queue), now)
        decreases |queue|
      {
        queue := queue[1..];
      }
      if |queue| >= rule.limit {
        return false;
      }
      queue := queue + [now];
      return true;
    }
  }

  /** One limiter per address; a limit of zero or less means no limiting and no record. */
  class IpLimiter {
    var records: map<string, seq<int>>

    constructor ()
      ensures records == map[]
    {
      records := map[];
    }

    method TryAcquire(ip: string, max: int, now: int) returns (ok: bool)
      modifies this
      ensures Keyed(records, ok) == IpStep(old(records), ip, max, now)
    {
      if max <= 0 {
        return true;
      }
      var record := new Limiter(IpRule(max));
      record.queue := if ip in records then records[ip] else [];
      ok := record.TryAcquire(now);
      records := records[ip := record.queue];
    }
  }

  datatype Keyed = Keyed(records: map<string, seq<int>>, ok: bool)

  function IpStep(records: map<string, seq<int>>, ip: string, max: int, now: int): Keyed {
    if max <= 0 then Keyed(records, true)
    else
      var kept := Pruned(IpRule(max), if ip in records then records[ip] else [], now);
      var ok := |kept| < max;
      Keyed(records[ip := kept + if ok then [now] else []], ok)
  }

  // ---- The naive limiter ----------------------------------------------------

  /** The accepted times still in the window. */
  function Live(rule: Rule, log: seq<int>, now: int): seq<int> {
    if log == [] then []
    else
      Live(rule, log[..|log| - 1], now)
      + if Stale(rule, log[|log| - 1], now) then [] else [log[|log| - 1]]
  }

  /** Accepted times and decisions when every decision looks at the whole history. */
  datatype Naive = Naive(log: seq<int>, answers: seq<bool>)

  function NaiveRun(rule: Rule, times: seq<int>): Naive {
    if times == [] then Naive([], [])
    else
      var n, now := NaiveRun(rule, times[..|times| - 1]), times[|times| - 1];
      var ok := |Live(rule, n.log, now)| < rule.limit;
      Naive(n.log + if ok then [now] else [], n.answers + [ok])
  }

  datatype Queued = Queued(queue: seq<int>, answers: seq<bool>)

  /** The same calls on the pruned queue. */
  function QueueRun(rule: Rule, times: seq<int>): Queued {
    if times == [] then Queued([], [])
    else
      var q, now := QueueRun(rule, times[..|times| - 1]), times[|times| - 1];
      var kept := Pruned(rule, q.queue, now);
      var ok := |kept| < rule.limit;
      Queued(kept + if ok then [now] else [], q.answers + [ok])
  }

  ghost predicate Sorted(s: seq<int>) {
    forall i, j | 0 <= i < j < |s| :: s[i] <= s[j]
  }

  lemma {:induction false} LiveNext(rule: Rule, init: seq<int>, last: int, now: int)
    ensures Live(rule, init + [last], now) == Live(rule, init, now) + if Stale(rule, last, now) then [] else [last]
  {
    assert (init + [last])[..|init|] == init;
  }

  lemma {:induction false} SuffixNext(rule: Rule, init: seq<int>, last: int, now: int, k: nat)
    requires Sorted(init + [last]) && k <= |init|
    requires forall i | 0 <= i < |init| :: Stale(rule, init[i], now) <==> i < k
    ensures var log, n := init + [last], if Stale(rule, last, now) then |init| + 1 else k;
            && init[k..] + (if Stale(rule, last, now) then [] else [last]) == log[n..]
            && forall i | 0 <= i < |log| :: Stale(rule, log[i], now) <==> i < n
  {
    var log := init + [last];
    assert forall i | 0 <= i < |init| :: log[i] == init[i];
    assert k < |init| ==> log[k] <= log[|init|] && !Stale(rule, log[k], now);
  }

  /** On sorted times, what is live is a suffix. */
  lemma {:induction false} LiveSuffix(rule: Rule, log: seq<int>, now: int) returns (k: nat)
    requires Sorted(log)
    ensures k <= |log| && Live(rule, log, now) == log[k..]
    ensures forall i | 0 <= i < |log| :: Stale(rule, log[i], now) <==> i < k
  {
    if log == [] {
      k := 0;
    } else {
      hide Live, Stale;
      var init, last := log[..|log| - 1], log[|log| - 1];
      assert log == init + [last];
      var n := LiveSuffix(rule, init, now);
      LiveNext(rule, init, last, now);
      SuffixNext(rule, init, last, now, n);
      k := if Stale(rule, last, now) then |log| else n;
    }
  }

  lemma {:induction false} PrunedDrop(rule: Rule, s: seq<int>, now: int, k: nat)
    requires k <= |s| && (forall i | 0 <= i < k :: Stale(rule, s[i], now)) && (k < |s| ==> !Stale(rule, s[k], now))
    ensures Pruned(rule, s, now) == s[k..]
    decreases |s|
  {
    if k > 0 {
      PrunedDrop(rule, s[1..], now, k - 1);
      assert s[1..][k - 1..] == s[k..];
    } else {
      assert s[0..] == s;
    }
  }

  /** Pruning an already pruned queue later is pruning the whole log. */
  lemma {:induction false} PrunedLive(rule: Rule, log: seq<int>, earlier: int, now: int)
    requires Sorted(log) && earlier <= now
    ensures Pruned(rule, Live(rule, log, earlier), now) == Live(rule, log, now)
  {
    var a := LiveSuffix(rule, log, earlier);
    var b := LiveSuffix(rule, log, now);
    hide Live;
    assert b < |log| ==> !Stale(rule, log[b], now) && !Stale(rule, log[b], earlier);
    var s := log[a..];
    assert forall i | 0 <= i < |s| :: s[i] == log[a + i];
    PrunedDrop(rule, s, now, b - a);
    assert s[b - a..] == log[b..];
  }

  lemma {:induction false} LiveSnoc(rule: Rule, log: seq<int>, now: int)
    requires !Stale(rule, now, now)
    ensures Live(rule, log + [now], now) == Live(rule, log, now) + [now]
  {
  }

  /**
   * With a clock that never goes back, the pruned queue gives every answer the full history would,
   * and holds exactly the accepted times still in the window.
   */
  lemma {:induction false} QueueIsNaive(rule: Rule, times: seq<int>)
    requires Sorted(times) && rule.span > 0
    ensures var q, n := QueueRun(rule, times), NaiveRun(rule, times);
            && q.answers == n.answers
            && Sorted(n.log)
            && (forall i | 0 <= i < |n.log| :: times != [] && n.log[i] <= times[|times| - 1])
            && q.queue == if times == [] then [] else Live(rule, n.log, times[|times| - 1])
  {
    if times != [] {
      var init, now := times[..|times| - 1], times[|times| - 1];
      assert Sorted(init) && forall i | 0 <= i < |init| :: init[i] == times[i];
      QueueIsNaive(rule, init);
      var q, n := QueueRun(rule, init), NaiveRun(rule, init);
      hide NaiveRun, QueueRun;
      if init == [] {
        assert n.log == [];
      } else {
        PrunedLive(rule, n.log, init[|init| - 1], now);
      }
      assert Pruned(rule, q.queue, now) == Live(rule, n.log, now);
      LiveSnoc(rule, n.log, now);
      QueueStep(rule, times, q, n);
    }
  }

  lemma {:induction false} QueueStep(rule: Rule, times: seq<int>, q: Queued, n: Naive)
    requires times != [] && q == QueueRun(rule, times[..|times| - 1]) && n == NaiveRun(rule, times[..|times| - 1])
    requires q.answers == n.answers && Sorted(n.log)
    requires var now := times[|times| - 1];
             && Pruned(rule, q.queue, now) == Live(rule, n.log, now)
             && Live(rule, n.log + [now], now) == Live(rule, n.log, now) + [now]
             && forall i | 0 <= i < |n.log| :: n.log[i] <= now
    ensures var q', n', now := QueueRun(rule, times), NaiveRun(rule, times), times[|times| - 1];
            && q'.answers == n'.answers
            && Sorted(n'.log)
            && (forall i | 0 <= i < |n'.log| :: n'.log[i] <= now)
            && q'.queue == Live(rule, n'.log, now)
  {
    hide Live, Pruned;
    assert n.log + [] == n.log;
  }

  // ---- The bound ------------------------------------------------------------

  /** The times of the calls that were answered with yes. */
  function Accepted(times: seq<int>, answers: seq<bool>): seq<int>
    requires |answers| == |times|
  {
    if times == [] then []
    else
      var n := |times| - 1;
      Accepted(times[..n], answers[..n]) + if answers[n] then [times[n]] else []
  }

  lemma {:induction false} AnswerEach(rule: Rule, times: seq<int>)
    ensures |QueueRun(rule, times).answers| == |times|
  {
    hide Pruned;
    if times != [] {
      AnswerEach(rule, times[..|times| - 1]);
    }
  }

  /** The times the code admits when called at these times. */
  ghost function Admitted(rule: Rule, times: seq<int>): seq<int> {
    AnswerEach(rule, times);
    Accepted(times, QueueRun(rule, times).answers)
  }

  /** The naive log is what its answers admit. */
  lemma {:induction false} LogIsAccepted(rule: Rule, times: seq<int>)
    ensures var n := NaiveRun(rule, times); |n.answers| == |times| && n.log == Accepted(times, n.answers)
  {
    hide Live;
    if times != [] {
      var init := times[..|times| - 1];
      LogIsAccepted(rule, init);
      assert NaiveRun(rule, times).answers[..|init|] == NaiveRun(rule, init).answers;
    }
  }

  lemma {:induction false} AdmittedIsLog(rule: Rule, times: seq<int>)
    requires Sorted(times) && rule.span > 0
    ensures Admitted(rule, times) == NaiveRun(rule, times).log && Sorted(Admitted(rule, times))
  {
    hide NaiveRun, QueueRun, Accepted;
    QueueIsNaive(rule, times);
    LogIsAccepted(rule, times);
  }

  /** Any `limit + 1` accepted calls in a row do not fit in one window. */
  lemma {:induction false} Spaced(rule: Rule, times: seq<int>, i: nat)
    requires Sorted(times) && rule.span > 0
    requires i + rule.limit < |NaiveRun(rule, times).log|
    ensures var log := NaiveRun(rule, times).log; Stale(rule, log[i], log[i + rule.limit])
  {
    var init, now := times[..|times| - 1], times[|times| - 1];
    assert Sorted(init);
    var n := NaiveRun(rule, init);
    var log := NaiveRun(rule, times).log;
    if i + rule.limit < |n.log| {
      assert n.log == log[..|n.log|];
      Spaced(rule, init, i);
    } else {
      QueueIsNaive(rule, init);
      var k := LiveSuffix(rule, n.log, now);
      assert |n.log| - k < rule.limit;
      assert i < k;
      assert log[i] == n.log[i];
    }
  }

  /**
   * Of the calls the code admits, no window, ending at any time, holds more than `limit`: on the
   * sorted list of admitted times, those in the window are consecutive.
   */
  lemma {:induction false} WindowBound(rule: Rule, times: seq<int>, now: int)
    requires Sorted(times) && rule.span > 0
    ensures var log := Admitted(rule, times);
            forall i, j | 0 <= i <= j < |log| && log[j] <= now && !Stale(rule, log[i], now) :: j - i + 1 <= rule.limit
  {
    var log := Admitted(rule, times);
    AdmittedIsLog(rule, times);
    hide NaiveRun, Admitted;
    forall i, j | 0 <= i <= j < |log| && log[j] <= now && !Stale(rule, log[i], now)
      ensures j - i + 1 <= rule.limit
    {
      if i + rule.limit <= j {
        Spaced(rule, times, i);
        assert false;
      }
    }
  }

  /** The two ping limiters: five answers in any second. */
  lemma {:induction false} FivePingsASecond(times: seq<int>, now: int)
    requires Sorted(times)
    ensures var ticks := Admitted(CSHARP_PING, times);
            forall i, j | 0 <= i <= j < |ticks| && now - 10_000_000 < ticks[i] && ticks[j] <= now :: j - i < 5
    ensures var ms := Admitted(TYPESCRIPT_PING, times);
            forall i, j | 0 <= i <= j < |ms| && now - 1_000 < ms[i] && ms[j] <= now :: j - i < 5
  {
    hide Admitted;
    WindowBound(CSHARP_PING, times, now);
    WindowBound(TYPESCRIPT_PING, times, now);
  }

  /** The last call is admitted exactly when the limit-th last admitted before it is stale, or there is none. */
  lemma {:induction false} AdmitsExactly(rule: Rule, times: seq<int>, now: int)
    requires Sorted(times + [now]) && rule.span > 0
    ensures var log := Admitted(rule, times);
            Admitted(rule, times + [now]) ==
              if rule.limit > 0 && (|log| < rule.limit || Stale(rule, log[|log| - rule.limit], now)) then log + [now]
              else log
  {
    var all := times + [now];
    assert all[..|times|] == times;
    assert Sorted(times) by { assert forall i | 0 <= i < |times| :: all[i] == times[i]; }
    AdmittedIsLog(rule, times);
    AdmittedIsLog(rule, all);
    var log := NaiveRun(rule, times).log;
    var k := LiveSuffix(rule, log, now);
    assert |Live(rule, log, now)| == |log| - k;
    assert log + [] == log;
    hide Admitted, Live, QueueRun;
  }

  /** A ping is answered exactly when fewer than five have been in the last second. */
  lemma {:induction false} PingsExactly(times: seq<int>, now: int)
    requires Sorted(times + [now])
    ensures var ticks := Admitted(CSHARP_PING, times);
            Admitted(CSHARP_PING, times + [now]) ==
              if |ticks| < 5 || ticks[|ticks| - 5] <= now - 10_000_000 then ticks + [now] else ticks
    ensures var ms := Admitted(TYPESCRIPT_PING, times);
            Admitted(TYPESCRIPT_PING, times + [now]) ==
              if |ms| < 5 || ms[|ms| - 5] <= now - 1_000 then ms + [now] else ms
  {
    hide Admitted;
    AdmitsExactly(CSHARP_PING, times, now);
    AdmitsExactly(TYPESCRIPT_PING, times, now);
  }

  // ---- Connections from many addresses --------------------------------------

  datatype Attempt = Attempt(ip: string, now: int)

  datatype IpHistory = IpHistory(records: map<string, seq<int>>, answers: seq<bool>)

  /** Attempts from any addresses, in order, against one limiter. */
  function IpRun(max: int, calls: seq<Attempt>): IpHistory {
    if calls == [] then IpHistory(map[], [])
    else
      var h, c := IpRun(max, calls[..|calls| - 1]), calls[|calls| - 1];
      var k := IpStep(h.records, c.ip, max, c.now);
      IpHistory(k.records, h.answers + [k.ok])
  }

  function TimesOf(calls: seq<Attempt>, ip: string): seq<int> {
    if calls == [] then []
    else
      var c := calls[|calls| - 1];
      var before := TimesOf(calls[..|calls| - 1], ip);
      if c.ip == ip then before + [c.now] else before
  }

  function AnswersOf(calls: seq<Attempt>, answers: seq<bool>, ip: string): seq<bool>
    requires |answers| == |calls|
  {
    if calls == [] then []
    else
      var n := |calls| - 1;
      var before := AnswersOf(calls[..n], answers[..n], ip);
      if calls[n].ip == ip then before + [answers[n]] else before
  }

  ghost predicate Separate(max: nat, calls: seq<Attempt>, ip: string) {
    var h := IpRun(max, calls);
    var q := QueueRun(IpRule(max), TimesOf(calls, ip));
    && |h.answers| == |calls|
    && AnswersOf(calls, h.answers, ip) == q.answers
    && (if ip in h.records then h.records[ip] else []) == q.queue
  }

  lemma {:induction false} LastAttempt(max: nat, calls: seq<Attempt>, ip: string)
    requires max > 0 && calls != [] && Separate(max, calls[..|calls| - 1], ip)
    ensures Separate(max, calls, ip)
  {
    hide Pruned, QueueRun;
    var init, c := calls[..|calls| - 1], calls[|calls| - 1];
    var h, before := IpRun(max, calls), IpRun(max, init);
    assert h.answers[..|init|] == before.answers;
    if c.ip == ip {
      QueueNext(IpRule(max), TimesOf(init, ip), c.now);
    }
    hide IpRun;
  }

  lemma {:induction false} QueueNext(rule: Rule, times: seq<int>, now: int)
    ensures var q := QueueRun(rule, times);
            var kept := Pruned(rule, q.queue, now);
            var ok := |kept| < rule.limit;
            QueueRun(rule, times + [now]) == Queued(kept + if ok then [now] else [], q.answers + [ok])
  {
    hide Pruned;
    assert (times + [now])[..|times|] == times;
  }

  /** Each address sees its own limiter: its answers and its record are those of its attempts alone. */
  lemma {:induction false} AddressesAreSeparate(max: nat, calls: seq<Attempt>, ip: string)
    requires max > 0
    ensures var h := IpRun(max, calls);
            var q := QueueRun(IpRule(max), TimesOf(calls, ip));
            && |h.answers| == |calls|
            && AnswersOf(calls, h.answers, ip) == q.answers
            && (if ip in h.records then h.records[ip] else []) == q.queue
  {
    assert calls == [] ==> Separate(max, calls, ip);
    if calls != [] {
      AddressesAreSeparate(max, calls[..|calls| - 1], ip);
      hide IpRun, QueueRun, TimesOf, AnswersOf;
      LastAttempt(max, calls, ip);
    }
  }

  /** The times at which an address was admitted. */
  ghost function AdmittedFrom(max: nat, calls: seq<Attempt>, ip: string): seq<int>
    requires max > 0
  {
    AddressesAreSeparate(max, calls, ip);
    AnswerEach(IpRule(max), TimesOf(calls, ip));
    Accepted(TimesOf(calls, ip), AnswersOf(calls, IpRun(max, calls).answers, ip))
  }

  lemma {:induction false} TimesSorted(calls: seq<Attempt>, ip: string)
    requires forall i, j | 0 <= i < j < |calls| :: calls[i].now <= calls[j].now
    ensures Sorted(TimesOf(calls, ip))
    ensures calls != [] ==> forall i | 0 <= i < |TimesOf(calls, ip)| :: TimesOf(calls, ip)[i] <= calls[|calls| - 1].now
  {
    if calls != [] {
      var init := calls[..|calls| - 1];
      TimesSorted(init, ip);
      if init != [] {
        assert init[|init| - 1].now <= calls[|calls| - 1].now;
      }
    }
  }

  /**
   * Whatever other addresses do, of the connections admitted from one address no sixty seconds, both
   * ends included, hold more than the maximum.
   */
  lemma {:induction false} ConnectionsAMinute(max: nat, calls: seq<Attempt>, ip: string, now: int)
    requires max > 0 && forall i, j | 0 <= i < j < |calls| :: calls[i].now <= calls[j].now
    ensures var ticks := AdmittedFrom(max, calls, ip);
            forall i, j | 0 <= i <= j < |ticks| && now - 600_000_000 <= ticks[i] && ticks[j] <= now :: j - i < max
  {
    hide Admitted, AdmittedFrom, TimesOf;
    TimesSorted(calls, ip);
    AdmittedSeparately(max, calls, ip);
    WindowBound(IpRule(max), TimesOf(calls, ip), now);
  }

  /**
   * A connection is admitted exactly when fewer than the maximum from its address were in the last
   * sixty seconds, both ends included, and it counts against no other address.
   */
  lemma {:induction false} ConnectsExactly(max: nat, calls: seq<Attempt>, c: Attempt, ip: string)
    requires max > 0 && forall i, j | 0 <= i < j < |calls + [c]| :: (calls + [c])[i].now <= (calls + [c])[j].now
    ensures var ticks := AdmittedFrom(max, calls, ip);
            AdmittedFrom(max, calls + [c], ip) ==
              if c.ip == ip && (|ticks| < max || ticks[|ticks| - max] < c.now - 600_000_000) then ticks + [c.now]
              else ticks
  {
    hide Admitted, AdmittedFrom, TimesOf;
    AdmittedSeparately(max, calls, ip);
    AdmittedSeparately(max, calls + [c], ip);
    TimesSorted(calls + [c], ip);
    TimesNext(calls, c, ip);
    if c.ip == ip {
      AdmitsExactly(IpRule(max), TimesOf(calls, ip), c.now);
    }
  }

  lemma {:induction false} TimesNext(calls: seq<Attempt>, c: Attempt, ip: string)
    ensures TimesOf(calls + [c], ip) == if c.ip == ip then TimesOf(calls, ip) + [c.now] else TimesOf(calls, ip)
  {
    assert (calls + [c])[..|calls|] == calls;
  }

  lemma {:induction false} AdmittedSeparately(max: nat, calls: seq<Attempt>, ip: string)
    requires max > 0
    ensures AdmittedFrom(max, calls, ip) == Admitted(IpRule(max), TimesOf(calls, ip))
  {
    hide QueueRun, IpRun, TimesOf, AnswersOf, Accepted;
    AddressesAreSeparate(max, calls, ip);
  }
}
