/** The client-side sliding-window rate limiter (`rateLimiter.ts`): the
    timestamps of the requests of the last minute, cleared on a new day,
    checked against the per-minute and per-day limits of the settings
    store. Timestamps are integer milliseconds; the clock (`now`) and the
    day (`today`) are parameters. */
module RateLimiter {
  import opened Wrappers
  import opened Text
  import Settings

  /** The window, in milliseconds. */
  const Window := 60000

  datatype Limiter = Limiter(timestamps: seq<int>, lastResetDate: string)

  /** A wait time: milliseconds, or `NaN` when it is computed from the
      oldest timestamp of an empty list. */
  datatype Wait = WaitMs(ms: int) | WaitNaN

  /** `RateLimitInfo`: either the request may go ahead, or it is refused
      with a reason and, for the per-minute limit, a wait time. */
  datatype Info = Proceed | Refused(waitTime: Option<Wait>, reason: string)

  const TokenLimitReason := "Daily token limit exceeded"

  /** `checkDailyReset`: on a new day the timestamps are dropped and the day
      recorded. */
  function CheckDailyReset(l: Limiter, today: string): (r: Limiter)
    ensures r.lastResetDate == today
    ensures l.lastResetDate == today ==> r == l
    ensures l.lastResetDate != today ==> r.timestamps == []
  {
    if l.lastResetDate != today then Limiter([], today) else l
  }

  /** The timestamps less than a window old, in their order. */
  function Recent(ts: seq<int>, now: int): (r: seq<int>)
    ensures |r| <= |ts|
    ensures forall t :: t in r <==> t in ts && now - t < Window
  {
    if |ts| == 0 then []
    else
      var rest := Recent(ts[1..], now);
      if now - ts[0] < Window then [ts[0]] + rest else rest
  }

  /** The filter works timestamp by timestamp: filtering a concatenation
      filters each part. */
  lemma {:induction false} RecentAppend(a: seq<int>, b: seq<int>, now: int)
    ensures Recent(a + b, now) == Recent(a, now) + Recent(b, now)
    decreases |a|
  {
    if |a| == 0 {
      assert a + b == b;
    } else {
      assert (a + b)[1..] == a[1..] + b;
      RecentAppend(a[1..], b, now);
    }
  }

  /** Filtering at one time and then at a later time is filtering at the
      later time: the window only drops timestamps as the clock advances. */
  lemma {:induction false} RecentLater(ts: seq<int>, now: int, later: int)
    requires now <= later
    ensures Recent(Recent(ts, now), later) == Recent(ts, later)
    decreases |ts|
  {
    if |ts| > 0 {
      RecentLater(ts[1..], now, later);
      if now - ts[0] < Window {
        assert ([ts[0]] + Recent(ts[1..], now))[1..] == Recent(ts[1..], now);
      }
    }
  }

  /** `Math.ceil(ms / 1000)`: with a positive divisor Dafny's division
      rounds down, so negating twice rounds up. */
  function CeilSeconds(ms: int): (r: int)
    ensures 1000 * (r - 1) < ms <= 1000 * r
  {
    -((-ms) / 1000)
  }

  /** A number in a template literal. */
  function IntToString(n: int): string
  {
    if n < 0 then "-" + NatToString(-n) else NatToString(n)
  }

  function WaitReason(w: Wait): string
  {
    var seconds := match w
      case WaitMs(ms) => IntToString(CeilSeconds(ms))
      case WaitNaN => "NaN";
    "Rate limit exceeded. Please wait " + seconds + " seconds."
  }

  /** `checkRateLimit`, returning the limiter it leaves. The day is checked
      first; the token limit is checked before the window is touched; then
      the window is pruned, and a full window refuses with the time until
      its oldest timestamp leaves it. */
  function CheckRateLimit(l: Limiter, limits: Settings.RateLimits, totalTokens: int, now: int, today: string)
    : (r: (Limiter, Info))
    ensures r.0.lastResetDate == today
    ensures totalTokens >= limits.maxTokensPerDay ==>
      r.0 == CheckDailyReset(l, today) && r.1 == Refused(None, TokenLimitReason)
    ensures totalTokens < limits.maxTokensPerDay ==>
      var kept := Recent(CheckDailyReset(l, today).timestamps, now);
      && r.0.timestamps == kept
      && (r.1.Proceed? <==> |kept| < limits.maxRequestsPerMinute)
      && (r.1.Refused? && |kept| > 0 ==>
            && r.1.waitTime == Some(WaitMs(Window - (now - kept[0])))
            && 0 < r.1.waitTime.value.ms
            && (kept[0] <= now ==> r.1.waitTime.value.ms <= Window))
      && (r.1.Refused? && |kept| == 0 ==> r.1.waitTime == Some(WaitNaN))
  {
    var l1 := CheckDailyReset(l, today);
    if totalTokens >= limits.maxTokensPerDay then (l1, Refused(None, TokenLimitReason))
    else
      var kept := Recent(l1.timestamps, now);
      if |kept| >= limits.maxRequestsPerMinute then
        assert |kept| > 0 ==> kept[0] in kept;
        var w := if |kept| > 0 then WaitMs(Window - (now - kept[0])) else WaitNaN;
        (l1.(timestamps := kept), Refused(Some(w), WaitReason(w)))
      else (l1.(timestamps := kept), Proceed)
  }

  /** A refusal for a full window asks to wait between 1 and 60 seconds
      when the oldest timestamp is not in the future. */
  lemma WaitSecondsRange(l: Limiter, limits: Settings.RateLimits, totalTokens: int, now: int, today: string)
    requires totalTokens < limits.maxTokensPerDay
    ensures var r := CheckRateLimit(l, limits, totalTokens, now, today);
      var kept := r.0.timestamps;
      r.1.Refused? && |kept| > 0 && kept[0] <= now ==>
        1 <= CeilSeconds(r.1.waitTime.value.ms) <= 60
  {
  }

  /** `recordRequest`: exactly one timestamp is appended. */
  function RecordRequest(l: Limiter, now: int): (r: Limiter)
    ensures r.timestamps == l.timestamps + [now] && r.lastResetDate == l.lastResetDate
  {
    l.(timestamps := l.timestamps + [now])
  }

  /** Checking and then recording never lets the window hold more requests
      than the limit: a request that is let through finds fewer than the
      limit in the window, and recording it at the same instant brings the
      window to at most the limit. */
  lemma AdmitKeepsWindow(l: Limiter, limits: Settings.RateLimits, totalTokens: int, now: int, today: string)
    requires CheckRateLimit(l, limits, totalTokens, now, today).1.Proceed?
    ensures var l1 := RecordRequest(CheckRateLimit(l, limits, totalTokens, now, today).0, now);
      |Recent(l1.timestamps, now)| <= limits.maxRequestsPerMinute
  {
    var l0 := CheckRateLimit(l, limits, totalTokens, now, today).0;
    var kept := l0.timestamps;
    assert kept == Recent(CheckDailyReset(l, today).timestamps, now);
    RecentAppend(kept, [now], now);
    RecentLater(CheckDailyReset(l, today).timestamps, now, now);
    assert Recent([now], now) == [now];
  }

  /** `getRemainingRequests`, returning the pruned limiter: the requests
      left in the window, never negative. */
  function GetRemainingRequests(l: Limiter, limits: Settings.RateLimits, now: int): (r: (Limiter, int))
    ensures r.0 == l.(timestamps := Recent(l.timestamps, now))
    ensures r.1 >= 0
    ensures r.1 > 0 <==> |Recent(l.timestamps, now)| < limits.maxRequestsPerMinute
    ensures r.1 > 0 ==> r.1 + |Recent(l.timestamps, now)| == limits.maxRequestsPerMinute
  {
    var kept := Recent(l.timestamps, now);
    var left := limits.maxRequestsPerMinute - |kept|;
    (l.(timestamps := kept), if left > 0 then left else 0)
  }

  /** On the recorded day and under the token limit, the check lets a
      request through exactly when requests remain. */
  lemma RemainingAgreesWithCheck(l: Limiter, limits: Settings.RateLimits, totalTokens: int, now: int, today: string)
    requires l.lastResetDate == today && totalTokens < limits.maxTokensPerDay
    ensures CheckRateLimit(l, limits, totalTokens, now, today).1.Proceed?
            <==> GetRemainingRequests(l, limits, now).1 > 0
  {
  }

  /** `getRemainingTokens`: the day's tokens left, never negative. */
  function GetRemainingTokens(limits: Settings.RateLimits, totalTokens: int): (r: int)
    ensures r >= 0
    ensures r > 0 <==> totalTokens < limits.maxTokensPerDay
    ensures r > 0 ==> r + totalTokens == limits.maxTokensPerDay
  {
    if limits.maxTokensPerDay - totalTokens > 0 then limits.maxTokensPerDay - totalTokens else 0
  }

  /** `waitForRateLimit`: how long the caller sleeps, if at all. A refusal
      without a usable (non-zero, non-NaN) wait time does not sleep. */
  function WaitForRateLimit(l: Limiter, limits: Settings.RateLimits, totalTokens: int, now: int, today: string)
    : (r: (Limiter, Option<int>))
    ensures r.0 == CheckRateLimit(l, limits, totalTokens, now, today).0
    ensures r.1.Some? ==> CheckRateLimit(l, limits, totalTokens, now, today).1.Refused? && r.1.value > 0
    ensures totalTokens >= limits.maxTokensPerDay ==> r.1.None?
    ensures var info := CheckRateLimit(l, limits, totalTokens, now, today).1;
      r.1.Some? <==> info.Refused? && info.waitTime.Some? && info.waitTime.value.WaitMs? && info.waitTime.value.ms != 0
    ensures var info := CheckRateLimit(l, limits, totalTokens, now, today).1;
      r.1.Some? ==> r.1 == Some(info.waitTime.value.ms)
  {
    var (l1, info) := CheckRateLimit(l, limits, totalTokens, now, today);
    match info
    case Refused(Some(WaitMs(ms)), _) => (l1, if ms != 0 then Some(ms) else None)
    case _ => (l1, None)
  }
}
