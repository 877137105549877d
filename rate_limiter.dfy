/**
 * The fixed-window request limiter in front of the checkout endpoints
 * (lib/rate-limiter.ts), and the identifier the handlers key it by.
 *
 * `CheckStep` and `Unexpired` specify the class `RateLimiter`; `now` stands
 * for `Date.now()` in milliseconds. The lemmas bound how many calls one
 * window lets through.
 */
module RateLimiting {
  import opened Wrappers
  import opened JsStrings

  datatype Window = Window(count: nat, resetAt: nat)

  type Limits = map<string, Window>

  /** `{ allowed: true }` or `{ allowed: false, retryAfter }`, `retryAfter` in whole seconds. */
  datatype Decision = Allowed | Limited(retryAfter: nat)

  datatype CheckOutcome = CheckOutcome(decision: Decision, limits: Limits)

  /** `Math.ceil(ms / 1000)` for a non-negative number of milliseconds. */
  function CeilSeconds(ms: nat): (s: nat)
    ensures s * 1000 >= ms
    ensures s == 0 || (s - 1) * 1000 < ms
  {
    (ms + 999) / 1000
  }

  /** `check`: a missing or passed window starts a new one with count 1; a full window refuses
      without touching the entry; otherwise the call is counted and allowed. */
  function CheckStep(limits: Limits, id: string, maxRequests: nat, windowMs: nat, now: nat): (out: CheckOutcome)
    ensures out.decision.Limited? <==> id in limits && now <= limits[id].resetAt && limits[id].count >= maxRequests
    ensures out.decision.Limited? ==> out.limits == limits
    ensures out.decision.Limited? ==>
              out.decision.retryAfter == CeilSeconds(limits[id].resetAt - now)
    ensures out.decision.Allowed? ==> id in out.limits && out.limits.Keys == limits.Keys + {id}
    ensures out.decision.Allowed? && (id !in limits || now > limits[id].resetAt) ==>
              out.limits[id] == Window(1, now + windowMs)
    ensures out.decision.Allowed? && id in limits && now <= limits[id].resetAt ==>
              out.limits[id] == limits[id].(count := limits[id].count + 1)
    ensures forall k | k in limits && k != id :: k in out.limits && out.limits[k] == limits[k]
  {
    if id !in limits || now > limits[id].resetAt then
      CheckOutcome(Allowed, limits[id := Window(1, now + windowMs)])
    else if limits[id].count >= maxRequests then
      CheckOutcome(Limited(CeilSeconds(limits[id].resetAt - now)), limits)
    else
      CheckOutcome(Allowed, limits[id := limits[id].(count := limits[id].count + 1)])
  }

  /** `cleanup`: the windows whose reset time has passed are dropped, the others kept as they are. */
  function Unexpired(limits: Limits, now: nat): (l: Limits)
    ensures forall k :: k in l <==> k in limits && now <= limits[k].resetAt
    ensures forall k | k in l :: l[k] == limits[k]
  {
    map k | k in limits && now <= limits[k].resetAt :: limits[k]
  }

  class RateLimiter {
    var limits: Limits

    constructor ()
      ensures limits == map[]
    {
      limits := map[];
    }

    method Check(id: string, maxRequests: nat, windowMs: nat, now: nat) returns (decision: Decision)
      modifies this
      ensures CheckOutcome(decision, limits) == CheckStep(old(limits), id, maxRequests, windowMs, now)
    {
      if id !in limits || now > limits[id].resetAt {
        limits := limits[id := Window(1, now + windowMs)];
        return Allowed;
      }
      var entry := limits[id];
      if entry.count >= maxRequests {
        var retryAfter := (entry.resetAt - now + 999) / 1000;
        return Limited(retryAfter);
      }
      limits := limits[id := entry.(count := entry.count + 1)];
      decision := Allowed;
    }

    method Reset(id: string)
      modifies this
      ensures limits == old(limits) - {id}
    {
      limits := limits - {id};
    }

    /** Walks the identifiers and drops each window whose reset time has passed. */
    method Cleanup(now: nat)
      modifies this
      ensures limits == Unexpired(old(limits), now)
    {
      var pending := limits.Keys;
      while pending != {}
        invariant pending <= old(limits).Keys
        invariant forall k :: k in limits <==> k in old(limits) && (k in pending || now <= old(limits)[k].resetAt)
        invariant forall k | k in limits :: limits[k] == old(limits)[k]
        decreases pending
      {
        var id :| id in pending;
        if now > limits[id].resetAt {
          limits := limits - {id};
        }
        pending := pending - {id};
      }
    }
  }

  // ------------------------------------------------------------------ many calls

  /** The number of calls among `times` (all for `id`, same limit and window) that are allowed. */
  function AllowedCount(limits: Limits, id: string, maxRequests: nat, windowMs: nat, times: seq<nat>): nat
    decreases |times|
  {
    if times == [] then 0
    else
      var out := CheckStep(limits, id, maxRequests, windowMs, times[0]);
      (if out.decision.Allowed? then 1 else 0) + AllowedCount(out.limits, id, maxRequests, windowMs, times[1..])
  }

  /** While a window is open, it lets through no more than what is left of its budget. */
  lemma {:induction false} OpenWindowBudget(limits: Limits, id: string, maxRequests: nat, windowMs: nat, times: seq<nat>)
    requires id in limits && limits[id].count <= maxRequests
    requires forall i :: 0 <= i < |times| ==> times[i] <= limits[id].resetAt
    ensures AllowedCount(limits, id, maxRequests, windowMs, times) <= maxRequests - limits[id].count
    decreases |times|
  {
    if times != [] {
      var out := CheckStep(limits, id, maxRequests, windowMs, times[0]);
      assert out.limits[id].resetAt == limits[id].resetAt;
      OpenWindowBudget(out.limits, id, maxRequests, windowMs, times[1..]);
    }
  }

  /** A new window lets through at most `maxRequests` calls (for a limit of at least one):
      the first call opens it, and every later call before it resets is counted against it. */
  lemma AtMostMaxPerWindow(limits: Limits, id: string, maxRequests: nat, windowMs: nat, times: seq<nat>)
    requires maxRequests >= 1
    requires |times| >= 1
    requires id !in limits || times[0] > limits[id].resetAt
    requires forall i :: 0 <= i < |times| ==> times[i] <= times[0] + windowMs
    ensures AllowedCount(limits, id, maxRequests, windowMs, times) <= maxRequests
  {
    var out := CheckStep(limits, id, maxRequests, windowMs, times[0]);
    assert out.limits[id] == Window(1, times[0] + windowMs);
    OpenWindowBudget(out.limits, id, maxRequests, windowMs, times[1..]);
  }

  /** A window's count never goes beyond the limit once it is within it. */
  lemma CountStaysWithinLimit(limits: Limits, id: string, maxRequests: nat, windowMs: nat, now: nat)
    requires maxRequests >= 1
    requires id in limits ==> limits[id].count <= maxRequests
    ensures var out := CheckStep(limits, id, maxRequests, windowMs, now);
      id in out.limits && out.limits[id].count <= maxRequests
  {
  }

  /** The wait a refused call is told about never exceeds the window it waits for. */
  lemma RetryAfterWithinWindow(limits: Limits, id: string, maxRequests: nat, windowMs: nat, now: nat, openedAt: nat)
    requires id in limits && limits[id].resetAt == openedAt + windowMs && openedAt <= now
    ensures var d := CheckStep(limits, id, maxRequests, windowMs, now).decision;
      d.Limited? ==> d.retryAfter * 1000 <= windowMs + 999
  {
  }

  // ------------------------------------------------------------------ identifiers

  /** The three endpoint families that are limited separately. */
  datatype LimitType = OtpSend | OtpVerify | Payment

  function Label(t: LimitType): string {
    match t
    case OtpSend => "otp-send"
    case OtpVerify => "otp-verify"
    case Payment => "payment"
  }

  /** The client address: the first entry of `x-forwarded-for`, trimmed, else `x-real-ip`,
      else "unknown"; empty values fall through to the next choice. */
  function ClientIp(forwardedFor: Option<string>, realIp: Option<string>): (ip: string)
    ensures ip != ""
    ensures forwardedFor.Some? && Trim(FirstSegment(forwardedFor.value, ',')) != "" ==>
              ip == Trim(FirstSegment(forwardedFor.value, ',')) && ',' !in ip
    ensures (forwardedFor.None? || Trim(FirstSegment(forwardedFor.value, ',')) == "") && Truthy(realIp) ==>
              ip == realIp.value
    ensures (forwardedFor.None? || Trim(FirstSegment(forwardedFor.value, ',')) == "") && !Truthy(realIp) ==>
              ip == "unknown"
  {
    var first := if forwardedFor.Some? then Some(Trim(FirstSegment(forwardedFor.value, ','))) else None;
    Or(first, Or(realIp, "unknown"))
  }

  /** `getRateLimitIdentifier`: `${type}:${ip}`. */
  function Identifier(t: LimitType, forwardedFor: Option<string>, realIp: Option<string>): string {
    Label(t) + ":" + ClientIp(forwardedFor, realIp)
  }

  /** Different endpoint families or different client addresses never share a window. */
  lemma IdentifierInjective(t1: LimitType, ip1: string, t2: LimitType, ip2: string)
    requires Label(t1) + ":" + ip1 == Label(t2) + ":" + ip2
    ensures t1 == t2 && ip1 == ip2
  {
    var s := Label(t1) + ":" + ip1;
    assert ':' !in Label(t1) && ':' !in Label(t2);
    FirstIndexOfJoin(Label(t1), ':', ip1);
    FirstIndexOfJoin(Label(t2), ':', ip2);
    assert Label(t1) == s[..|Label(t1)|];
    assert Label(t2) == s[..|Label(t2)|];
    assert ip1 == s[|Label(t1)| + 1..];
    assert ip2 == s[|Label(t2)| + 1..];
  }
}
