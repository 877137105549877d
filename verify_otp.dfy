/**
 * POST /api/checkout/verify-otp (app/api/checkout/verify-otp/route.ts):
 * configuration check, rate limit, field checks, code verification, and the
 * payment-intent request built from the posted total and items.
 *
 * `VerifyOtp` is the decision chain over the limiter's and the code store's
 * states; `VerifyOtpHandler` runs it against the two store objects. Stripe's
 * answer to the intent request is a parameter. `total` is in cents, so the
 * intent amount `Math.round(total * 100)` is `total` itself.
 */
module VerifyOtpRoute {
  import opened Wrappers
  import opened JsStrings
  import opened RateLimiting
  import opened OtpStore
  import opened CheckoutItems

  /** Five attempts per client address per ten minutes. */
  const VerifyLimit: nat := 5
  const VerifyWindowMs: nat := 10 * 60 * 1000
  const Currency: string := "usd"
  const NotConfiguredText: string := "Payment system is not configured. Please contact support."
  const DefaultFailureText: string := "Failed to verify code and create payment"

  datatype VerifyOtpBody = VerifyOtpBody(
    email: Option<string>, otp: Option<string>, cartHash: Option<string>,
    items: Option<seq<RequestItem>>, total: Option<int>)

  /** The parameters of `stripe.paymentIntents.create`; automatic payment methods are always on. */
  datatype IntentRequest = IntentRequest(
    amount: int, currency: string,
    email: string, cartHash: string, items: seq<MetaItem>,
    description: string, receiptEmail: string)

  /** Stripe's answer: the created intent, or a failure carrying a message when it is a Stripe error. */
  datatype StripeAnswer = IntentCreated(clientSecret: string, id: string) | StripeFailed(message: Option<string>)

  datatype VerifyOtpReply = PaymentReady(clientSecret: string, paymentIntentId: string) | VerifyOtpError(status: nat, error: string)

  datatype VerifyOtpOutcome = VerifyOtpOutcome(reply: VerifyOtpReply, intent: Option<IntentRequest>, limits: Limits, store: Store)

  function TooManyText(retryAfter: nat): string {
    "Too many attempts. Please try again in " + Decimal(retryAfter) + " seconds."
  }

  /** `!email || !otp || !cartHash || !items || !total`: an array, even an empty one, is present. */
  predicate MissingFields(b: VerifyOtpBody) {
    !Truthy(b.email) || !Truthy(b.otp) || !Truthy(b.cartHash) || b.items.None? || b.total.None? || b.total.value == 0
  }

  /** The intent requested for a body whose fields are present. */
  function IntentFor(b: VerifyOtpBody): IntentRequest
    requires !MissingFields(b)
  {
    var items := b.items.value;
    IntentRequest(
      b.total.value, Currency, b.email.value, b.cartHash.value, MetaItems(items),
      "Purchase of " + Decimal(|items|) + " maths note(s)", b.email.value)
  }

  function VerifyOtp(
    stripeKey: Option<string>, limits: Limits, store: Store,
    forwardedFor: Option<string>, realIp: Option<string>,
    body: Option<VerifyOtpBody>, stripe: StripeAnswer, now: nat)
    : VerifyOtpOutcome
  {
    if !Truthy(stripeKey) then
      VerifyOtpOutcome(VerifyOtpError(500, NotConfiguredText), None, limits, store)
    else
      var rl := CheckStep(limits, Identifier(OtpVerify, forwardedFor, realIp), VerifyLimit, VerifyWindowMs, now);
      if rl.decision.Limited? then
        VerifyOtpOutcome(VerifyOtpError(429, TooManyText(rl.decision.retryAfter)), None, rl.limits, store)
      else if body.None? then
        VerifyOtpOutcome(VerifyOtpError(500, DefaultFailureText), None, rl.limits, store)
      else if MissingFields(body.value) then
        VerifyOtpOutcome(VerifyOtpError(400, "Missing required fields"), None, rl.limits, store)
      else
        var b := body.value;
        var v := VerifyStep(store, b.email.value, b.otp.value, b.cartHash.value, now);
        if v.result.Rejected? then
          VerifyOtpOutcome(VerifyOtpError(400, ErrorMessage(v.result.error)), None, rl.limits, v.store)
        else
          var intent := IntentFor(b);
          match stripe
          case IntentCreated(secret, id) =>
            VerifyOtpOutcome(PaymentReady(secret, id), Some(intent), rl.limits, v.store)
          case StripeFailed(message) =>
            VerifyOtpOutcome(VerifyOtpError(500, message.GetOr(DefaultFailureText)), Some(intent), rl.limits, v.store)
  }

  /** The handler, run against the shared limiter and code store. */
  method VerifyOtpHandler(
    limiter: RateLimiter, codes: OTPStore, stripeKey: Option<string>,
    forwardedFor: Option<string>, realIp: Option<string>,
    body: Option<VerifyOtpBody>, stripe: StripeAnswer, now: nat)
    returns (reply: VerifyOtpReply, intent: Option<IntentRequest>)
    modifies limiter, codes
    ensures VerifyOtpOutcome(reply, intent, limiter.limits, codes.store)
            == VerifyOtp(stripeKey, old(limiter.limits), old(codes.store), forwardedFor, realIp, body, stripe, now)
  {
    if !Truthy(stripeKey) {
      return VerifyOtpError(500, NotConfiguredText), None;
    }
    var decision := limiter.Check(Identifier(OtpVerify, forwardedFor, realIp), VerifyLimit, VerifyWindowMs, now);
    if decision.Limited? {
      return VerifyOtpError(429, TooManyText(decision.retryAfter)), None;
    }
    if body.None? {
      return VerifyOtpError(500, DefaultFailureText), None;
    }
    var b := body.value;
    if MissingFields(b) {
      return VerifyOtpError(400, "Missing required fields"), None;
    }
    var result := codes.Verify(b.email.value, b.otp.value, b.cartHash.value, now);
    if result.Rejected? {
      return VerifyOtpError(400, ErrorMessage(result.error)), None;
    }
    intent := Some(IntentFor(b));
    match stripe {
      case IntentCreated(secret, id) =>
        reply := PaymentReady(secret, id);
      case StripeFailed(message) =>
        reply := VerifyOtpError(500, message.GetOr(DefaultFailureText));
    }
  }

  // ------------------------------------------------------------------ properties

  /** Without a Stripe key the reply is 500 before the limiter or the code store is touched. */
  lemma NotConfiguredTouchesNothing(
    stripeKey: Option<string>, limits: Limits, store: Store, forwardedFor: Option<string>, realIp: Option<string>,
    body: Option<VerifyOtpBody>, stripe: StripeAnswer, now: nat)
    requires !Truthy(stripeKey)
    ensures VerifyOtp(stripeKey, limits, store, forwardedFor, realIp, body, stripe, now)
            == VerifyOtpOutcome(VerifyOtpError(500, NotConfiguredText), None, limits, store)
  {
  }

  /** A request the limiter refuses gets 429 and leaves the code store and the limiter as they were. */
  lemma RateLimitedLeavesCodes(
    stripeKey: Option<string>, limits: Limits, store: Store, forwardedFor: Option<string>, realIp: Option<string>,
    body: Option<VerifyOtpBody>, stripe: StripeAnswer, now: nat)
    requires Truthy(stripeKey)
    requires CheckStep(limits, Identifier(OtpVerify, forwardedFor, realIp), VerifyLimit, VerifyWindowMs, now).decision.Limited?
    ensures var out := VerifyOtp(stripeKey, limits, store, forwardedFor, realIp, body, stripe, now);
      && out.reply.VerifyOtpError? && out.reply.status == 429
      && out.store == store && out.limits == limits && out.intent.None?
  {
  }

  /** Missing fields (a zero total among them) get 400 without the code being checked. */
  lemma MissingFieldsSkipVerify(
    stripeKey: Option<string>, limits: Limits, store: Store, forwardedFor: Option<string>, realIp: Option<string>,
    body: VerifyOtpBody, stripe: StripeAnswer, now: nat)
    requires Truthy(stripeKey)
    requires CheckStep(limits, Identifier(OtpVerify, forwardedFor, realIp), VerifyLimit, VerifyWindowMs, now).decision.Allowed?
    requires MissingFields(body)
    ensures var out := VerifyOtp(stripeKey, limits, store, forwardedFor, realIp, Some(body), stripe, now);
      && out.reply == VerifyOtpError(400, "Missing required fields")
      && out.store == store && out.intent.None?
  {
  }

  /** A code the store rejects is answered 400 with the store's own message, and no intent is requested. */
  lemma RejectionReported(
    stripeKey: Option<string>, limits: Limits, store: Store, forwardedFor: Option<string>, realIp: Option<string>,
    body: VerifyOtpBody, stripe: StripeAnswer, now: nat, e: VerifyError)
    requires Truthy(stripeKey)
    requires CheckStep(limits, Identifier(OtpVerify, forwardedFor, realIp), VerifyLimit, VerifyWindowMs, now).decision.Allowed?
    requires !MissingFields(body)
    requires VerifyStep(store, body.email.value, body.otp.value, body.cartHash.value, now).result == Rejected(e)
    ensures var out := VerifyOtp(stripeKey, limits, store, forwardedFor, realIp, Some(body), stripe, now);
      && out.reply == VerifyOtpError(400, ErrorMessage(e))
      && out.intent.None?
      && out.store == VerifyStep(store, body.email.value, body.otp.value, body.cartHash.value, now).store
  {
  }

  /** An intent is requested exactly when every check passes and the code verifies; it is then for the
      posted total in dollars-and-cents, with the posted address, hash and items, and the reply carries
      Stripe's client secret and intent id whenever Stripe created the intent. */
  lemma IntentOnlyAfterVerification(
    stripeKey: Option<string>, limits: Limits, store: Store, forwardedFor: Option<string>, realIp: Option<string>,
    body: Option<VerifyOtpBody>, stripe: StripeAnswer, now: nat)
    ensures var out := VerifyOtp(stripeKey, limits, store, forwardedFor, realIp, body, stripe, now);
      && (out.intent.Some? <==>
            && Truthy(stripeKey)
            && CheckStep(limits, Identifier(OtpVerify, forwardedFor, realIp), VerifyLimit, VerifyWindowMs, now).decision.Allowed?
            && body.Some? && !MissingFields(body.value)
            && VerifyStep(store, body.value.email.value, body.value.otp.value, body.value.cartHash.value, now).result == Verified)
      && (out.intent.Some? ==>
            && out.intent.value.amount == body.value.total.value
            && out.intent.value.currency == Currency
            && out.intent.value.email == body.value.email.value
            && out.intent.value.receiptEmail == body.value.email.value
            && out.intent.value.cartHash == body.value.cartHash.value
            && out.intent.value.items == MetaItems(body.value.items.value))
      && (out.reply.PaymentReady? <==> out.intent.Some? && stripe.IntentCreated?)
      && (out.reply.PaymentReady? ==> out.reply == PaymentReady(stripe.clientSecret, stripe.id))
  {
    IntentCondition(stripeKey, limits, store, forwardedFor, realIp, body, stripe, now);
    if body.Some? && !MissingFields(body.value) {
      IntentOfBody(stripeKey, limits, store, forwardedFor, realIp, body.value, stripe, now);
    }
  }

  /** The branch that asks Stripe for an intent: configured, allowed, all fields, and a verified code. */
  lemma IntentCondition(
    stripeKey: Option<string>, limits: Limits, store: Store, forwardedFor: Option<string>, realIp: Option<string>,
    body: Option<VerifyOtpBody>, stripe: StripeAnswer, now: nat)
    ensures var out := VerifyOtp(stripeKey, limits, store, forwardedFor, realIp, body, stripe, now);
      out.intent.Some? <==>
        && Truthy(stripeKey)
        && CheckStep(limits, Identifier(OtpVerify, forwardedFor, realIp), VerifyLimit, VerifyWindowMs, now).decision.Allowed?
        && body.Some? && !MissingFields(body.value)
        && VerifyStep(store, body.value.email.value, body.value.otp.value, body.value.cartHash.value, now).result == Verified
  {
  }

  /** Whenever an intent is requested it is the body's, and the reply is Stripe's answer. */
  lemma IntentOfBody(
    stripeKey: Option<string>, limits: Limits, store: Store, forwardedFor: Option<string>, realIp: Option<string>,
    b: VerifyOtpBody, stripe: StripeAnswer, now: nat)
    requires !MissingFields(b)
    ensures var out := VerifyOtp(stripeKey, limits, store, forwardedFor, realIp, Some(b), stripe, now);
      && (out.intent.Some? ==> out.intent.value == IntentFor(b))
      && (out.reply.PaymentReady? <==> out.intent.Some? && stripe.IntentCreated?)
      && (out.reply.PaymentReady? ==> out.reply == PaymentReady(stripe.clientSecret, stripe.id))
  {
    var out := VerifyOtp(stripeKey, limits, store, forwardedFor, realIp, Some(b), stripe, now);
    var rl := CheckStep(limits, Identifier(OtpVerify, forwardedFor, realIp), VerifyLimit, VerifyWindowMs, now);
    if Truthy(stripeKey) && rl.decision.Allowed? {
      var v := VerifyStep(store, b.email.value, b.otp.value, b.cartHash.value, now);
      if v.result.Verified? {
        assert out.intent == Some(IntentFor(b));
      } else {
        assert out.reply.VerifyOtpError? && out.intent.None?;
      }
    } else {
      assert out.reply.VerifyOtpError? && out.intent.None?;
    }
  }

  /** Two bodies with the same address, code and hash get the same verdict, reply and store; only the
      intent differs, each being its own body's. */
  lemma SameCredentialsSameVerdict(
    stripeKey: Option<string>, limits: Limits, store: Store, forwardedFor: Option<string>, realIp: Option<string>,
    b1: VerifyOtpBody, b2: VerifyOtpBody, stripe: StripeAnswer, now: nat)
    requires !MissingFields(b1) && !MissingFields(b2)
    requires b1.email == b2.email && b1.otp == b2.otp && b1.cartHash == b2.cartHash
    ensures var o1 := VerifyOtp(stripeKey, limits, store, forwardedFor, realIp, Some(b1), stripe, now);
      var o2 := VerifyOtp(stripeKey, limits, store, forwardedFor, realIp, Some(b2), stripe, now);
      o2 == o1.(intent := if o1.intent.Some? then Some(IntentFor(b2)) else None)
  {
  }

  /** The amount charged comes from the request alone: two requests with the same address, code and hash
      reach the same verdict and leave the same code store whatever items and totals they post, and each
      is charged its own posted total. */
  lemma ChargesPostedTotal(
    stripeKey: Option<string>, limits: Limits, store: Store, forwardedFor: Option<string>, realIp: Option<string>,
    b1: VerifyOtpBody, b2: VerifyOtpBody, stripe: StripeAnswer, now: nat)
    requires !MissingFields(b1) && !MissingFields(b2)
    requires b1.email == b2.email && b1.otp == b2.otp && b1.cartHash == b2.cartHash
    ensures var o1 := VerifyOtp(stripeKey, limits, store, forwardedFor, realIp, Some(b1), stripe, now);
      var o2 := VerifyOtp(stripeKey, limits, store, forwardedFor, realIp, Some(b2), stripe, now);
      && o1.store == o2.store
      && o1.reply == o2.reply
      && (o1.intent.Some? <==> o2.intent.Some?)
      && (o1.intent.Some? ==> o1.intent.value.amount == b1.total.value && o2.intent.value.amount == b2.total.value)
  {
    SameCredentialsSameVerdict(stripeKey, limits, store, forwardedFor, realIp, b1, b2, stripe, now);
    IntentOfBody(stripeKey, limits, store, forwardedFor, realIp, b1, stripe, now);
  }

  /** When Stripe fails after the code has verified, the code is spent: the reply is 500, and until the
      code expires every later verification for that address is refused as already used. */
  lemma StripeFailureSpendsCode(
    stripeKey: Option<string>, limits: Limits, store: Store, forwardedFor: Option<string>, realIp: Option<string>,
    body: VerifyOtpBody, message: Option<string>, now: nat,
    retryCode: string, retryHash: string, later: nat)
    requires Truthy(stripeKey)
    requires CheckStep(limits, Identifier(OtpVerify, forwardedFor, realIp), VerifyLimit, VerifyWindowMs, now).decision.Allowed?
    requires !MissingFields(body)
    requires VerifyStep(store, body.email.value, body.otp.value, body.cartHash.value, now).result == Verified
    requires later <= store[ToLower(body.email.value)].expiresAt
    ensures var out := VerifyOtp(stripeKey, limits, store, forwardedFor, realIp, Some(body), StripeFailed(message), now);
      && out.reply.VerifyOtpError? && out.reply.status == 500
      && VerifyStep(out.store, body.email.value, retryCode, retryHash, later).result == Rejected(AlreadyUsed)
  {
    var out := VerifyOtp(stripeKey, limits, store, forwardedFor, realIp, Some(body), StripeFailed(message), now);
    var key := ToLower(body.email.value);
    assert out.store == VerifyStep(store, body.email.value, body.otp.value, body.cartHash.value, now).store;
    assert out.store[key].verified && out.store[key].expiresAt == store[key].expiresAt;
    UsedCodeStaysUsed(out.store, body.email.value, retryCode, retryHash, later);
  }
}
