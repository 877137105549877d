/**
 * POST /api/checkout/send-otp (app/api/checkout/send-otp/route.ts): rate
 * limit, field checks, e-mail shape, cart hash, code creation, mail.
 *
 * `SendOtp` is the decision chain over the limiter's and the code store's
 * states; `SendOtpHandler` runs it against the two store objects. The request
 * body is `None` when it is not valid JSON. `cartTotal` is in cents; `None`
 * stands for a missing or null value.
 */
module SendOtpRoute {
  import opened Wrappers
  import opened JsStrings
  import opened EmailShape
  import opened RateLimiting
  import opened OtpStore
  import opened MailFailure
  import opened CheckoutItems

  /** Three codes per client address per ten minutes. */
  const SendLimit: nat := 3
  const SendWindowMs: nat := 10 * 60 * 1000
  const DefaultFailureText: string := "Failed to send verification code"

  datatype SendOtpBody = SendOtpBody(email: Option<string>, cartTotal: Option<int>, items: Option<seq<RequestItem>>)

  /** The code mail handed to the mail provider. */
  datatype CodeMail = CodeMail(to: string, code: string, itemCount: nat, cartTotal: int)

  /** The reply: 200 with the cart hash (never the code), or an error status and text. */
  datatype SendOtpReply = CodeSent(cartHash: string) | SendOtpError(status: nat, error: string)

  datatype SendOtpOutcome = SendOtpOutcome(reply: SendOtpReply, mail: Option<CodeMail>, limits: Limits, store: Store)

  function TooManyText(retryAfter: nat): string {
    "Too many requests. Please try again in " + Decimal(retryAfter) + " seconds."
  }

  /** `!email || !cartTotal || !items || items.length === 0` */
  predicate MissingFields(b: SendOtpBody) {
    !Truthy(b.email) || b.cartTotal.None? || b.cartTotal.value == 0 || b.items.None? || |b.items.value| == 0
  }

  function SendOtp(
    limits: Limits, store: Store,
    forwardedFor: Option<string>, realIp: Option<string>,
    body: Option<SendOtpBody>, hash: ItemsHash, draw: nat, mailFailure: Option<SendFailure>, now: nat)
    : SendOtpOutcome
    requires CodeLow <= draw < CodeHigh
  {
    var rl := CheckStep(limits, Identifier(OtpSend, forwardedFor, realIp), SendLimit, SendWindowMs, now);
    if rl.decision.Limited? then
      SendOtpOutcome(SendOtpError(429, TooManyText(rl.decision.retryAfter)), None, rl.limits, store)
    else if body.None? then
      SendOtpOutcome(SendOtpError(500, DefaultFailureText), None, rl.limits, store)
    else if MissingFields(body.value) then
      SendOtpOutcome(SendOtpError(400, "Missing required fields"), None, rl.limits, store)
    else if !IsValidEmail(body.value.email.value) then
      SendOtpOutcome(SendOtpError(400, "Invalid email address"), None, rl.limits, store)
    else
      var b := body.value;
      var cartHash := hash(b.items.value);
      var code := CodeFor(draw);
      var stored := CreateStep(store, b.email.value, code, cartHash, now);
      var mail := CodeMail(b.email.value, code, |b.items.value|, b.cartTotal.value);
      if mailFailure.Some? then
        SendOtpOutcome(SendOtpError(500, FailureText(mailFailure.value, DefaultFailureText)), Some(mail), rl.limits, stored)
      else
        SendOtpOutcome(CodeSent(cartHash), Some(mail), rl.limits, stored)
  }

  /** The handler, run against the shared limiter and code store. */
  method SendOtpHandler(
    limiter: RateLimiter, codes: OTPStore,
    forwardedFor: Option<string>, realIp: Option<string>,
    body: Option<SendOtpBody>, hash: ItemsHash, draw: nat, mailFailure: Option<SendFailure>, now: nat)
    returns (reply: SendOtpReply, mail: Option<CodeMail>)
    requires CodeLow <= draw < CodeHigh
    modifies limiter, codes
    ensures SendOtpOutcome(reply, mail, limiter.limits, codes.store)
            == SendOtp(old(limiter.limits), old(codes.store), forwardedFor, realIp, body, hash, draw, mailFailure, now)
  {
    var id := Identifier(OtpSend, forwardedFor, realIp);
    var decision := limiter.Check(id, SendLimit, SendWindowMs, now);
    if decision.Limited? {
      return SendOtpError(429, TooManyText(decision.retryAfter)), None;
    }
    if body.None? {
      return SendOtpError(500, DefaultFailureText), None;
    }
    var b := body.value;
    if MissingFields(b) {
      return SendOtpError(400, "Missing required fields"), None;
    }
    if !IsValidEmail(b.email.value) {
      return SendOtpError(400, "Invalid email address"), None;
    }
    var cartHash := hash(b.items.value);
    var code := codes.Create(b.email.value, cartHash, now, draw);
    mail := Some(CodeMail(b.email.value, code, |b.items.value|, b.cartTotal.value));
    if mailFailure.Some? {
      return SendOtpError(500, FailureText(mailFailure.value, DefaultFailureText)), mail;
    }
    reply := CodeSent(cartHash);
  }

  // ------------------------------------------------------------------ properties

  /** The limiter is consulted first: a refused request gets 429 and creates and sends nothing. */
  lemma RateLimitedCreatesNothing(
    limits: Limits, store: Store, forwardedFor: Option<string>, realIp: Option<string>,
    body: Option<SendOtpBody>, hash: ItemsHash, draw: nat, mailFailure: Option<SendFailure>, now: nat)
    requires CodeLow <= draw < CodeHigh
    requires CheckStep(limits, Identifier(OtpSend, forwardedFor, realIp), SendLimit, SendWindowMs, now).decision.Limited?
    ensures var out := SendOtp(limits, store, forwardedFor, realIp, body, hash, draw, mailFailure, now);
      && out.reply.SendOtpError? && out.reply.status == 429
      && out.store == store && out.mail.None? && out.limits == limits
  {
  }

  /** Any 400 leaves the code store as it was and sends nothing, but the request has been counted. */
  lemma RejectedRequestCounted(
    limits: Limits, store: Store, forwardedFor: Option<string>, realIp: Option<string>,
    body: Option<SendOtpBody>, hash: ItemsHash, draw: nat, mailFailure: Option<SendFailure>, now: nat)
    requires CodeLow <= draw < CodeHigh
    requires var reply := SendOtp(limits, store, forwardedFor, realIp, body, hash, draw, mailFailure, now).reply;
      reply.SendOtpError? && reply.status == 400
    ensures var out := SendOtp(limits, store, forwardedFor, realIp, body, hash, draw, mailFailure, now);
      && out.store == store && out.mail.None?
      && out.limits == CheckStep(limits, Identifier(OtpSend, forwardedFor, realIp), SendLimit, SendWindowMs, now).limits
      && body.Some? && (MissingFields(body.value) || !IsValidEmail(body.value.email.value))
  {
    var rl := CheckStep(limits, Identifier(OtpSend, forwardedFor, realIp), SendLimit, SendWindowMs, now);
    assert rl.decision.Allowed? && body.Some?;
    assert MissingFields(body.value) || !IsValidEmail(body.value.email.value);
    assert SendOtp(limits, store, forwardedFor, realIp, body, hash, draw, mailFailure, now)
        == SendOtpOutcome(SendOtp(limits, store, forwardedFor, realIp, body, hash, draw, mailFailure, now).reply, None, rl.limits, store);
  }

  /** A zero total is refused like a missing one. */
  lemma ZeroTotalRefused(
    limits: Limits, store: Store, forwardedFor: Option<string>, realIp: Option<string>,
    email: Option<string>, items: Option<seq<RequestItem>>, hash: ItemsHash, draw: nat, mailFailure: Option<SendFailure>, now: nat)
    requires CodeLow <= draw < CodeHigh
    requires CheckStep(limits, Identifier(OtpSend, forwardedFor, realIp), SendLimit, SendWindowMs, now).decision.Allowed?
    ensures SendOtp(limits, store, forwardedFor, realIp, Some(SendOtpBody(email, Some(0), items)), hash, draw, mailFailure, now).reply
            == SendOtpError(400, "Missing required fields")
  {
  }

  /** Success exactly when the limiter allows, the fields are present, the address has the e-mail shape
      and the mail goes out; the reply then carries the hash of the items, one code is stored for the
      lower-cased address bound to that hash, and the mailed code is the stored one. */
  lemma SuccessIsCodeForCart(
    limits: Limits, store: Store, forwardedFor: Option<string>, realIp: Option<string>,
    body: Option<SendOtpBody>, hash: ItemsHash, draw: nat, mailFailure: Option<SendFailure>, now: nat)
    requires CodeLow <= draw < CodeHigh
    ensures var out := SendOtp(limits, store, forwardedFor, realIp, body, hash, draw, mailFailure, now);
      && (out.reply.CodeSent? <==>
            && CheckStep(limits, Identifier(OtpSend, forwardedFor, realIp), SendLimit, SendWindowMs, now).decision.Allowed?
            && body.Some? && !MissingFields(body.value) && MatchesEmailPattern(body.value.email.value)
            && mailFailure.None?)
      && (out.reply.CodeSent? ==>
            var key := ToLower(body.value.email.value);
            && out.reply.cartHash == hash(body.value.items.value)
            && key in out.store
            && out.store[key] == NewEntry(body.value.email.value, CodeFor(draw), out.reply.cartHash, now)
            && out.store == store[key := out.store[key]]
            && out.mail == Some(CodeMail(body.value.email.value, out.store[key].otp, |body.value.items.value|, body.value.cartTotal.value)))
  {
    SuccessCondition(limits, store, forwardedFor, realIp, body, hash, draw, mailFailure, now);
    if body.Some? && !MissingFields(body.value) {
      EmailCheckIsPattern(body.value.email.value);
    }
    if SendOtp(limits, store, forwardedFor, realIp, body, hash, draw, mailFailure, now).reply.CodeSent? {
      SuccessShape(limits, store, forwardedFor, realIp, body.value, hash, draw, now);
    }
  }

  /** The branch that answers 200: the limiter allows, the fields are present, the address passes the
      check and the mail goes out. */
  lemma SuccessCondition(
    limits: Limits, store: Store, forwardedFor: Option<string>, realIp: Option<string>,
    body: Option<SendOtpBody>, hash: ItemsHash, draw: nat, mailFailure: Option<SendFailure>, now: nat)
    requires CodeLow <= draw < CodeHigh
    ensures SendOtp(limits, store, forwardedFor, realIp, body, hash, draw, mailFailure, now).reply.CodeSent? <==>
            && CheckStep(limits, Identifier(OtpSend, forwardedFor, realIp), SendLimit, SendWindowMs, now).decision.Allowed?
            && body.Some? && !MissingFields(body.value) && IsValidEmail(body.value.email.value)
            && mailFailure.None?
  {
  }

  /** What a 200 carries and stores. */
  lemma SuccessShape(
    limits: Limits, store: Store, forwardedFor: Option<string>, realIp: Option<string>,
    b: SendOtpBody, hash: ItemsHash, draw: nat, now: nat)
    requires CodeLow <= draw < CodeHigh
    requires SendOtp(limits, store, forwardedFor, realIp, Some(b), hash, draw, None, now).reply.CodeSent?
    ensures var out := SendOtp(limits, store, forwardedFor, realIp, Some(b), hash, draw, None, now);
      && !MissingFields(b)
      && var key := ToLower(b.email.value);
      && out.reply.cartHash == hash(b.items.value)
      && out.store == store[key := NewEntry(b.email.value, CodeFor(draw), out.reply.cartHash, now)]
      && out.mail == Some(CodeMail(b.email.value, CodeFor(draw), |b.items.value|, b.cartTotal.value))
  {
    var rl := CheckStep(limits, Identifier(OtpSend, forwardedFor, realIp), SendLimit, SendWindowMs, now);
    assert rl.decision.Allowed? && !MissingFields(b) && IsValidEmail(b.email.value);
    var out := SendOtp(limits, store, forwardedFor, realIp, Some(b), hash, draw, None, now);
    assert out.reply == CodeSent(hash(b.items.value));
    assert out.store == CreateStep(store, b.email.value, CodeFor(draw), hash(b.items.value), now);
  }

  /** A failed mail send answers 500, yet the code created just before stays in the store. */
  lemma MailFailureKeepsCode(
    limits: Limits, store: Store, forwardedFor: Option<string>, realIp: Option<string>,
    body: Option<SendOtpBody>, hash: ItemsHash, draw: nat, failure: SendFailure, now: nat)
    requires CodeLow <= draw < CodeHigh
    requires CheckStep(limits, Identifier(OtpSend, forwardedFor, realIp), SendLimit, SendWindowMs, now).decision.Allowed?
    requires body.Some? && !MissingFields(body.value) && IsValidEmail(body.value.email.value)
    ensures var out := SendOtp(limits, store, forwardedFor, realIp, body, hash, draw, Some(failure), now);
      && out.reply == SendOtpError(500, FailureText(failure, DefaultFailureText))
      && ToLower(body.value.email.value) in out.store
      && out.store[ToLower(body.value.email.value)].otp == CodeFor(draw)
  {
  }

  /** The code mailed on success verifies, within its lifetime, against the cart hash the reply carried. */
  lemma SentCodeVerifies(
    limits: Limits, store: Store, forwardedFor: Option<string>, realIp: Option<string>,
    body: Option<SendOtpBody>, hash: ItemsHash, draw: nat, now: nat, later: nat)
    requires CodeLow <= draw < CodeHigh
    requires SendOtp(limits, store, forwardedFor, realIp, body, hash, draw, None, now).reply.CodeSent?
    requires now <= later <= now + OtpLifetimeMs
    ensures var out := SendOtp(limits, store, forwardedFor, realIp, body, hash, draw, None, now);
      && body.Some? && body.value.email.Some? && out.mail.Some?
      && VerifyStep(out.store, body.value.email.value, out.mail.value.code, out.reply.cartHash, later).result == Verified
  {
    var out := SendOtp(limits, store, forwardedFor, realIp, body, hash, draw, None, now);
    var b := body.value;
    SuccessIsCodeForCart(limits, store, forwardedFor, realIp, body, hash, draw, None, now);
    assert out.store == CreateStep(store, b.email.value, CodeFor(draw), out.reply.cartHash, now);
    FreshCodeVerifies(store, b.email.value, draw, out.reply.cartHash, now, later, b.email.value);
  }
}
