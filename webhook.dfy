/**
 * POST /api/checkout/webhook (app/api/checkout/webhook/route.ts): Stripe's
 * payment events. A verified `payment_intent.succeeded` event gets one
 * purchase mail with a seven-day download link per bought item; every other
 * verified event is only acknowledged.
 *
 * Signature checking (`constructEvent`), presigning and the mail provider are
 * parameters: the event is `None` when the signature does not check out, the
 * presigner answers `None` when it fails, and `mailFails` says whether the
 * send throws. The handler keeps no state between deliveries.
 */
module WebhookRoute {
  import opened Wrappers
  import opened JsStrings
  import opened CheckoutItems
  import opened Money
  import Cart

  const SucceededType: string := "payment_intent.succeeded"
  const FailedType: string := "payment_intent.payment_failed"
  /** `7 * 24 * 3600`: download links live a week. */
  const LinkLifetimeSeconds: nat := 7 * 24 * 3600
  const MailSubject: string := "Your Maths Notes - Download Links"

  /** The fields of the payment intent the handler reads; `amount` is in cents. `items` is the parsed
      `metadata.items`, or `None` when it is missing or not a JSON array; an item's NaN price stands
      for the `null` written in its place. */
  datatype PaymentIntent = PaymentIntent(id: string, amount: nat, email: Option<string>, items: Option<seq<MetaItem>>)

  datatype Event = Event(eventType: string, intent: PaymentIntent)

  /** `getPresignedDownloadUrl(key, expiresIn)`, or `None` when it throws. */
  type Presigner = (string, nat) -> Option<string>

  /** One item block of the purchase mail. */
  datatype ItemBlock = ItemBlock(title: string, price: string, downloadUrl: string)

  datatype PurchaseMail = PurchaseMail(to: Option<string>, subject: string, blocks: seq<ItemBlock>, total: string, intentId: string)

  datatype WebhookReply = Received | WebhookError(status: nat, error: string)

  datatype WebhookOutcome = WebhookOutcome(reply: WebhookReply, mail: Option<PurchaseMail>)

  // ------------------------------------------------------------------ the handler

  /** The links for each item's key, in item order; `None` when any presign fails (`Promise.all`). */
  function DownloadUrls(items: seq<MetaItem>, presign: Presigner): (r: Option<seq<string>>)
    ensures r.Some? <==> forall i :: 0 <= i < |items| ==> presign(items[i].key, LinkLifetimeSeconds).Some?
    ensures r.Some? ==> |r.value| == |items|
    ensures r.Some? ==> forall i :: 0 <= i < |items| ==> r.value[i] == presign(items[i].key, LinkLifetimeSeconds).value
  {
    if items == [] then Some([])
    else
      var first := presign(items[0].key, LinkLifetimeSeconds);
      var rest := DownloadUrls(items[1..], presign);
      if first.None? || rest.None? then None
      else
        Some([first.value] + rest.value)
  }

  /** Every item's price is a number. `JSON.stringify` writes a NaN price as `null`, and `toFixed` on
      that `null` throws while the mail is being built. */
  predicate AllPriced(items: seq<MetaItem>) {
    forall i :: 0 <= i < |items| ==> items[i].price.Val?
  }

  /** The item list of `generatePurchaseEmailHTML`: one block per item, in order. */
  function ItemBlocks(items: seq<MetaItem>, urls: seq<string>): (blocks: seq<ItemBlock>)
    requires |urls| == |items|
  {
    seq(|items|, i requires 0 <= i < |items| => ItemBlock(items[i].title, PriceText(items[i].price), urls[i]))
  }

  function Webhook(event: Option<Event>, presign: Presigner, mailFails: bool): WebhookOutcome {
    if event.None? then
      WebhookOutcome(WebhookError(400, "Invalid signature"), None)
    else if event.value.eventType == SucceededType then
      var intent := event.value.intent;
      if intent.items.None? then
        WebhookOutcome(WebhookError(500, "Webhook processing failed"), None)
      else
        var urls := DownloadUrls(intent.items.value, presign);
        if urls.None? || !AllPriced(intent.items.value) then
          WebhookOutcome(WebhookError(500, "Webhook processing failed"), None)
        else
          var mail := PurchaseMail(intent.email, MailSubject, ItemBlocks(intent.items.value, urls.value),
                                   CentsText(intent.amount), intent.id);
          if mailFails then WebhookOutcome(WebhookError(500, "Webhook processing failed"), Some(mail))
          else WebhookOutcome(Received, Some(mail))
    else
      WebhookOutcome(Received, None)
  }

  // ------------------------------------------------------------------ properties

  /** An event whose signature does not check out gets 400 and no mail. */
  lemma BadSignatureSendsNothing(presign: Presigner, mailFails: bool)
    ensures Webhook(None, presign, mailFails) == WebhookOutcome(WebhookError(400, "Invalid signature"), None)
  {
  }

  /** A mail is handed to the provider exactly for a verified succeeded event whose items parse, whose
      links could all be made and whose prices are all numbers; it goes to the intent's address, prints the amount in dollars and
      cents, names the intent, and has one block per item in order with its title, price and link. */
  lemma MailOnlyForSucceeded(event: Option<Event>, presign: Presigner, mailFails: bool)
    ensures var out := Webhook(event, presign, mailFails);
      && (out.mail.Some? <==>
            && event.Some? && event.value.eventType == SucceededType
            && event.value.intent.items.Some?
            && AllPriced(event.value.intent.items.value)
            && forall i :: 0 <= i < |event.value.intent.items.value| ==>
                 presign(event.value.intent.items.value[i].key, LinkLifetimeSeconds).Some?)
      && (out.mail.Some? ==>
            var intent := event.value.intent;
            var items := intent.items.value;
            && out.mail.value.to == intent.email
            && out.mail.value.intentId == intent.id
            && ParseCents(out.mail.value.total) == intent.amount
            && |out.mail.value.blocks| == |items|
            && forall i :: 0 <= i < |items| ==>
                 out.mail.value.blocks[i] ==
                   ItemBlock(items[i].title, PriceText(items[i].price), presign(items[i].key, LinkLifetimeSeconds).value))
      && (out.reply == Received <==> event.Some? && (event.value.eventType == SucceededType ==> out.mail.Some? && !mailFails))
  {
    if event.Some? && event.value.eventType == SucceededType {
      CentsTextRoundTrip(event.value.intent.amount);
    }
  }

  /** A failed payment, and any event type other than a success, is acknowledged and mails nothing. */
  lemma OtherEventsOnlyAcknowledged(e: Event, presign: Presigner, mailFails: bool)
    requires e.eventType != SucceededType
    ensures Webhook(Some(e), presign, mailFails) == WebhookOutcome(Received, None)
  {
  }

  /** A succeeded event carrying an item without a numeric price answers 500 and mails nothing, even
      when every link could be made. */
  lemma UnpricedItemSendsNothing(e: Event, presign: Presigner, mailFails: bool)
    requires e.eventType == SucceededType && e.intent.items.Some?
    requires exists i :: 0 <= i < |e.intent.items.value| && e.intent.items.value[i].price.NaN?
    ensures Webhook(Some(e), presign, mailFails) == WebhookOutcome(WebhookError(500, "Webhook processing failed"), None)
  {
  }

  /** One delivery of an event to the endpoint. */
  datatype Delivery = Delivery(event: Option<Event>, mailFails: bool)

  /** The mails handed to the provider over a run of deliveries. */
  function MailsSent(ds: seq<Delivery>, presign: Presigner): nat {
    if ds == [] then 0
    else (if Webhook(ds[0].event, presign, ds[0].mailFails).mail.Some? then 1 else 0) + MailsSent(ds[1..], presign)
  }

  /** Nothing marks an event as handled: each redelivery of a succeeded event mails again. */
  lemma {:induction false} EveryRedeliveryMails(ds: seq<Delivery>, e: Event, presign: Presigner)
    requires e.eventType == SucceededType && e.intent.items.Some? && AllPriced(e.intent.items.value)
    requires forall i :: 0 <= i < |e.intent.items.value| ==> presign(e.intent.items.value[i].key, LinkLifetimeSeconds).Some?
    requires forall k :: 0 <= k < |ds| ==> ds[k].event == Some(e)
    ensures MailsSent(ds, presign) == |ds|
  {
    if ds != [] {
      MailOnlyForSucceeded(ds[0].event, presign, ds[0].mailFails);
      forall k | 0 <= k < |ds[1..]| ensures ds[1..][k].event == Some(e) {
        assert ds[1..][k] == ds[k + 1];
      }
      EveryRedeliveryMails(ds[1..], e, presign);
    }
  }
}
