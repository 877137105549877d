# Tutoring shop: checkout, admin login and file storage, in Dafny

This project models the logic of a tutoring website's shop. The shop sells study notes as PDF, PowerPoint, Word and Excel files. The model covers:

- **Cart.** The client-side cart (app/context/CartContext.tsx). Adding a note appends it with quantity one, or raises its quantity when it is already in the cart. A note can be removed and the cart cleared, and the cart keeps a count and a total.
- **Checkout by e-mailed code.**
  - `send-otp` rate-limits the request, checks the fields and the e-mail shape, and stores a six-digit code. The code is bound to a hash of the cart and is then mailed.
  - `verify-otp` rate-limits the request and checks the code. A code is good for ten minutes, three attempts and one success. Then a Stripe payment intent is requested.
  - The Stripe `webhook` mails a seven-day download link for each bought file.
- **The stores behind these steps.** Each lives in the server process: the one-time-code store (lib/otp-store.ts), the fixed-window rate limiter (lib/rate-limiter.ts) and the magic-link nonce blacklist (lib/token-blacklist.ts).
- **Admin sign-in by magic link.**
  - `auth/login` mails a fifteen-minute signed link to a listed administrator address.
  - `auth/verify` accepts each link once and sets a day-long session cookie.
  - Both sign with the process-wide key of lib/jwt-secret.ts.
- **The contact form.** It is forwarded to the first administrator address.
- **File storage on Cloudflare R2** (app/lib/r2.ts):
  - the supported types
  - the upload key `files/<time>-<name>`
  - the listing
- **The admin upload route and its panel** (app/components/admin/PDFUpload.tsx).
- **The watermarked two-page PDF preview.**
- **The catalog pages** that turn the storage listing into note cards (FullCatalog and NotesGrid).

## How the model is built

Amounts of money are whole numbers of cents.

Where the source keeps state across calls, the model is a class whose fields hold that state (maps for the three stores) and whose methods change them. These are the code store, the limiter, the blacklist, the cached signing key, the catalog page and the upload panel. Each method is proved against a pure function of the old state. The lemmas then follow that function through sequences of calls.

Each route handler is a pure decision chain over the stores' states (for example `SendOtpRoute.SendOtp`). Beside it sits a method that runs the chain against the store objects (for example `SendOtpRoute.SendOtpHandler`).

Everything the code gets from outside comes in as a parameter:

- the clock (`now`, in milliseconds)
- random draws
- hashing
- token signing and checking
- the mail providers' answers
- Stripe's answers and event decoding
- presigned URLs
- bucket reads and listings
- pdf-lib's page counts
- `encodeURIComponent`

Four facts about the checkout code shape the model:

- `verify-otp` charges the total the client posts, converted to cents; nothing on the server recomputes it (`VerifyOtpRoute.ChargesPostedTotal`).
- `send-otp` refuses a cart whose total is zero as a missing field (`SendOtpRoute.ZeroTotalRefused`).
- The webhook keeps no record of what it has mailed, so every redelivery of a succeeded event mails again (`WebhookRoute.EveryRedeliveryMails`).
- The payment intent's item metadata is one JSON string, not split into chunks.

## Model

| member | source | states |
|---|---|---|
| OtpStore.CodeFor | lib/otp-store.ts:34 | the drawn code in [100000, 999999) prints as exactly six decimal digits that read back as the draw |
| OtpStore.VerifyStep | lib/otp-store.ts:54-104 | a code verifies exactly when the entry exists, is unexpired, unused, bound to the same cart, has fewer than three attempts and matches; a compared code costs one attempt and is marked used on a match; every other outcome leaves the store alone or drops the entry |
| OtpStore.CartHashIn | lib/otp-store.ts:146-149 | a cart hash comes back exactly for a verified entry, and it is the hash the entry was bound to |
| OtpStore.Unexpired | lib/otp-store.ts:127-134 | the entries kept are exactly those whose expiry has not passed, unchanged |
| OtpStore.CreateStep | lib/otp-store.ts:32-48 | the store gains the lower-cased address, bound to a fresh entry for the code and cart hash; every other entry is kept as it was |
| OtpStore.DeleteStep | lib/otp-store.ts:120-122 | exactly the lower-cased address is gone; the remaining entries are unchanged |
| OtpStore.OTPStore.constructor | lib/otp-store.ts:17-26 | a new store is empty |
| OtpStore.OTPStore.Create | lib/otp-store.ts:32-48 | returns the six-digit code of the draw and stores a fresh, unverified, zero-attempt entry expiring ten minutes later under the lower-cased address, replacing any earlier one |
| OtpStore.OTPStore.Verify | lib/otp-store.ts:54-104 | the result and the new store are those of the verify specification, check by check |
| OtpStore.OTPStore.IsVerified | lib/otp-store.ts:110-115 | true exactly for a verified entry up to and including its expiry instant |
| OtpStore.OTPStore.Delete | lib/otp-store.ts:120-122 | removes the lower-cased address and nothing else |
| OtpStore.OTPStore.Cleanup | lib/otp-store.ts:127-134 | the loop leaves exactly the unexpired entries |
| OtpStore.OTPStore.GetCartHash | lib/otp-store.ts:146-149 | returns the bound cart hash for a verified entry, null otherwise |
| OtpStore.VerifyCheckOrder | lib/otp-store.ts:59-98 | the checks run in the source's order (missing, expired and deleted, used, cart changed, too many attempts and deleted, wrong code) and the first failing one decides |
| OtpStore.FreshCodeVerifies | lib/otp-store.ts:32-48 | a code just created verifies with itself for the same cart, typed in any case, until its expiry, and afterwards reports verified with that cart hash |
| OtpStore.UsedCodeStaysUsed | lib/otp-store.ts:71-74 | a verified, unexpired code is refused as already used and the store is unchanged |
| OtpStore.ApplyKeepsAttempts | lib/otp-store.ts:93-94 | an operation that issues no new code for an address raises its attempt count by exactly the comparison it makes and never unmarks a used code |
| OtpStore.AtMostThreeComparisons | lib/otp-store.ts:84-94 | over any sequence of store operations without a new code for the address, at most three minus the attempts already made reach the comparison |
| OtpStore.NewCodeComparedAtMostThrice | lib/otp-store.ts:84-99 | a newly issued code is compared with submitted codes at most three times, whatever happens in between |
| OtpStore.AtMostOneSuccess | lib/otp-store.ts:71-103 | over any sequence of operations without a new code for the address, at most one verify call succeeds, and none for a code already used |
| OtpStore.FourthAttemptRefused | lib/otp-store.ts:85-91 | with three attempts used, even the right code is refused and the entry is deleted |
| OtpStore.WrongCodeCostsOneAttempt | lib/otp-store.ts:93-98 | a wrong code that reaches the comparison is refused, costs exactly one attempt, and changes no other entry |
| RateLimiting.CeilSeconds | lib/rate-limiter.ts:48 | `Math.ceil(ms / 1000)`: the least whole number of seconds covering the wait |
| RateLimiting.CheckStep | lib/rate-limiter.ts:29-58 | a call is refused exactly when an unexpired entry has reached the limit, and then nothing changes; an allowed call opens a window of count one when there was none or it had passed, otherwise adds one; other identifiers are untouched |
| RateLimiting.Unexpired | lib/rate-limiter.ts:70-77 | the entries kept are exactly those whose window has not passed, unchanged |
| RateLimiting.RateLimiter.constructor | lib/rate-limiter.ts:11-20 | a new limiter is empty |
| RateLimiting.RateLimiter.Check | lib/rate-limiter.ts:29-58 | the decision and the new entries are those of the check specification |
| RateLimiting.RateLimiter.Reset | lib/rate-limiter.ts:63-65 | removes the identifier and nothing else |
| RateLimiting.RateLimiter.Cleanup | lib/rate-limiter.ts:70-77 | the loop leaves exactly the entries whose window is still open |
| RateLimiting.OpenWindowBudget | lib/rate-limiter.ts:46-57 | while a window stays open, the calls allowed number at most the limit minus those already counted |
| RateLimiting.AtMostMaxPerWindow | lib/rate-limiter.ts:29-58 | in any run of calls that starts a window and stays inside it, at most `maxRequests` are allowed |
| RateLimiting.CountStaysWithinLimit | lib/rate-limiter.ts:46-57 | the stored count never rises above the limit |
| RateLimiting.RetryAfterWithinWindow | lib/rate-limiter.ts:46-52 | the wait reported to a refused call is never longer than the window, rounded up to a second |
| RateLimiting.ClientIp | lib/rate-limiter.ts:99-101 | the first forwarded address, trimmed, if non-empty; else the real-IP header if non-empty; else "unknown"; never empty |
| RateLimiting.Identifier | lib/rate-limiter.ts:94-104 | defines the key `<endpoint>:<client address>` under which a request is counted; `IdentifierInjective` states that it separates endpoints and clients |
| RateLimiting.IdentifierInjective | lib/rate-limiter.ts:94-104 | distinct endpoint types or addresses give distinct identifiers, so the three endpoint families are limited separately |
| TokenBlacklisting.QueryStep | lib/token-blacklist.ts:20-31 | a token is blacklisted exactly when its entry exists and has not expired; an expired entry is dropped and nothing else changes |
| TokenBlacklisting.Unexpired | lib/token-blacklist.ts:41-48 | the entries kept are exactly those not yet expired, unchanged |
| TokenBlacklisting.AddStep | lib/token-blacklist.ts:33-39 | the token is listed as used now, expiring after the given minutes or 30; every other entry is kept |
| TokenBlacklisting.TokenBlacklist.constructor | lib/token-blacklist.ts:9-18 | a new blacklist is empty |
| TokenBlacklisting.TokenBlacklist.IsBlacklisted | lib/token-blacklist.ts:20-31 | the answer and the new entries are those of the query specification |
| TokenBlacklisting.TokenBlacklist.Add | lib/token-blacklist.ts:33-39 | stores the token used now, expiring after the given minutes (30 by default) |
| TokenBlacklisting.TokenBlacklist.Cleanup | lib/token-blacklist.ts:41-48 | the loop leaves exactly the unexpired entries |
| TokenBlacklisting.UnknownTokenNotBlacklisted | lib/token-blacklist.ts:21-22 | a token never added is not blacklisted and the blacklist is unchanged |
| TokenBlacklisting.AddedTokenBlacklisted | lib/token-blacklist.ts:33-39 | a token just added is blacklisted until its expiry instant and not after |
| TokenBlacklisting.EntrySurvives | lib/token-blacklist.ts:20-48 | an entry survives any queries and clean-ups made before its expiry, and adds of other tokens |
| TokenBlacklisting.UsedTokenRefusedLater | lib/token-blacklist.ts:20-39 | once added, a token stays blacklisted through any later operations until its expiry |
| JwtSecret.HexDigit | lib/jwt-secret.ts:14 | each nibble becomes a lower-case hexadecimal digit |
| JwtSecret.HexValue | lib/jwt-secret.ts:14 | reading a digit back gives the nibble it was written from |
| JwtSecret.Hex | lib/jwt-secret.ts:14 | `toString('hex')` writes two hexadecimal digits per byte |
| JwtSecret.UnhexHex | lib/jwt-secret.ts:14 | the hexadecimal text reads back as exactly the random bytes |
| JwtSecret.Utf8Char | lib/jwt-secret.ts:18 | UTF-8 of one character: one unchanged byte for ASCII, otherwise a lead byte and continuation bytes |
| JwtSecret.Utf8 | lib/jwt-secret.ts:18 | the encoding is at least as long as the text |
| JwtSecret.Utf8OfAscii | lib/jwt-secret.ts:18 | ASCII text encodes one unchanged byte per character |
| JwtSecret.SecretText | lib/jwt-secret.ts:10-22 | the configured value is used unless it is missing, empty or the placeholder; otherwise 64 hexadecimal digits encoding the random bytes; the key is never empty or the placeholder |
| JwtSecret.GeneratedKeyLength | lib/jwt-secret.ts:14-18 | a generated key is 64 bytes |
| JwtSecret.SecretCache.constructor | lib/jwt-secret.ts:3 | nothing is cached at start |
| JwtSecret.SecretCache.GetJWTSecret | lib/jwt-secret.ts:5-24 | a cached key is returned unchanged; otherwise the chosen key is encoded, cached and returned |
| Cart.Bump | app/context/CartContext.tsx:40-44 | every item carrying the id gets one more copy; the others are unchanged, in place |
| Cart.AddToCart | app/context/CartContext.tsx:36-48 | afterwards the note is in the cart: one more copy of a note already there, otherwise the note appended with quantity one |
| Cart.RemoveFromCart | app/context/CartContext.tsx:50-52 | keeps exactly the items not carrying the id, never lengthening the cart |
| Cart.ClearCart | app/context/CartContext.tsx:54-56 | defines the empty cart; `ClearEmpties` states what the pages then see |
| Cart.CartTotal | app/context/CartContext.tsx:58-60 | defines `getCartTotal` as the fold of price times quantity from zero; `TotalNaNExactly`, `BumpTotal` and `AddPaysOnce` state its behaviour |
| Cart.CartCount | app/context/CartContext.tsx:62-64 | defines `getCartCount` as the sum of quantities; `BumpCount`, `AddCountsOne` and `RemoveCount` state its behaviour |
| Cart.IsInCart | app/context/CartContext.tsx:66-68 | defines `isInCart` as some item carrying the id; `RemoveLeavesOut` and `AddButtonFollowsCart` use it |
| Cart.BumpPrefix | app/context/CartContext.tsx:40-44 | bumping works item by item, so it commutes with taking a prefix |
| Cart.BumpCount | app/context/CartContext.tsx:40-44 | bumping raises the count by the number of items carrying the id |
| Cart.BumpTotal | app/context/CartContext.tsx:40-44 | bumping raises the total by the prices of the items carrying the id |
| Cart.ItemsWithUnique | app/context/CartContext.tsx:38 | in a cart with distinct ids an id is carried by one item if present, none otherwise |
| Cart.AddKeepsIdsUnique | app/context/CartContext.tsx:36-48 | adding keeps the ids distinct |
| Cart.AddCountsOne | app/context/CartContext.tsx:36-48 | adding raises the count by exactly one |
| Cart.AddPaysOnce | app/context/CartContext.tsx:36-48 | adding raises the total by the note's stored price once, or its own price when new |
| Cart.RemoveUndoesAdd | app/context/CartContext.tsx:36-52 | removing a note just added to a cart that lacked it gives back the cart |
| Cart.RemoveAll | app/context/CartContext.tsx:50-52 | removing an id no item carries changes nothing |
| Cart.RemoveCount | app/context/CartContext.tsx:50-52 | removing lowers the count by exactly the copies of that note |
| Cart.RemoveLeavesOut | app/context/CartContext.tsx:50-52 | after removal the note is not in the cart |
| Cart.RemoveKeepsOrder | app/context/CartContext.tsx:50-52 | removal keeps the other items in their order |
| Cart.RemoveKeepsIdsUnique | app/context/CartContext.tsx:50-52 | removing keeps the ids distinct |
| Cart.IdsStayUnique | app/context/CartContext.tsx:34-56 | no sequence of add, remove and clear ever puts one note in two items |
| Cart.ClearEmpties | app/context/CartContext.tsx:54-68 | a cleared cart has count zero, total zero and holds no note |
| Cart.TotalNaNExactly | app/context/CartContext.tsx:58-60 | the total is NaN exactly when some note's price is NaN |
| EmailShape.IsValidEmail | app/api/checkout/send-otp/route.ts:35-36 | defines the scan that stands for the regular expression test; the next four rows state that it accepts exactly the pattern |
| EmailShape.EmailCheckSound | app/api/checkout/send-otp/route.ts:35-36 | every address the scan accepts matches `^[^\s@]+@[^\s@]+\.[^\s@]+$` |
| EmailShape.EmailCheckComplete | app/api/checkout/send-otp/route.ts:35-36 | every string matching the pattern passes the scan |
| EmailShape.EmailCheckIsPattern | app/api/checkout/send-otp/route.ts:35-36 | the scan accepts exactly the language of the pattern |
| EmailShape.ValidEmailHasOneAt | app/api/checkout/send-otp/route.ts:35-36 | an accepted address has no white space and exactly one `@`, after some text |
| MailFailure.JoinWith | app/api/checkout/send-otp/route.ts:122-124 | joining one message gives that message |
| MailFailure.FailureText | app/api/checkout/send-otp/route.ts:116-128 | the provider's messages joined with ", " when the failure carries a list, the handler's fixed text otherwise |
| MailFailure.JoinedKeepsEachMessage | app/api/checkout/send-otp/route.ts:122-124 | each provider message appears in the reply text, starting exactly after the messages before it, each of them followed by one separator |
| CheckoutItems.MetaItems | app/api/checkout/verify-otp/route.ts:55-62 | one metadata record per posted item, in order, keeping id, title and price, with the item's key when non-empty and its id otherwise |
| SendOtpRoute.SendOtp | app/api/checkout/send-otp/route.ts:9-130 | defines the route's chain in the source's order: rate limit, body, fields (a zero total counted as missing), e-mail shape, code creation for the items' hash, then the mail; the rows below state its promises |
| SendOtpRoute.SendOtpHandler | app/api/checkout/send-otp/route.ts:9-130 | the reply, the mail and the new limiter and code-store states are those of the route's decision chain |
| SendOtpRoute.RateLimitedCreatesNothing | app/api/checkout/send-otp/route.ts:12-22 | a request over three per ten minutes gets 429 and changes nothing, creating no code and sending no mail |
| SendOtpRoute.RejectedRequestCounted | app/api/checkout/send-otp/route.ts:26-41 | a 400 comes only from missing fields or a malformed address, creates no code and sends no mail, yet the request is counted |
| SendOtpRoute.ZeroTotalRefused | app/api/checkout/send-otp/route.ts:27 | a cart total of zero is refused as a missing field |
| SendOtpRoute.SuccessIsCodeForCart | app/api/checkout/send-otp/route.ts:24-112 | success exactly when allowed, complete, well-shaped and mailed; the reply carries the items' hash, one fresh code is stored for the lower-cased address bound to that hash, nothing else changes, and the mailed code is the stored one |
| SendOtpRoute.MailFailureKeepsCode | app/api/checkout/send-otp/route.ts:50-128 | a failed send answers 500 with the provider's text, yet the created code stays stored |
| SendOtpRoute.SentCodeVerifies | app/api/checkout/send-otp/route.ts:44-111 | the mailed code verifies, within ten minutes, against the cart hash the reply carried |
| VerifyOtpRoute.VerifyOtp | app/api/checkout/verify-otp/route.ts:15-93 | defines the route's chain in the source's order: Stripe key, rate limit, fields, code verification, then the intent request; the rows below state its promises |
| VerifyOtpRoute.VerifyOtpHandler | app/api/checkout/verify-otp/route.ts:15-93 | the reply, the intent request and the new limiter and code-store states are those of the route's decision chain |
| VerifyOtpRoute.NotConfiguredTouchesNothing | app/api/checkout/verify-otp/route.ts:17-23 | without a Stripe key the reply is 500 and neither the limiter nor the code store changes |
| VerifyOtpRoute.RateLimitedLeavesCodes | app/api/checkout/verify-otp/route.ts:25-36 | a request over five per ten minutes gets 429, changes nothing and requests no intent |
| VerifyOtpRoute.MissingFieldsSkipVerify | app/api/checkout/verify-otp/route.ts:40-46 | missing fields, a zero total among them, get 400 before the code is checked |
| VerifyOtpRoute.RejectionReported | app/api/checkout/verify-otp/route.ts:48-53 | a rejected code gets 400 with the store's own message, the store changes as the verification says, and no intent is requested |
| VerifyOtpRoute.IntentOnlyAfterVerification | app/api/checkout/verify-otp/route.ts:38-82 | an intent is requested exactly when configured, allowed, complete and verified; it charges the posted total in USD to the posted address with the posted hash and item records; the reply is ready exactly when Stripe created it, and carries its secret and id |
| VerifyOtpRoute.ChargesPostedTotal | app/api/checkout/verify-otp/route.ts:49-57 | the verdict depends on address, code and hash only, so two requests differing only in items and total are both charged their own posted total |
| VerifyOtpRoute.StripeFailureSpendsCode | app/api/checkout/verify-otp/route.ts:49-91 | when Stripe fails after the code verified, the reply is 500 and the code stays spent: every later verification for the address is refused as used until expiry |
| WebhookRoute.Webhook | app/api/checkout/webhook/route.ts:14-86 | defines the handler: signature check, event type, item list, download links, numeric prices, then the mail; the rows below state its promises |
| WebhookRoute.DownloadUrls | app/api/checkout/webhook/route.ts:40-48 | links exist exactly when every item's key presigns for seven days; they are then those links, one per item in order |
| WebhookRoute.BadSignatureSendsNothing | app/api/checkout/webhook/route.ts:19-29 | an event whose signature fails gets 400 and no mail |
| WebhookRoute.MailOnlyForSucceeded | app/api/checkout/webhook/route.ts:31-78 | a mail is sent exactly for a verified succeeded event whose items parse, all presign and all have numeric prices; it goes to the intent's address, names the intent, prints a total that reads back as the amount in cents, and has one block per item in order with title, price and link; the reply is 200 exactly when the event verified and, for a success, the mail went out |
| WebhookRoute.OtherEventsOnlyAcknowledged | app/api/checkout/webhook/route.ts:67-78 | a failed payment or any other event type is acknowledged and mails nothing |
| WebhookRoute.EveryRedeliveryMails | app/api/checkout/webhook/route.ts:14-78 | nothing marks an event handled: each delivery of a succeeded event whose items are all priced and presign mails again |
| WebhookRoute.UnpricedItemSendsNothing | app/api/checkout/webhook/route.ts:127-138 | a succeeded event with an item whose price is not a number (`null` in the metadata JSON) fails while the mail is built: 500 and no mail |
| Money.CentsText | app/api/checkout/webhook/route.ts:140-143 | `toFixed(2)` of an amount in cents: digits, a point, then two digits |
| Money.CentsTextRoundTrip | app/api/checkout/webhook/route.ts:140-143 | the printed amount reads back as the cents it was written from |
| Money.DigitValue | app/components/FullCatalog.tsx:47 | a character is a decimal digit exactly when its value is below ten, and then it is its decimal value |
| Money.RunLength | app/components/FullCatalog.tsx:47-48 | the longest prefix of digits in the radix: all digits before it, a non-digit right after |
| Money.RunValueDecimal | app/components/FullCatalog.tsx:47 | in radix ten the digit run has its decimal value |
| Money.RunOfDigits | app/components/FullCatalog.tsx:47-48 | a run of digits stops where the digits stop |
| Money.SignSplit | app/components/FullCatalog.tsx:47-48 | at most one leading sign is skipped, and only a minus makes the number negative |
| Money.FractionCents | app/components/FullCatalog.tsx:48 | the fraction digits give fewer than one hundred cents |
| Money.SignedText | app/components/FullCatalog.tsx:47-48 | leading white space and an optional minus are read past, leaving the digits |
| Money.ParseIntOfDecimal | app/components/FullCatalog.tsx:47 | `parseInt` of a decimal integer, after white space, with an optional minus and any non-digit tail, is that integer |
| Money.UnsignedIntOfDecimal | app/components/FullCatalog.tsx:47 | the unsigned digits of a decimal integer read back as it |
| Money.DecimalReadsBack | app/components/FullCatalog.tsx:47 | `parseInt(n.toString())` is n |
| Money.WholePriceReadsBack | app/components/FullCatalog.tsx:48 | `parseFloat(n.toString())` is n whole units |
| Money.ParseIntOfBlank | app/components/FullCatalog.tsx:47 | blank text reads as NaN |
| Money.PriceTextRoundTrip | app/components/NotesGrid.tsx:110 | every price printed with `toFixed(2)` reads back under `parseFloat` as the same price, NaN included |
| Money.PriceText | app/components/NotesGrid.tsx:110 | defines `price.toFixed(2)` on cents: "NaN", or an optional minus sign and the two-decimal text of the magnitude; `PriceTextRoundTrip` states that it reads back |
| Money.ParseInt | app/components/FullCatalog.tsx:47 | defines `parseInt` without a radix: white space, one sign, an optional `0x` prefix, then the longest digit run, NaN without one; `ParseIntOfDecimal` and `ParseIntOfBlank` state its behaviour |
| Money.ParsePrice | app/components/FullCatalog.tsx:48 | defines `parseFloat` in cents: white space, one sign, whole digits and fraction digits of which the first two count, NaN without any digit; `PriceTextRoundTrip` and `WholePriceReadsBack` state its behaviour |
| Money.NaNTextIsNaN | app/components/FullCatalog.tsx:48 | "NaN" reads as NaN |
| Money.AmountTextRoundTrip | app/components/NotesGrid.tsx:110 | every numeric price, negative ones included, reads back from its two-decimal text |
| Money.UnsignedCentsOfText | app/components/FullCatalog.tsx:48 | the unsigned part of a two-decimal text reads back as its cents |
| FullCatalog.TopicsOf | app/components/FullCatalog.tsx:46 | no topics for missing or empty text, otherwise the comma-separated pieces, trimmed |
| FullCatalog.NoteOf | app/components/FullCatalog.tsx:42-58 | defines the note for one record with the source's fallbacks; `NotesFollowListing`, `BareRecordDefaults` and `StoredMetadataReadsBack` state them |
| FullCatalog.Load | app/components/FullCatalog.tsx:23-69 | defines what the first load shows for each answer; `LoadedOnlyOnSuccess` states it |
| FullCatalog.Fetched | app/components/FullCatalog.tsx:23-69 | defines `fetchNotesFromR2` on the page state as written: notes replaced on success, error set otherwise and never cleared |
| FullCatalog.Render | app/components/FullCatalog.tsx:71-127 | defines what the page shows: the spinner while loading, then the error whenever one is set, else the notes |
| FullCatalog.FetchedClearingError | app/components/FullCatalog.tsx:59-61 | defines the evidently intended fetch, which also clears the error on success; `RetryRecoversWhenCleared` states its property |
| FullCatalog.Catalog | app/components/FullCatalog.tsx:31-58 | one note per listed record, in order |
| FullCatalog.NotesFollowListing | app/components/FullCatalog.tsx:42-53 | every note's id and key are its record's storage key, and it starts with no rating and no reviews |
| FullCatalog.LoadedOnlyOnSuccess | app/components/FullCatalog.tsx:23-69 | on the first load, notes are shown exactly when the body reports success with a list; otherwise the body's error or "Failed to load notes", and a thrown fetch shows the marketplace error |
| FullCatalog.CatalogPage.constructor | app/components/FullCatalog.tsx:10-13 | the page starts with no notes, loading, no error and nothing fetched |
| FullCatalog.CatalogPage.Mount | app/components/FullCatalog.tsx:15-21 | the mount effect fetches once: a second run changes nothing |
| FullCatalog.CatalogPage.FetchNotesFromR2 | app/components/FullCatalog.tsx:23-69 | the new page state is `Fetched` of the old one: a good answer replaces the notes, a bad one sets the error, and loading ends |
| FullCatalog.FirstLoadShows | app/components/FullCatalog.tsx:15-84 | after the first fetch the page renders what `Load` gives for the answer |
| FullCatalog.ErrorOutlivesRetry | app/components/FullCatalog.tsx:59-97 | as written, once an error is set every later fetch, a good list included, still renders the error view |
| FullCatalog.FailedThenRetried | app/components/FullCatalog.tsx:59-97 | a thrown first fetch followed by a successful "Try Again" still shows the marketplace error |
| FullCatalog.RetryRecoversWhenCleared | app/components/FullCatalog.tsx:59-97 | with the error cleared on success, the page always renders what the latest answer says |
| FullCatalog.BareRecordDefaults | app/components/FullCatalog.tsx:43-48 | a record without metadata becomes a complete note: the file name without ".pdf", the default description, no topics, zero pages and price |
| FullCatalog.ZeroReadsZero | app/components/FullCatalog.tsx:47-48 | the fallback "0" reads as zero pages and zero price |
| FullCatalog.StemOfPdfName | app/components/FullCatalog.tsx:44 | removing the first ".pdf" from a dotless stem plus ".pdf" gives back the stem |
| FullCatalog.StoredMetadataReadsBack | app/components/FullCatalog.tsx:46-48 | metadata written as a two-decimal price, a decimal page count and comma-joined topics reads back as that price, that count and the trimmed topics |
| FullCatalog.PriceTextNonEmpty | app/components/FullCatalog.tsx:48 | a printed price is never empty, so it is never replaced by the fallback |
| NotesGrid.Grid | app/components/NotesGrid.tsx:35-51 | the empty-state message exactly when there are no notes, otherwise one card per note in order |
| NotesGrid.GetFileTypeInfo | app/components/NotesGrid.tsx:13-30 | defines the badge of a key by its lower-cased extension, the PDF badge for a missing key; `BadgeFollowsExtension` states it |
| NotesGrid.CardOf | app/components/NotesGrid.tsx:51-140 | defines one card's content; `PreviewLinkOnlyForPdf`, `AddButtonFollowsCart` and `CardShowsFirstTopics` state it |
| NotesGrid.BadgeFollowsExtension | app/components/NotesGrid.tsx:13-30 | PowerPoint, Word and Excel badges exactly for their two extensions each, in any case; a PDF badge for a missing key and every other extension |
| NotesGrid.ListedExtension | app/components/NotesGrid.tsx:16 | a listed key's lower-cased extension, after a dot, is one of the seven supported ones |
| NotesGrid.SupportedBadges | app/components/NotesGrid.tsx:17-28 | of the supported extensions only ".pdf" gets the PDF badge |
| NotesGrid.ListedBadgeMatchesPreview | app/components/NotesGrid.tsx:114 | for a listed key the grid's PDF badge and the preview route's PDF check agree |
| NotesGrid.PreviewLinkOnlyForPdf | app/components/NotesGrid.tsx:114-123 | a card links to the preview exactly for a present key with a PDF badge, with the encoded key; for a listed key that request passes every key check of the preview route |
| NotesGrid.AddButtonFollowsCart | app/components/NotesGrid.tsx:124-126 | the add button is disabled exactly while the note is in the cart; pressed while enabled it appends the note once |
| NotesGrid.CardShowsFirstTopics | app/components/NotesGrid.tsx:84-105 | a card shows at most the first three topics, in order, and a page count only when positive |
| JsStrings.TrimStart | app/components/FullCatalog.tsx:47-48 | drops exactly the leading white space |
| JsStrings.TrimStartOfSpaces | app/components/FullCatalog.tsx:47-48 | white space followed by a non-space start trims to that start |
| JsStrings.TrimEnd | lib/rate-limiter.ts:101 | drops exactly the trailing white space |
| JsStrings.Trim | lib/rate-limiter.ts:101 | the result neither starts nor ends with white space, and it is a contiguous piece of the input with only white space before and after it |
| JsStrings.TrimIsInfix | lib/rate-limiter.ts:101 | gives the position of the piece `trim` keeps: everything before it and after it is white space |
| JsStrings.TrimUnchanged | lib/rate-limiter.ts:101 | text that neither starts nor ends with white space is kept whole |
| JsStrings.TrimAllSpace | lib/rate-limiter.ts:101 | all-space text trims to the empty string |
| JsStrings.FirstIndex | lib/rate-limiter.ts:101 | the position of the first occurrence, or the length when there is none |
| JsStrings.Split | app/components/FullCatalog.tsx:46 | `split` on one character gives at least one piece, none holding the separator |
| JsStrings.JoinSplit | app/components/FullCatalog.tsx:46 | joining the pieces of a split gives back the text |
| JsStrings.SplitJoin | app/components/FullCatalog.tsx:46 | splitting a join of separator-free pieces gives back the pieces |
| JsStrings.SplitTrim | app/components/FullCatalog.tsx:46 | one trimmed piece per piece of the split, in order |
| JsStrings.SplitTrimJoin | app/components/FullCatalog.tsx:46 | comma-joined, separator-free topics read back as the topics, trimmed |
| JsStrings.FirstSegment | lib/rate-limiter.ts:101 | `split(sep)[0]` is the text before the first separator |
| JsStrings.LastSegment | app/api/pdfs/preview/route.ts:14 | `split(sep).pop()` is the separator-free tail after the last separator, or the whole text |
| JsStrings.LastSegmentIsLastPiece | app/api/pdfs/preview/route.ts:14 | that tail is the last piece of the split |
| JsStrings.LastSegmentAfter | app/api/pdfs/preview/route.ts:14 | the last segment of a text ending in a separator and a separator-free tail is that tail |
| JsStrings.LastSegmentOfPlain | app/api/pdfs/preview/route.ts:14 | text without the separator is its own last segment |
| JsStrings.LowerChar | lib/otp-store.ts:37 | an upper-case ASCII letter becomes its lower-case letter; every other character is kept (non-ASCII letters: see "Left out") |
| JsStrings.ToLower | lib/otp-store.ts:37 | lower-cases character by character, keeping the length |
| JsStrings.ToLowerIdempotent | lib/otp-store.ts:37 | lower-casing twice is lower-casing once |
| JsStrings.ToLowerKeeps | app/api/pdfs/preview/route.ts:14 | a character that is no letter stays where it is under lower-casing |
| JsStrings.LowerLastSegment | app/api/pdfs/preview/route.ts:14 | when the lower-cased text ends with a separator and a separator-free extension, the lower-cased last segment is that extension |
| JsStrings.Find | app/components/FullCatalog.tsx:44 | `indexOf`: the first position where the pattern occurs, or none |
| JsStrings.ReplaceFirst | app/components/FullCatalog.tsx:44 | `replace` with a string pattern replaces only the first occurrence, and leaves text without one unchanged |
| JsStrings.Decimal | lib/otp-store.ts:34 | `toString` of a whole number is a non-empty run of digits |
| JsStrings.DecimalRoundTrip | lib/otp-store.ts:34 | the digits read back as the number |
| JsStrings.DecimalLength | lib/otp-store.ts:34 | a number with k digits prints as k characters |
| AdminLogin.Login | app/api/auth/login/route.ts:11-85 | defines the route's chain: body, address present, address on the admin list, then the signed link and the mail; the rows below state its promises |
| AdminLogin.AuthorizedEmails | app/api/auth/login/route.ts:9 | no list when the variable is unset; otherwise one trimmed entry per comma-separated piece, at least one |
| AdminLogin.AuthorizedEmailsOfList | app/api/auth/login/route.ts:9 | comma-separated addresses, with any spacing, list exactly the trimmed addresses, in order |
| AdminLogin.UnlistedAddressRefused | app/api/auth/login/route.ts:19-22 | an address not on the list, compared exactly, gets 403 and nothing is signed or mailed |
| AdminLogin.NoListNoLogin | app/api/auth/login/route.ts:9-22 | with the list unset nobody gets a link |
| AdminLogin.LinkOnlyForListedAddress | app/api/auth/login/route.ts:13-66 | a link is signed exactly for a present, listed address; its token carries the address, a 32-digit hexadecimal nonce of the random bytes, the magic-link type and a fifteen-minute lifetime; the link is mailed to the address; success exactly when the mail goes out |
| AdminLogin.TokenFollowsVerifyPath | app/api/auth/login/route.ts:38-39 | the link is the base URL and the verify path followed by the token, so the token can be read back from it |
| MagicLinkVerify.VerifyLink | app/api/auth/verify/route.ts:6-66 | defines the route's check chain: token present, token checks out, magic-link type, nonce present and not blacklisted, then the nonce is listed and the session set; the rows below state its promises |
| MagicLinkVerify.VerifyLinkHandler | app/api/auth/verify/route.ts:6-66 | the redirect and the new blacklist are those of the route's check chain |
| MagicLinkVerify.MissingTokenLeavesBlacklist | app/api/auth/verify/route.ts:11-13 | a request without a token goes back to the login page and changes nothing |
| MagicLinkVerify.SessionTokenIsNotALink | app/api/auth/verify/route.ts:18-23 | a valid token of another type, a session token among them, is refused as invalid |
| MagicLinkVerify.SessionOnlyForFreshLink | app/api/auth/verify/route.ts:15-58 | a session cookie is set exactly for a checked magic link whose nonce is present and not blacklisted; the nonce is then blacklisted for thirty minutes, the session token carries the link's address for a day, and the cookie is HTTP-only, lax, a day long, for every path, secure only in production |
| MagicLinkVerify.LinkIsSingleUse | app/api/auth/verify/route.ts:25-34 | once accepted, a link is never accepted again within its lifetime, whatever the blacklist goes through, and is refused as already used while the token still checks out |
| ContactRoute.Contact | app/api/contact/route.ts:4-86 | defines the route's chain: body, fields, e-mail shape, admin address, then the mail; the rows below state its promises |
| ContactRoute.AdminAddress | app/api/contact/route.ts:25 | no address when the variable is unset; otherwise the text before the first comma, trimmed |
| ContactRoute.AdminAddressHeadsLoginList | app/api/contact/route.ts:25 | the contact form writes to the first address of the admin login list |
| ContactRoute.ForwardedOnlyWhenValid | app/api/contact/route.ts:4-86 | the form is forwarded exactly when all four fields are filled, the sender's address has the e-mail shape and an administrator address is configured; the mail goes to that non-empty address with the sender as Reply-To and the subject prefixed; success exactly when the send succeeds |
| ContactRoute.UnreadableBodyReportsParser | app/api/contact/route.ts:6 | a body that cannot be parsed gets 500 with the parser's own error message, and nothing is sent |
| ContactRoute.UnconfiguredSendsNothing | app/api/contact/route.ts:25-33 | with the list unset or its first entry blank, a valid message gets 500 and nothing is sent |
| PdfUploadRoute.TypeAcceptedAsWritten | app/api/pdfs/upload/route.ts:30 | defines the truthiness of `SUPPORTED_FILE_TYPES[file.type]`: an own key of the table or an inherited property name |
| PdfUploadRoute.TypeAccepted | app/api/pdfs/upload/route.ts:30 | defines the evidently intended check: one of the seven types of the table |
| PdfUploadRoute.AsWrittenAcceptsInheritedKeys | app/api/pdfs/upload/route.ts:29-30 | the plain-object lookup accepts exactly the table's seven types and the inherited property names, so everything the intended check accepts |
| PdfUploadRoute.ConstructorTypePassesAsWritten | app/api/pdfs/upload/route.ts:30 | a file declared with type `constructor` passes the lookup as written though it is none of the seven types |
| PdfUploadRoute.ConstructorFileStoredAsWritten | app/api/pdfs/upload/route.ts:29-82 | with the lookup as written, a configured request carrying a `constructor` file of at most 50 MiB is stored under its timestamped key with that content type, while the intended check refuses it with 400 |
| PdfUploadRoute.Untab | app/api/pdfs/upload/route.ts:64 | every `\r`, `\n` and `\t` becomes a space and every other character stays in place, so the length is kept |
| PdfUploadRoute.Printables | app/api/pdfs/upload/route.ts:65 | only printable ASCII remains, and printable text is kept whole |
| PdfUploadRoute.PrintablesOne | app/api/pdfs/upload/route.ts:65 | one character is kept exactly when it is printable |
| PdfUploadRoute.PrintablesAppend | app/api/pdfs/upload/route.ts:65 | the filter works character by character, so the printable characters are kept in order |
| PdfUploadRoute.TrimKeepsPrintable | app/api/pdfs/upload/route.ts:66 | trimming printable text leaves printable text |
| PdfUploadRoute.Cut | app/api/pdfs/upload/route.ts:68 | the result is a start of the text that fits the limit, and it is the whole text unless it uses the full limit |
| PdfUploadRoute.Sanitize | app/api/pdfs/upload/route.ts:62-68 | the result is printable ASCII, free of line breaks and tabs, does not start with a space, fits the limit, and is the longest such start of the cleaned, trimmed text |
| PdfUploadRoute.CleanValueKept | app/api/pdfs/upload/route.ts:62-68 | a clean, unpadded value within the limit is kept unchanged |
| PdfUploadRoute.SanitizeCanLeaveTrailingSpace | app/api/pdfs/upload/route.ts:66-67 | an instance of the next row: "ab c" cut to three is "ab ", which sanitises again to "ab" |
| PdfUploadRoute.CutAtSpaceShortensAgain | app/api/pdfs/upload/route.ts:62-68 | whenever the cut of the cleaned text ends on a space, the result ends in that space and sanitising it again shortens it |
| PdfUploadRoute.UploadMetadata | app/api/pdfs/upload/route.ts:71-77 | the metadata holds exactly title, description, price, pages and topics |
| PdfUploadRoute.Upload | app/api/pdfs/upload/route.ts:7-82 | defines the route's chain with the intended type check: credentials, form, file, type, size, then storage; the rows below state its promises |
| PdfUploadRoute.UploadAsWritten | app/api/pdfs/upload/route.ts:7-82 | defines the same chain with the type lookup as written; `ConstructorFileStoredAsWritten` states where the two differ |
| PdfUploadRoute.UnconfiguredRefusesFirst | app/api/pdfs/upload/route.ts:9-17 | missing storage credentials answer 500 whatever the request holds |
| PdfUploadRoute.StoredOnlyWhenValid | app/api/pdfs/upload/route.ts:7-82 | a file is stored exactly when configured, the form reads, a file is present, its type is one of the seven, it is at most 50 MiB and storage succeeds; it is stored under its timestamped key with its type and size and the defaulted, sanitised metadata, and the reply reports it |
| PdfUploadRoute.SizeLimitIsInclusive | app/api/pdfs/upload/route.ts:38-45 | exactly 50 MiB is accepted and one byte more is refused with the size message |
| PdfUploadRoute.MetadataDefaults | app/api/pdfs/upload/route.ts:52-55 | a missing or empty title, price and pages become the sanitised file name, "0" and "0" |
| PdfUploadRoute.SanitizedIsHeaderSafe | app/api/pdfs/upload/route.ts:58-68 | a sanitised value is printable ASCII within its limit |
| PdfUploadRoute.MetadataFitsHeaders | app/api/pdfs/upload/route.ts:70-77 | every metadata value is printable ASCII within its field's limit of 200, 500, 20, 10 or 500 characters |
| R2Storage.ExtensionFor | app/lib/r2.ts:5-13 | a MIME type has an extension exactly when the table lists it, and that extension is the one the table pairs with the type, so one of the supported extensions |
| R2Storage.TypeTableMatchesExtensions | app/lib/r2.ts:5-15 | the type table and the extension list have seven entries each, pair up in order, and neither repeats an entry |
| R2Storage.UploadKey | app/lib/r2.ts:64 | the key starts with `files/` and ends with the file name |
| R2Storage.UploadKeyRoundTrip | app/lib/r2.ts:64 | the file name can be read back from the key, whatever it holds, since the timestamp has no `-` |
| R2Storage.UploadFile | app/lib/r2.ts:55-83 | the object and the returned record share the timestamped key, content type and size; the record's `uploadedAt` is the upload time; the stored metadata is the given metadata with `fileType` set to the content type and no other key added |
| R2Storage.NameOf | app/lib/r2.ts:132 | a record's name is the key's last `/`-segment, the whole key when that segment is empty, and "" without a key |
| R2Storage.RecordOf | app/lib/r2.ts:121-152 | a record keeps the key (or "") and its name, the size (or 0) and the modification time (or now); a failed metadata request leaves every metadata field empty; otherwise title, description, price, pages and topics are the returned metadata values, and the file type is the stored `filetype` when present and non-empty, else the content type |
| R2Storage.Supported | app/lib/r2.ts:114-117 | an object survives the filter exactly when its lower-cased key ends with a supported extension, and no more objects survive than were listed |
| R2Storage.SupportedOne | app/lib/r2.ts:114-117 | a single object is kept exactly when its key passes the check |
| R2Storage.SupportedAppend | app/lib/r2.ts:114-117 | filtering a concatenation concatenates the filtered parts, so the survivors keep their listing order and multiplicity |
| R2Storage.ListFiles | app/lib/r2.ts:99-157 | no `Contents` gives no records; otherwise exactly one record per surviving object, in listing order, built from that object's metadata answer |
| R2Storage.ListedKeysSupported | app/lib/r2.ts:114-131 | every listed record's key, lower-cased, ends with a supported extension |
| R2Storage.LowerSuffix | app/lib/r2.ts:115-116 | a lower-cased suffix of the file name stays a suffix of the lower-cased key |
| R2Storage.UploadIsListed | app/lib/r2.ts:114-117 | an upload whose file name carries a supported extension is listed, whatever its timestamp |
| R2Storage.UploadKeyLastSegment | app/lib/r2.ts:64 | for a name without `/`, the last segment of its key is the timestamp, `-` and the name |
| R2Storage.UploadListedName | app/lib/r2.ts:132 | the listed name of such an upload is the timestamped file name |
| PdfPreviewRoute.IsPdfFile | app/api/pdfs/preview/route.ts:11-13 | defines `isPdfFile`: the lower-cased key ends with ".pdf" |
| PdfPreviewRoute.FileExt | app/api/pdfs/preview/route.ts:28 | defines the extension check's input: a dot and the lower-cased text after the key's last dot |
| PdfPreviewRoute.Preview | app/api/pdfs/preview/route.ts:15-165 | defines the route's chain: key present, supported extension, PDF, configured, then the storage read and the preview, served under a header-safe file name (the corrected half of the Findings row); the rows below state its promise |
| PdfPreviewRoute.HeaderSafeName | app/api/pdfs/preview/route.ts:150-155 | the name put in the `Content-Disposition` header has the same length, holds only characters a header value accepts, replaces each refused character with `_`, and is unchanged when already acceptable |
| PdfPreviewRoute.AsWrittenDiffersOnlyOnUnsafeNames | app/api/pdfs/preview/route.ts:150-163 | the route as written answers exactly like the corrected one, reading storage for the same requests, except for a found PDF whose preview name the headers refuse, which it answers with 500 "Failed to generate preview" |
| PdfPreviewRoute.UnsafeNameFailsAsWritten | app/api/pdfs/preview/route.ts:150-163 | for a found PDF on a configured server whose preview name the headers refuse, the route as written answers 500 after reading storage and the corrected route serves the preview under the safe name |
| PdfPreviewRoute.EnDashKeyFailsAsWritten | app/api/pdfs/preview/route.ts:150-163 | the stored PDF `files/1-a–b.pdf` (an en dash) gets 500 from the route as written and a preview named `preview-1-a_b.pdf` from the corrected route |
| PdfPreviewRoute.LastDotSegmentIsProper | app/api/pdfs/preview/route.ts:28 | for a key with a dot, the text after the last dot is strictly shorter than the key |
| PdfPreviewRoute.LastSegmentFollowsLastDot | app/api/pdfs/preview/route.ts:28 | that segment is what follows the key's last dot |
| PdfPreviewRoute.PdfKeyHasPdfExt | app/api/pdfs/preview/route.ts:11-28 | a key that ends in `.pdf`, ignoring case, has the extension `.pdf` |
| PdfPreviewRoute.PdfExtKeyIsPdf | app/api/pdfs/preview/route.ts:11-28 | a dotted key with the extension `.pdf` passes the PDF check |
| PdfPreviewRoute.PdfSegmentEndsKey | app/api/pdfs/preview/route.ts:11-13 | a last segment reading `pdf` in any case makes the lower-cased key end in `.pdf` |
| PdfPreviewRoute.PdfCheckMatchesExtension | app/api/pdfs/preview/route.ts:11-37 | for a dotted key, the PDF check and the extension check agree in both directions |
| PdfPreviewRoute.DotlessPdfKey | app/api/pdfs/preview/route.ts:28-37 | a dotless key that lower-cases to `pdf` (such as `PDF`) has the extension `.pdf` yet fails the PDF check, so it is refused as a non-PDF |
| PdfPreviewRoute.PagesToCopy | app/api/pdfs/preview/route.ts:97 | the preview copies the smaller of two and the document's page count |
| PdfPreviewRoute.PreviewPagesOf | app/api/pdfs/preview/route.ts:97-144 | the preview holds the copied pages, each watermarked, in order, then one information page naming how many of how many pages are shown |
| PdfPreviewRoute.KeyChecksBeforeStorage | app/api/pdfs/preview/route.ts:15-73 | storage is read exactly for a present PDF key with a supported extension on a configured server, and no preview is served without reading it |
| PdfPreviewRoute.NonPdfNamesItsType | app/api/pdfs/preview/route.ts:36-46 | a supported non-PDF key is refused with 400 naming its extension |
| PdfPreviewRoute.PreviewShape | app/api/pdfs/preview/route.ts:75-156 | a served preview comes from a document that was found, holds min(2, pages) watermarked pages then the information page, and is named `preview-` plus the key's last path segment, with each character a header value refuses replaced by `_` |
| PdfPreviewRoute.UploadPreviewName | app/api/pdfs/preview/route.ts:153 | the preview of an uploaded file is named `preview-` plus its timestamped file name |
| PdfUploadForm.TitleStem | app/components/admin/PDFUpload.tsx:55 | the stem is a prefix of the file name |
| PdfUploadForm.AfterFileChange | app/components/admin/PDFUpload.tsx:39-76 | defines what choosing a file does to the panel state: type check, size check, then the file, title stem and page count; `RefusedFileNotChosen` and `AcceptedFileChosen` state it |
| PdfUploadForm.AfterSubmit | app/components/admin/PDFUpload.tsx:78-140 | defines what a submit does for each answer of the upload; `NoFileSendsNothing` and `SubmitResetsOnlyOnSuccess` state it |
| PdfUploadForm.UploadPanel.constructor | app/components/admin/PDFUpload.tsx:30-37 | the panel starts with no file, empty fields, not uploading and no message |
| PdfUploadForm.UploadPanel.HandleFileChange | app/components/admin/PDFUpload.tsx:39-76 | the new panel state is what choosing the file does to the old one, as `AfterFileChange` defines it |
| PdfUploadForm.UploadPanel.HandleSubmit | app/components/admin/PDFUpload.tsx:78-140 | the new panel state, the form sent and whether the list is refreshed are what `AfterSubmit` gives for the old state and the upload's answer |
| PdfUploadForm.PanelChecksMatchRoute | app/components/admin/PDFUpload.tsx:6-14 | the panel accepts exactly the seven types of the upload route's intended check (`TypeAccepted`), and the same 50 MiB limit; the route as written accepts strictly more: every type the panel takes, and also `constructor` |
| PdfUploadForm.RefusedFileNotChosen | app/components/admin/PDFUpload.tsx:42-49 | a file of another type, or over 50 MiB, is not chosen and leaves only an error message, the type check first |
| PdfUploadForm.AcceptedFileChosen | app/components/admin/PDFUpload.tsx:46-74 | an accepted file is chosen and the message cleared; an empty title takes the name's stem and a typed one stays; pages hold the count exactly for a PDF pdf-lib could read |
| PdfUploadForm.StemDropsExtension | app/components/admin/PDFUpload.tsx:55 | a name ending in a dot and an extension without `/` loses exactly that extension |
| PdfUploadForm.StemKeepsTrailingDot | app/components/admin/PDFUpload.tsx:55 | a name ending in a bare dot is kept whole |
| PdfUploadForm.NoFileSendsNothing | app/components/admin/PDFUpload.tsx:81-84 | without a file, a submit sends nothing, refreshes nothing and only sets the error message |
| PdfUploadForm.SubmitResetsOnlyOnSuccess | app/components/admin/PDFUpload.tsx:86-139 | a submit with a file sends it, titled by the name when the title is empty; the panel is reset and the list refreshed exactly on a successful JSON answer, and otherwise every field stays with an error message; it never ends uploading |
| PdfUploadForm.OnlyCheckedFilesHeld | app/components/admin/PDFUpload.tsx:39-76 | the panel never holds a file that failed its type or size check |
| PdfUploadForm.SentFileIsStored | app/components/admin/PDFUpload.tsx:90-101 | every file the panel sends is stored by a configured upload route whose storage call succeeds, under the file's timestamped key with the file's type |

## Left out

- Page layout, styling, HTML e-mail bodies and the React rendering of the pages are not modelled. Only the values the pages compute and the state their handlers change are modelled.
- JSON parsing and printing are not modelled. Request bodies arrive already parsed, or as `None` when the body is not valid JSON (the contact route instead receives the parser's error message, which it replies with). The intent's `items` metadata is modelled as the list of records it encodes, with a NaN price standing for the `null` that `JSON.stringify` writes for it.
- Floating point: prices and totals are whole cents.
- Money.ParsePrice: reads a decimal string and keeps the first two fraction digits as cents. It does not model exponents, `Infinity`, hexadecimal forms or rounding beyond two digits.
- JsStrings.LowerChar, JsStrings.ToLower: lower-case ASCII letters only. Other letters are kept, whereas JavaScript's `toLowerCase` also maps non-ASCII letters.
- Cryptography is a parameter and not modelled: JWT signing and checking, the cart hash (SHA-256), `crypto.randomInt` and `crypto.randomBytes`. The model states what the code does with their answers.
- SendGrid, Mailgun, Stripe and the S3 client are parameters, given by their answers. Delivery, retries and network failures beyond those answers are not modelled.
- The stores' `setInterval` clean-up timers are not modelled. The clean-up step itself is modelled (`Cleanup` on each store class).
- Concurrency is not modelled: requests are handled one at a time. Interleavings between the awaits of the async handlers are not modelled.
- PdfPreviewRoute.PreviewPagesOf: describes the preview by its page list. The watermark's position, size, opacity and rotation are left to pdf-lib, as are the text drawn on the information page.
- FullCatalog.NoteOf: gives each note an empty preview URL. The listing records carry no `url`, so `pdf.url` is undefined in the source.
- AdminLogin.Login: does not model the `details` field the development build adds to a failed login reply.
- ContactRoute.Contact: does not model the `details` field the development build adds to a failed reply.
- R2Storage.UploadFile: `Date.now()` for the key and `new Date()` for `uploadedAt` are taken as one instant, `now`.
- The contact route's logging of a failed mail's type, and all console logging, are not modelled.
- The browser's `required` and `accept` attributes on form inputs are not modelled. They sit outside the handlers.
- The upload panel's reset of the file input element through `document.getElementById` is not modelled. The `onUploadSuccess` callback is modelled as the `refreshed` flag.
- `getPresignedDownloadUrl` is the webhook's `Presigner` parameter, called with the seven-day lifetime the webhook passes. Its own default one-hour lifetime is used only by app/api/pdfs/download/route.ts, which is not part of this model.
- FullCatalog.Load: describes the first load only. Later fetches and the "Try Again" button act on the page state, which `CatalogPage` models.
- `uploadPDF`, `listPDFs`, `deleteFile` and `deletePDF` are not modelled. They are one-line wrappers or single storage calls with no logic of their own. app/api/pdfs/delete/route.ts, the only caller of the delete helpers, is not part of this model.

## Findings

| source | as written | input that shows it | evidently intended | confidence | as-written member | corrected member |
|---|---|---|---|---|---|---|
| app/api/pdfs/upload/route.ts:30 | the type check looks the declared type up in a plain object, so inherited property names count as supported | a configured request with a file of at most 50 MiB whose declared type is `constructor` (or `__proto__`) passes the type check and is stored | only the seven MIME types of the table pass | not executed | PdfUploadRoute.ConstructorFileStoredAsWritten | PdfUploadRoute.StoredOnlyWhenValid |
| app/components/FullCatalog.tsx:59-61 | a successful fetch replaces the notes but never clears an earlier error, and the page shows the error whenever one is set | a first fetch that throws, then "Try Again" answered with a successful list: the page still shows "Failed to load notes from marketplace" | a successful fetch shows the notes | not executed | FullCatalog.FailedThenRetried | FullCatalog.RetryRecoversWhenCleared |
| app/api/pdfs/preview/route.ts:150-155 | the key's last path segment goes unchanged into the `Content-Disposition` header; a header value refuses characters above U+00FF and NUL, CR and LF, so the response constructor throws and the catch answers 500 | a configured request for the stored PDF `files/1-a–b.pdf` (an en dash, as in a title like "Algebra – Year 10"): storage is read and the route answers 500 "Failed to generate preview" | every found PDF is previewed, under a name the header accepts | not executed | PdfPreviewRoute.EnDashKeyFailsAsWritten | PdfPreviewRoute.UnsafeNameFailsAsWritten |
