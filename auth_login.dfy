/**
 * The claims carried by the admin tokens, shared by the login and the link
 * check. Signing (`SignJWT` with the key of lib/jwt-secret.ts, HS256, the
 * issued-at time) is a parameter of type `Signer`; checking a token
 * (`jwtVerify`) is a parameter that answers the claims or `None` when the
 * signature or the expiry does not check out.
 */
module AdminTokens {
  import opened Wrappers

  datatype Claims = Claims(email: Option<string>, nonce: Option<string>, tokenType: Option<string>, lifetimeSeconds: nat)

  /** Signs a set of claims into a token. */
  type Signer = Claims -> string

  /** `jwtVerify(token, secret)` at time `now` (milliseconds). */
  type TokenChecker = (string, nat) -> Option<Claims>

  const MagicLinkType: string := "magic_link"
  const SessionType: string := "session"
  /** `setExpirationTime('15m')` */
  const MagicLinkLifetimeSeconds: nat := 15 * 60
  /** `setExpirationTime('24h')` */
  const SessionLifetimeSeconds: nat := 24 * 60 * 60
}

/**
 * POST /api/auth/login (app/api/auth/login/route.ts): an address on the
 * `ADMIN_EMAILS` list is mailed a single-use link valid for fifteen minutes.
 * The list comes from the environment once, at start-up; the sixteen random
 * bytes of the nonce and the mail provider's answer are parameters.
 */
module AdminLogin {
  import opened Wrappers
  import opened JsStrings
  import opened JwtSecret
  import opened MailFailure
  import opened AdminTokens

  /** `randomBytes(16)` */
  const NonceBytes: nat := 16
  const VerifyPath: string := "/api/auth/verify?token="
  const DefaultFailureText: string := "Failed to send magic link"

  /** `ADMIN_EMAILS?.split(',').map(e => e.trim()) || []`: a set variable, even an empty one, gives
      at least one entry. */
  function AuthorizedEmails(adminEmails: Option<string>): (list: seq<string>)
    ensures adminEmails.None? ==> list == []
    ensures adminEmails.Some? ==> |list| == |Split(adminEmails.value, ',')| >= 1
    ensures adminEmails.Some? ==> forall i :: 0 <= i < |list| ==> list[i] == Trim(Split(adminEmails.value, ',')[i])
  {
    if adminEmails.None? then [] else SplitTrim(adminEmails.value, ',')
  }

  /** Writing the addresses separated by commas, with any spacing around them, lists exactly the
      trimmed addresses, in order. */
  lemma AuthorizedEmailsOfList(addresses: seq<string>)
    requires |addresses| >= 1
    requires forall a | a in addresses :: ',' !in a
    ensures var list := AuthorizedEmails(Some(Join(addresses, ',')));
      |list| == |addresses| && forall i :: 0 <= i < |list| ==> list[i] == Trim(addresses[i])
  {
    SplitTrimJoin(addresses, ',');
  }

  datatype LoginRequest = LoginRequest(email: Option<string>)

  /** The mail handed to the provider. */
  datatype LoginMail = LoginMail(to: string, subject: string, link: string)

  datatype LoginReply = LinkSent | LoginError(status: nat, error: string)

  /** The reply, the mail, and the claims that were signed into the link's token. */
  datatype LoginOutcome = LoginOutcome(reply: LoginReply, mail: Option<LoginMail>, signed: Option<Claims>)

  /** `${baseUrl}/api/auth/verify?token=${token}`, with the base URL defaulting to the empty string. */
  function MagicLink(baseUrl: Option<string>, token: string): string {
    Or(baseUrl, "") + VerifyPath + token
  }

  /** The claims of a fresh magic link. */
  function LinkClaims(email: string, nonce: string): Claims {
    Claims(Some(email), Some(nonce), Some(MagicLinkType), MagicLinkLifetimeSeconds)
  }

  function Login(
    adminEmails: Option<string>, baseUrl: Option<string>, body: Option<LoginRequest>,
    random: seq<Byte>, sign: Signer, mailFailure: Option<SendFailure>)
    : LoginOutcome
    requires |random| == NonceBytes
  {
    if body.None? then
      LoginOutcome(LoginError(500, DefaultFailureText), None, None)
    else if !Truthy(body.value.email) then
      LoginOutcome(LoginError(400, "Email is required"), None, None)
    else if body.value.email.value !in AuthorizedEmails(adminEmails) then
      LoginOutcome(LoginError(403, "Unauthorized email"), None, None)
    else
      var email := body.value.email.value;
      var claims := LinkClaims(email, Hex(random));
      var mail := LoginMail(email, "Admin Login - Magic Link", MagicLink(baseUrl, sign(claims)));
      if mailFailure.Some? then
        LoginOutcome(LoginError(500, FailureText(mailFailure.value, DefaultFailureText)), Some(mail), Some(claims))
      else
        LoginOutcome(LinkSent, Some(mail), Some(claims))
  }

  /** An address not on the list, compared exactly and case-sensitively, gets 403, and nothing is signed
      or sent. */
  lemma UnlistedAddressRefused(
    adminEmails: Option<string>, baseUrl: Option<string>, email: string,
    random: seq<Byte>, sign: Signer, mailFailure: Option<SendFailure>)
    requires |random| == NonceBytes
    requires email != "" && email !in AuthorizedEmails(adminEmails)
    ensures Login(adminEmails, baseUrl, Some(LoginRequest(Some(email))), random, sign, mailFailure)
            == LoginOutcome(LoginError(403, "Unauthorized email"), None, None)
  {
  }

  /** With `ADMIN_EMAILS` unset nobody can log in. */
  lemma NoListNoLogin(baseUrl: Option<string>, body: Option<LoginRequest>, random: seq<Byte>, sign: Signer, mailFailure: Option<SendFailure>)
    requires |random| == NonceBytes
    ensures Login(None, baseUrl, body, random, sign, mailFailure).signed.None?
  {
  }

  /** A link is signed exactly for a listed, non-empty address. Its token carries that address, a nonce
      of 32 hexadecimal digits that reads back as the random bytes, the type `magic_link` and a
      fifteen-minute lifetime; the link is the base URL, the verify path and that token, and it is
      mailed to the address. */
  lemma LinkOnlyForListedAddress(
    adminEmails: Option<string>, baseUrl: Option<string>, body: Option<LoginRequest>,
    random: seq<Byte>, sign: Signer, mailFailure: Option<SendFailure>)
    requires |random| == NonceBytes
    ensures var out := Login(adminEmails, baseUrl, body, random, sign, mailFailure);
      && (out.signed.Some? <==>
            body.Some? && Truthy(body.value.email) && body.value.email.value in AuthorizedEmails(adminEmails))
      && (out.signed.Some? ==>
            var c := out.signed.value;
            && c.email == body.value.email
            && c.tokenType == Some(MagicLinkType)
            && c.lifetimeSeconds == MagicLinkLifetimeSeconds
            && c.nonce.Some? && |c.nonce.value| == 2 * NonceBytes
            && (forall i :: 0 <= i < |c.nonce.value| ==> IsHexDigit(c.nonce.value[i]))
            && Unhex(c.nonce.value) == random
            && out.mail == Some(LoginMail(body.value.email.value, "Admin Login - Magic Link", MagicLink(baseUrl, sign(c)))))
      && (out.reply == LinkSent <==> out.signed.Some? && mailFailure.None?)
  {
    UnhexHex(random);
  }

  /** The token can be read back out of the link: it is everything after the verify path. */
  lemma TokenFollowsVerifyPath(baseUrl: Option<string>, token: string)
    ensures var link := MagicLink(baseUrl, token);
      && EndsWith(link, token)
      && link[..|link| - |token|] == Or(baseUrl, "") + VerifyPath
  {
    var link := MagicLink(baseUrl, token);
    assert link == (Or(baseUrl, "") + VerifyPath) + token;
  }
}
