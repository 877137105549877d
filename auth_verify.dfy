/**
 * GET /api/auth/verify (app/api/auth/verify/route.ts): a magic link is
 * accepted once. Its nonce goes on the token blacklist for thirty minutes,
 * twice the link's lifetime, and a day-long session cookie is set.
 *
 * `VerifyLink` is the check chain over the blacklist's state; `VerifyLinkHandler`
 * runs it against the shared `TokenBlacklist` object. Token checking and
 * signing are parameters (see `AdminTokens`); redirect targets are given by
 * their path, which is resolved against the request's own URL.
 */
module MagicLinkVerify {
  import opened Wrappers
  import opened JsStrings
  import opened AdminTokens
  import opened TokenBlacklisting

  const MissingTokenPath: string := "/admin/login?error=missing_token"
  const InvalidTokenPath: string := "/admin/login?error=invalid_token"
  const UsedTokenPath: string := "/admin/login?error=token_already_used"
  const AdminPath: string := "/admin"
  /** `tokenBlacklist.add(nonce, 30)` */
  const NonceBlacklistMinutes: nat := 30
  const SessionCookieName: string := "admin_session"

  datatype Cookie = Cookie(
    name: string, value: string, httpOnly: bool, secure: bool,
    sameSite: string, maxAgeSeconds: nat, path: string)

  datatype Redirect = Redirect(path: string, cookie: Option<Cookie>)

  datatype LinkOutcome = LinkOutcome(redirect: Redirect, blacklist: Blacklist)

  /** The session claims for the address in a magic link. */
  function SessionClaims(email: Option<string>): Claims {
    Claims(email, None, Some(SessionType), SessionLifetimeSeconds)
  }

  /** The session cookie: HTTP-only, `secure` in production, same-site lax, a day long, for every path. */
  function SessionCookie(sessionToken: string, production: bool): Cookie {
    Cookie(SessionCookieName, sessionToken, true, production, "lax", 60 * 60 * 24, "/")
  }

  function VerifyLink(bl: Blacklist, token: Option<string>, check: TokenChecker, sign: Signer, production: bool, now: nat)
    : LinkOutcome
  {
    if !Truthy(token) then LinkOutcome(Redirect(MissingTokenPath, None), bl)
    else
      var payload := check(token.value, now);
      if payload.None? || payload.value.tokenType != Some(MagicLinkType) then
        LinkOutcome(Redirect(InvalidTokenPath, None), bl)
      else if !Truthy(payload.value.nonce) then
        LinkOutcome(Redirect(UsedTokenPath, None), bl)
      else
        var nonce := payload.value.nonce.value;
        var q := QueryStep(bl, nonce, now);
        if q.blacklisted then LinkOutcome(Redirect(UsedTokenPath, None), q.blacklist)
        else
          var after := AddStep(q.blacklist, nonce, Some(NonceBlacklistMinutes), now);
          var session := sign(SessionClaims(payload.value.email));
          LinkOutcome(Redirect(AdminPath, Some(SessionCookie(session, production))), after)
  }

  /** The handler, run against the shared blacklist. */
  method VerifyLinkHandler(
    tokens: TokenBlacklist, token: Option<string>, check: TokenChecker, sign: Signer, production: bool, now: nat)
    returns (redirect: Redirect)
    modifies tokens
    ensures LinkOutcome(redirect, tokens.blacklist) == VerifyLink(old(tokens.blacklist), token, check, sign, production, now)
  {
    if !Truthy(token) {
      return Redirect(MissingTokenPath, None);
    }
    var payload := check(token.value, now);
    if payload.None? || payload.value.tokenType != Some(MagicLinkType) {
      return Redirect(InvalidTokenPath, None);
    }
    if !Truthy(payload.value.nonce) {
      return Redirect(UsedTokenPath, None);
    }
    var nonce := payload.value.nonce.value;
    var used := tokens.IsBlacklisted(nonce, now);
    if used {
      return Redirect(UsedTokenPath, None);
    }
    tokens.Add(nonce, Some(NonceBlacklistMinutes), now);
    var session := sign(SessionClaims(payload.value.email));
    redirect := Redirect(AdminPath, Some(SessionCookie(session, production)));
  }

  // ------------------------------------------------------------------ properties

  /** A request without a token is sent back to the login page and leaves the blacklist alone. */
  lemma MissingTokenLeavesBlacklist(bl: Blacklist, token: Option<string>, check: TokenChecker, sign: Signer, production: bool, now: nat)
    requires !Truthy(token)
    ensures VerifyLink(bl, token, check, sign, production, now) == LinkOutcome(Redirect(MissingTokenPath, None), bl)
  {
  }

  /** A token that checks out but is not a magic link, a session token among them, is refused as invalid. */
  lemma SessionTokenIsNotALink(bl: Blacklist, token: string, check: TokenChecker, sign: Signer, production: bool, now: nat)
    requires token != ""
    requires check(token, now).Some? && check(token, now).value.tokenType != Some(MagicLinkType)
    ensures VerifyLink(bl, Some(token), check, sign, production, now) == LinkOutcome(Redirect(InvalidTokenPath, None), bl)
  {
  }

  /** A session is issued exactly for a checked magic link whose nonce is present and not on the
      blacklist. The nonce is then blacklisted for thirty minutes from now, the session token carries the
      link's address with a day-long lifetime, and the cookie is HTTP-only, same-site lax, a day long,
      for every path, and secure exactly in production. */
  lemma SessionOnlyForFreshLink(bl: Blacklist, token: Option<string>, check: TokenChecker, sign: Signer, production: bool, now: nat)
    ensures var out := VerifyLink(bl, token, check, sign, production, now);
      && (out.redirect.cookie.Some? <==>
            && Truthy(token)
            && check(token.value, now).Some?
            && check(token.value, now).value.tokenType == Some(MagicLinkType)
            && Truthy(check(token.value, now).value.nonce)
            && !QueryStep(bl, check(token.value, now).value.nonce.value, now).blacklisted)
      && (out.redirect.cookie.Some? ==>
            var c := check(token.value, now).value;
            var nonce := c.nonce.value;
            && out.redirect.path == AdminPath
            && nonce in out.blacklist
            && out.blacklist[nonce].expiresAt == now + NonceBlacklistMinutes * MsPerMinute
            && out.redirect.cookie.value == SessionCookie(sign(Claims(c.email, None, Some(SessionType), 86400)), production)
            && out.redirect.cookie.value.httpOnly
            && out.redirect.cookie.value.maxAgeSeconds == 86400
            && out.redirect.cookie.value.path == "/")
      && (out.redirect.cookie.None? ==> out.redirect.path != AdminPath)
  {
  }

  /** A used link stays used. Say a link issued at `issued` was accepted at `first`, and its token checks out
      no later than fifteen minutes after issue. Then, whatever queries, clean-ups and other additions the
      blacklist sees in between, any later use is refused without a session, and with `token_already_used`
      whenever the token itself still checks out. */
  lemma LinkIsSingleUse(
    bl: Blacklist, token: string, check: TokenChecker, sign: Signer, production: bool,
    issued: nat, first: nat, ops: seq<Op>, later: nat)
    requires issued <= first <= later
    requires VerifyLink(bl, Some(token), check, sign, production, first).redirect.cookie.Some?
    requires check(token, later).Some? ==>
               check(token, later) == check(token, first) && later <= issued + MagicLinkLifetimeSeconds * 1000
    requires forall i :: 0 <= i < |ops| ==> ops[i].now <= later
    requires forall i :: 0 <= i < |ops| && ops[i].AddOp? ==> ops[i].tokenId != check(token, first).value.nonce.value
    ensures var bl2 := Run(VerifyLink(bl, Some(token), check, sign, production, first).blacklist, ops);
      var out := VerifyLink(bl2, Some(token), check, sign, production, later);
      && out.redirect.cookie.None?
      && (check(token, later).Some? ==> out.redirect.path == UsedTokenPath)
  {
    var nonce := AcceptedLinkNonce(bl, token, check, sign, production, first);
    var bl2 := Run(AddStep(QueryStep(bl, nonce, first).blacklist, nonce, Some(NonceBlacklistMinutes), first), ops);
    if check(token, later).Some? {
      assert later <= first + NonceBlacklistMinutes * MsPerMinute;
      UsedTokenRefusedLater(QueryStep(bl, nonce, first).blacklist, nonce, Some(NonceBlacklistMinutes), first, ops, later);
      ListedNonceRefused(bl2, token, check, sign, production, later, nonce);
    }
  }

  /** A link that earned a session carried a magic-link token with a nonce, which went on the blacklist. */
  lemma AcceptedLinkNonce(bl: Blacklist, token: string, check: TokenChecker, sign: Signer, production: bool, now: nat)
    returns (nonce: string)
    requires VerifyLink(bl, Some(token), check, sign, production, now).redirect.cookie.Some?
    ensures token != "" && check(token, now).Some? && check(token, now).value.tokenType == Some(MagicLinkType)
    ensures check(token, now).value.nonce == Some(nonce) && nonce != ""
    ensures VerifyLink(bl, Some(token), check, sign, production, now).blacklist
      == AddStep(QueryStep(bl, nonce, now).blacklist, nonce, Some(NonceBlacklistMinutes), now)
  {
    nonce := check(token, now).value.nonce.value;
  }

  /** A magic-link token whose nonce is on the blacklist is refused as already used, without a session. */
  lemma ListedNonceRefused(
    bl: Blacklist, token: string, check: TokenChecker, sign: Signer, production: bool, now: nat, nonce: string)
    requires token != "" && check(token, now).Some? && check(token, now).value.tokenType == Some(MagicLinkType)
    requires check(token, now).value.nonce == Some(nonce) && nonce != ""
    requires QueryStep(bl, nonce, now).blacklisted
    ensures VerifyLink(bl, Some(token), check, sign, production, now).redirect == Redirect(UsedTokenPath, None)
  {
  }
}
