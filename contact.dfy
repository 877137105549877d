/**
 * POST /api/contact (app/api/contact/route.ts): the contact form is checked
 * and forwarded to the first administrator address, with the sender as
 * Reply-To. The mail service's answer is a parameter: `None` when the send
 * succeeds, otherwise the thrown value's message when it is an `Error`.
 */
module ContactRoute {
  import opened Wrappers
  import opened JsStrings
  import opened EmailShape
  import AdminLogin

  datatype ContactRequest = ContactRequest(name: Option<string>, email: Option<string>, subject: Option<string>, message: Option<string>)

  /** What `await request.json()` and the destructuring give: the fields, or the message of the `Error`
      thrown when the body is not JSON, or is `null`. */
  datatype ContactBody = BodyParsed(request: ContactRequest) | BodyUnreadable(message: string)

  /** A failed send: `message` is present when the thrown value is an `Error`. */
  datatype SendError = SendError(message: Option<string>)

  /** The mail handed to the mail service. */
  datatype ContactMail = ContactMail(to: string, replyTo: string, subject: string, name: string, message: string)

  datatype ContactReply = MessageSent | ContactError(status: nat, error: string)

  datatype ContactOutcome = ContactOutcome(reply: ContactReply, mail: Option<ContactMail>)

  const DefaultFailureText: string := "Failed to send message"

  /** `process.env.ADMIN_EMAILS?.split(',')[0].trim()`: the first comma-separated entry, trimmed. */
  function AdminAddress(adminEmails: Option<string>): (a: Option<string>)
    ensures adminEmails.None? <==> a.None?
    ensures adminEmails.Some? ==> a.value == Trim(adminEmails.value[..FirstIndex(adminEmails.value, ',')])
  {
    if adminEmails.None? then None else Some(Trim(FirstSegment(adminEmails.value, ',')))
  }

  /** The contact form writes to the first address of the login list. */
  lemma AdminAddressHeadsLoginList(adminEmails: Option<string>)
    requires adminEmails.Some?
    ensures AdminAddress(adminEmails).value == AdminLogin.AuthorizedEmails(adminEmails)[0]
  {
  }

  /** `!name || !email || !subject || !message` */
  predicate MissingFields(b: ContactRequest) {
    !Truthy(b.name) || !Truthy(b.email) || !Truthy(b.subject) || !Truthy(b.message)
  }

  function Contact(adminEmails: Option<string>, body: ContactBody, sendError: Option<SendError>): ContactOutcome {
    if body.BodyUnreadable? then
      ContactOutcome(ContactError(500, body.message), None)
    else if MissingFields(body.request) then
      ContactOutcome(ContactError(400, "All fields are required"), None)
    else if !IsValidEmail(body.request.email.value) then
      ContactOutcome(ContactError(400, "Invalid email address"), None)
    else if !Truthy(AdminAddress(adminEmails)) then
      ContactOutcome(ContactError(500, "Contact form not configured properly"), None)
    else
      var b := body.request;
      var mail := ContactMail(AdminAddress(adminEmails).value, b.email.value, "Contact Form: " + b.subject.value,
                              b.name.value, b.message.value);
      if sendError.Some? then
        ContactOutcome(ContactError(500, sendError.value.message.GetOr(DefaultFailureText)), Some(mail))
      else
        ContactOutcome(MessageSent, Some(mail))
  }

  /** The form is forwarded exactly when every field is filled, the sender's address has the e-mail shape
      and an administrator address is configured; the mail then goes to that administrator, with the
      sender as Reply-To and the subject prefixed. */
  lemma ForwardedOnlyWhenValid(adminEmails: Option<string>, body: ContactBody, sendError: Option<SendError>)
    ensures var out := Contact(adminEmails, body, sendError);
      && (out.mail.Some? <==>
            body.BodyParsed? && !MissingFields(body.request) && MatchesEmailPattern(body.request.email.value)
            && Truthy(AdminAddress(adminEmails)))
      && (out.mail.Some? ==>
            && out.mail.value.to == AdminAddress(adminEmails).value
            && out.mail.value.to != ""
            && out.mail.value.replyTo == body.request.email.value
            && out.mail.value.subject == "Contact Form: " + body.request.subject.value)
      && (out.reply == MessageSent <==> out.mail.Some? && sendError.None?)
  {
    if body.BodyParsed? && !MissingFields(body.request) {
      EmailCheckIsPattern(body.request.email.value);
    }
  }

  /** An unset list, or one whose first entry is blank, answers 500 and sends nothing, even for a
      well-formed message. */
  lemma UnconfiguredSendsNothing(adminEmails: Option<string>, body: ContactRequest, sendError: Option<SendError>)
    requires !MissingFields(body) && IsValidEmail(body.email.value)
    requires adminEmails.None? || forall i :: 0 <= i < FirstIndex(adminEmails.value, ',') ==> IsSpace(adminEmails.value[i])
    ensures Contact(adminEmails, BodyParsed(body), sendError) == ContactOutcome(ContactError(500, "Contact form not configured properly"), None)
  {
    if adminEmails.Some? {
      TrimAllSpace(FirstSegment(adminEmails.value, ','));
    }
  }

  /** A body that cannot be read answers 500 with the thrown error's own message, and nothing is sent. */
  lemma UnreadableBodyReportsParser(adminEmails: Option<string>, message: string, sendError: Option<SendError>)
    ensures Contact(adminEmails, BodyUnreadable(message), sendError) == ContactOutcome(ContactError(500, message), None)
  {
  }
}
