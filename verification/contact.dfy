/** The `POST /contact` handler (api/index.js:44-107): presence check on the
    raw fields, email check on the raw address, sanitizing, composing the
    mail, one dispatch attempt, and the redirect that reports the outcome. */
module Contact {
  import opened Options
  import opened Text
  import opened EmailCheck
  import opened Sanitizer
  import opened Compose
  import opened Home

  const MissingFieldsMessage := "אנא מלאו את כל השדות הנדרשים"
  const InvalidEmailMessage := "אנא הזינו כתובת אימייל תקינה"
  const SendFailedMessage := "שגיאה בשליחת המייל. אנא נסו שוב מאוחר יותר."

  /** The four body fields; `None` is a field the body does not have. */
  datatype Form = Form(fullName: Option<string>, email: Option<string>, phone: Option<string>, message: Option<string>)

  /** How the mail dispatcher's promise settled. */
  datatype Dispatch = Delivered | Failed(reason: string)

  datatype Response = MissingFields | InvalidEmail | Sent | SendFailed

  /** The mail handed to the dispatcher, if any, and the response. */
  datatype Outcome = Outcome(mail: Option<Mail>, response: Response)

  /** JavaScript truthiness of an absent-or-string value. */
  predicate Truthy(v: Option<string>) {
    v.Some? && v.value != []
  }

  function AsInput(v: Option<string>): Input {
    if v.Some? then Str(v.value) else NotString
  }

  predicate HasRequired(f: Form) {
    Truthy(f.fullName) && Truthy(f.email) && Truthy(f.message)
  }

  /** Validation passes: the required fields are present and the raw address
      has the shape the regular expression demands. */
  predicate Accepted(f: Form) {
    HasRequired(f) && IsValidEmail(f.email.value)
  }

  /** `sanitizedData`: no field keeps an angle bracket, and a missing phone is
      the empty string. */
  function SanitizeForm(f: Form): (d: Fields)
    ensures NoAngles(d.fullName) && NoAngles(d.email) && NoAngles(d.phone) && NoAngles(d.message)
    ensures !Truthy(f.phone) ==> d.phone == []
    ensures Truthy(f.phone) ==> d.phone == Sanitize(Str(f.phone.value))
  {
    Fields(Sanitize(AsInput(f.fullName)),
           Sanitize(AsInput(f.email)),
           if Truthy(f.phone) then Sanitize(AsInput(f.phone)) else "",
           Sanitize(AsInput(f.message)))
  }

  /** The handler. `recipient` is the configured `EMAIL_USER`, the two stamps
      are the two `new Date().toLocaleString()` readings, and `dispatch` is
      how `sendEmail` settled. */
  function Submit(f: Form, recipient: string, textStamp: string, htmlStamp: string, dispatch: Dispatch): (o: Outcome)
    ensures o.mail.Some? <==> Accepted(f)
    ensures !HasRequired(f) ==> o.response == MissingFields
    ensures HasRequired(f) && !IsValidEmail(f.email.value) ==> o.response == InvalidEmail
    ensures o.response == Sent <==> Accepted(f) && dispatch.Delivered?
    ensures o.response == SendFailed <==> Accepted(f) && dispatch.Failed?
    ensures o.mail.Some? ==> o.mail.value.to == recipient
  {
    if !HasRequired(f) then Outcome(None, MissingFields)
    else if !IsValidEmail(f.email.value) then Outcome(None, InvalidEmail)
    else
      var mail := ComposeMail(recipient, SanitizeForm(f), textStamp, htmlStamp);
      Outcome(Some(mail), if dispatch.Delivered? then Sent else SendFailed)
  }

  /** The error text a response carries; `None` for success. */
  function ErrorText(r: Response): Option<string> {
    match r
    case MissingFields => Some(MissingFieldsMessage)
    case InvalidEmail => Some(InvalidEmailMessage)
    case Sent => None
    case SendFailed => Some(SendFailedMessage)
  }

  /** The query `GET /` receives after the handler's redirect:
      `/?success=true` or `/?error=<message>`. */
  function Redirect(r: Response): Query {
    if r == Sent then Query(Some("true"), None) else Query(None, ErrorText(r))
  }

  /** A missing required field wins over everything else: the email is not
      even looked at and nothing is dispatched. */
  lemma MissingFieldsFirst(f: Form, recipient: string, textStamp: string, htmlStamp: string, dispatch: Dispatch)
    requires f.fullName.None? || f.email.None? || f.message.None?
             || f.fullName == Some("") || f.email == Some("") || f.message == Some("")
    ensures Submit(f, recipient, textStamp, htmlStamp, dispatch) == Outcome(None, MissingFields)
  {
  }

  /** A present but malformed raw address is rejected before dispatch. */
  lemma InvalidEmailRejected(f: Form, recipient: string, textStamp: string, htmlStamp: string, dispatch: Dispatch)
    requires HasRequired(f) && !EmailShape(f.email.value)
    ensures Submit(f, recipient, textStamp, htmlStamp, dispatch) == Outcome(None, InvalidEmail)
  {
    IsValidEmailShape(f.email.value);
  }

  /** What is dispatched: the configured address, the subject naming the
      sender, an HTML body that reads back as exactly the sanitized fields
      (the message with its line breaks), and the phone placeholder
      whenever the phone is missing or sanitizes away. */
  lemma DispatchedMail(f: Form, recipient: string, textStamp: string, htmlStamp: string, dispatch: Dispatch)
    requires Accepted(f)
    ensures var o := Submit(f, recipient, textStamp, htmlStamp, dispatch);
            var name := Sanitize(Str(f.fullName.value));
            var email := Sanitize(Str(f.email.value));
            var message := Sanitize(Str(f.message.value));
            var phone := SanitizeForm(f).phone;
            && o.mail.Some?
            && o.mail.value.to == recipient
            && o.mail.value.subject == SubjectPrefix + name
            && ParseHtml(o.mail.value.html) == Some(Slots(name, email, PhoneSlot(phone), message, htmlStamp))
  {
    var d := SanitizeForm(f);
    assert Submit(f, recipient, textStamp, htmlStamp, dispatch).mail
           == Some(ComposeMail(recipient, d, textStamp, htmlStamp));
    ComposedHtmlReadsBack(recipient, d, textStamp, htmlStamp);
  }

  /** When the sanitized name and phone are single lines and the clock
      reading has no line break, the plain-text body reads back as the
      sanitized fields, the message verbatim. The address needs no such
      condition: a valid one has no whitespace. */
  lemma DispatchedText(f: Form, recipient: string, textStamp: string, htmlStamp: string, dispatch: Dispatch)
    requires Accepted(f)
    requires var d := SanitizeForm(f);
             '\n' !in d.fullName && '\n' !in d.phone && '\n' !in textStamp
    ensures var o := Submit(f, recipient, textStamp, htmlStamp, dispatch);
            var d := SanitizeForm(f);
            && o.mail.Some?
            && ParseText(o.mail.value.text) == Some(Slots(d.fullName, d.email, PhoneSlot(d.phone), d.message, textStamp))
  {
    var d := SanitizeForm(f);
    ValidEmailSingleLine(f.email.value);
    assert Submit(f, recipient, textStamp, htmlStamp, dispatch).mail
           == Some(ComposeMail(recipient, d, textStamp, htmlStamp));
    ComposedTextReadsBack(recipient, d, textStamp, htmlStamp);
  }

  /** A valid address sanitizes to a single line. */
  lemma ValidEmailSingleLine(e: string)
    requires IsValidEmail(e)
    ensures '\n' !in Sanitize(Str(e))
  {
    ValidEmailSanitized(e);
    ValidEmailNoBreak(e);
    RemoveAnglesAddsNothing(e, '\n');
  }

  lemma ValidEmailNoBreak(e: string)
    requires IsValidEmail(e)
    ensures '\n' !in e
  {
    IsValidEmailShape(e);
  }

  /** The phone slot shows the placeholder when the phone is absent, empty,
      or sanitizes to nothing, and the sanitized phone otherwise; it is
      never empty. */
  lemma PhoneSlotShown(f: Form)
    ensures var slot := PhoneSlot(SanitizeForm(f).phone);
            && slot != []
            && (!Truthy(f.phone) || Sanitize(Str(f.phone.value)) == [] ==> slot == PhonePlaceholder)
            && (Truthy(f.phone) && Sanitize(Str(f.phone.value)) != [] ==> slot == Sanitize(Str(f.phone.value)))
  {
  }

  /** The dispatcher's error never reaches the response: every rejection
      gives the same outcome. */
  lemma FailureReasonHidden(f: Form, recipient: string, textStamp: string, htmlStamp: string, e1: string, e2: string)
    requires Accepted(f)
    ensures Submit(f, recipient, textStamp, htmlStamp, Failed(e1)) == Submit(f, recipient, textStamp, htmlStamp, Failed(e2))
    ensures Redirect(Submit(f, recipient, textStamp, htmlStamp, Failed(e1)).response) == Query(None, Some(SendFailedMessage))
  {
  }

  /** The page shown after the redirect reports success exactly for a sent
      mail, and otherwise shows the response's own error text. */
  lemma RedirectShown(r: Response, year: int)
    ensures HomeView(Redirect(r), year).success <==> r == Sent
    ensures HomeView(Redirect(r), year).error == ErrorText(r)
  {
  }

  /** The four responses look different on the page. */
  lemma ResponsesDistinguishable(r1: Response, r2: Response, year: int)
    requires HomeView(Redirect(r1), year) == HomeView(Redirect(r2), year)
    ensures r1 == r2
  {
    RedirectShown(r1, year);
    RedirectShown(r2, year);
    assert MissingFieldsMessage != InvalidEmailMessage by {
      assert MissingFieldsMessage[5] != InvalidEmailMessage[5];
    }
    assert MissingFieldsMessage != SendFailedMessage by {
      assert MissingFieldsMessage[0] != SendFailedMessage[0];
    }
    assert InvalidEmailMessage != SendFailedMessage by {
      assert InvalidEmailMessage[0] != SendFailedMessage[0];
    }
  }

  /** A valid raw address has no whitespace, so sanitizing only drops its
      angle brackets; one without brackets is sent unchanged. */
  lemma ValidEmailSanitized(e: string)
    requires IsValidEmail(e)
    ensures Sanitize(Str(e)) == RemoveAngles(e)
    ensures NoAngles(e) ==> Sanitize(Str(e)) == e
  {
    IsValidEmailShape(e);
    TrimTidy(e);
    if NoAngles(e) {
      RemoveAnglesNoop(e);
    }
  }

  /** Validation sees the raw address but the sanitized one is sent: the
      expression admits `<`, and `a@<.com` passes while its sanitized form
      `a@.com` would not. */
  lemma ValidatedAddressMayNotSurvive()
    ensures exists e :: IsValidEmail(e) && !IsValidEmail(Sanitize(Str(e)))
  {
    BracketedAddressAccepted();
    BracketedAddressSanitized();
    BadDomainRejected();
    ValidatedButNotSent("a@<.com", "a@.com");
  }

  lemma ValidatedButNotSent(e: string, sent: string)
    requires IsValidEmail(e) && Sanitize(Str(e)) == sent && !IsValidEmail(sent)
    ensures exists e' :: IsValidEmail(e') && !IsValidEmail(Sanitize(Str(e')))
  {
  }

  lemma BracketedAddressAccepted()
    ensures IsValidEmail("a@<.com")
  {
    var e := "a@<.com";
    assert e[..1] == "a" && e[2..3] == "<" && e[4..] == "com";
    assert SplitsAt(e, 1, 3);
    RegexShape(e);
    IsValidEmailShape(e);
  }

  lemma BracketedAddressSanitized()
    ensures Sanitize(Str("a@<.com")) == "a@.com"
  {
    BracketedAddressAccepted();
    ValidEmailSanitized("a@<.com");
    BracketRemoved();
  }

  lemma BracketRemoved()
    ensures RemoveAngles("a@<.com") == "a@.com"
  {
    assert "a@<.com" == "a@" + "<" + ".com";
    RemoveAnglesSpliced("a@", ".com");
  }

  lemma BadDomainRejected()
    ensures !IsValidEmail("a@.com")
  {
    var e := "a@.com";
    IsValidEmailShape(e);
    assert IndexOf(e, '@') == 1;
    assert Domain(e) == ".com";
    assert !HasInnerDot(".com");
  }

  /** Presence is JavaScript truthiness of the raw value: a name made only
      of whitespace passes, and the mail goes out with no name in its subject. */
  lemma BlankNameAccepted(f: Form, recipient: string, textStamp: string, htmlStamp: string, dispatch: Dispatch)
    requires Accepted(f) && AllWs(f.fullName.value)
    ensures var o := Submit(f, recipient, textStamp, htmlStamp, dispatch);
            o.mail.Some? && o.mail.value.subject == SubjectPrefix
  {
    TrimAllWs(f.fullName.value);
    var d := SanitizeForm(f);
    assert d.fullName == [];
    assert Submit(f, recipient, textStamp, htmlStamp, dispatch).mail == Some(ComposeMail(recipient, d, textStamp, htmlStamp));
    assert SubjectPrefix + [] == SubjectPrefix;
  }

  /** The form of the previous lemma exists: three spaces for a name. */
  lemma BlankNameExample()
    ensures var f := Form(Some("   "), Some("a@b.com"), None, Some("hi"));
            Accepted(f) && AllWs(f.fullName.value)
  {
    AcceptsPlainAddress();
  }
}
