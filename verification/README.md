# Contact-form submission pipeline, in Dafny

A model of the contact form of the "דרך לחיים" landing page (`api/index.js`):
the email syntax check, the input sanitizer, the `POST /contact` handler
(presence check → email check → sanitize → compose the notification mail →
one dispatch attempt → redirect), and the `success`/`error` flags `GET /`
derives from the redirect's query.

Modules, one per component:

- `Text` (text.dfy): JavaScript's whitespace set (shared by `\s` and
  `String.prototype.trim`), `Trim`, first-occurrence search.
- `EmailCheck` (email.dfy): `isValidEmail`. The regular expression's language
  (`RegexMatches`), a left-to-right scan deciding it (`IsValidEmail`, what the
  handler calls), and a direct shape description (`EmailShape`), proved to be
  one and the same language.
- `Sanitizer` (sanitizer.dfy): `sanitizeInput` on `NotString | Str(s)`.
- `Compose` (compose.dfy): subject, plain-text body and HTML body. Each body
  has a parser as partner. Rendering then parsing gives the slots back: for
  the HTML body whenever no slot holds a `<`, and for the plain-text body only
  when the name, email, phone and time stamp are single lines. The code lets a
  name with an inner line break through, since `trim` keeps inner line breaks,
  and the plain-text body then no longer tells where the name ends.
- `Home` (home.dfy): the `GET /` view model.
- `Contact` (contact.dfy): the `POST /contact` handler as a total function of
  the four raw fields, the configured recipient, the two clock readings and
  how the dispatch settled.
- `Options` (options.dfy): the optional-value type.

The code is modelled as written, including where it differs from what one
might expect of it:

- Presence is JavaScript truthiness of the raw value, so a name of spaces
  passes and is then sanitized to the empty string (`Contact.BlankNameAccepted`).
  It is not "non-empty after trimming".
- The email check sees the raw address, but the sanitized address is what gets
  sent. `a@<.com` passes the check, yet it is sent as `a@.com`, which would not
  (`Contact.ValidatedAddressMayNotSurvive`).
- `sanitizeInput` is not idempotent, because it trims before it removes
  brackets: `"< a"` becomes `" a"`, which becomes `"a"`
  (`Sanitizer.SanitizeNotIdempotent`). Sanitizing twice gives the same result
  exactly when the first result has no whitespace at either end
  (`Sanitizer.SanitizeTwiceIff`).
- `sanitizeInput("  <b>hi</b>  ")` is `"bhi/b"`: both angle brackets go,
  including `>` (`Sanitizer.SanitizeExamples`).
- The text body and the HTML body each read the clock separately
  (`new Date()` twice). So the model takes two independent time stamps and
  never claims they are equal.

## Model

| member | source | states |
|---|---|---|
| `EmailCheck.IsValidEmail` | api/index.js:22-25 | `isValidEmail` as a left-to-right scan; which strings it accepts is stated by `IsValidEmailShape` and `RegexShape` below |
| `EmailCheck.IsValidEmailShape` | api/index.js:22-25 | the check accepts exactly the strings with no whitespace, exactly one `@`, a non-empty part before it, and a domain holding a `.` that is neither its first nor its last code point |
| `EmailCheck.RegexShape` | api/index.js:23 | the language of `^[^\s@]+@[^\s@]+\.[^\s@]+$` is exactly that shape, in both directions |
| `EmailCheck.ScanClassifies` | api/index.js:22-24 | after any prefix, the scan's state is the one the prefix's contents determine (whitespace seen, number of `@`, local part, dots in the domain) |
| `EmailCheck.RejectsNotAnEmail` | api/index.js:22-24 | `not-an-email` is rejected |
| `EmailCheck.AcceptsPlainAddress` | api/index.js:22-24 | `a@b.com` is accepted |
| `Text.IsWs` | api/index.js:23 | the code points `\s` (and `trim()` on line 30) treat as whitespace: ECMAScript WhiteSpace and LineTerminator; `Trim`'s contract and `EmailShape` are stated with it |
| `Text.Trim` | api/index.js:30 | `trim()` leaves the input minus a leading and a trailing whitespace run, with no whitespace at either end |
| `Text.TrimPadded` | api/index.js:30 | trimming a tidy text padded with whitespace gives back exactly that text (nothing, when the text is empty) |
| `Sanitizer.RemoveAngles` | api/index.js:30 | after `replace(/[<>]/g, "")` no `<` or `>` remains |
| `Sanitizer.RemoveAnglesSpec` | api/index.js:30 | the result is an order-preserving subsequence of the input that keeps every other code point as often as the input has it |
| `Sanitizer.RemoveAnglesUnique` | api/index.js:30 | those three properties determine the result: any string with them is the bracket-free input |
| `Sanitizer.Sanitize` | api/index.js:28-31 | a non-string gives `""`; a string gives its trimmed form with every `<` and `>` removed and all else kept in order |
| `Sanitizer.SanitizeTwiceIff` | api/index.js:30 | sanitizing twice equals sanitizing once iff the first result has no whitespace at either end |
| `Sanitizer.SanitizeStable` | api/index.js:30 | sanitizing is stable on inputs whose trimmed form has no bracket at either end |
| `Sanitizer.SanitizeNotIdempotent` | api/index.js:30 | sanitizing is not idempotent: some input sanitizes differently the second time (witness `"< a"`, which gives `" a"` and then `"a"`) |
| `Sanitizer.SanitizeExamples` | api/index.js:28-31 | `"  <b>hi</b>  "` sanitizes to `"bhi/b"`, and a non-string to `""` |
| `Compose.PhoneSlot` | api/index.js:78 | the phone slot is never empty: it is the phone whenever there is one, and the placeholder `לא סופק` when the phone is empty |
| `Compose.BreakLines` | api/index.js:92 | after the `\n` → `<br>` rewrite no line break remains, and each one has grown by three code points |
| `Compose.RestoreBreakLines` | api/index.js:92 | on a message without `<`, turning every `<br>` back into a line break restores the message |
| `Compose.RenderText` | api/index.js:73-85 | the plain-text body template, byte for byte; `TextReadsBack` states what it shows |
| `Compose.RenderHtml` | api/index.js:86-95 | the HTML body template, byte for byte, with the message's line breaks rewritten; `HtmlReadsBack` states what it shows |
| `Compose.ComposeMail` | api/index.js:70-96 | the mail handed to `sendEmail`; `Contact.DispatchedMail` states its recipient and subject, `ComposedHtmlReadsBack` and `ComposedTextReadsBack` its bodies |
| `Compose.HtmlReadsBack` | api/index.js:86-95 | for slots free of `<`, the HTML body parses back into exactly its slots: name, email, phone, message (line breaks restored), time stamp |
| `Compose.TextReadsBack` | api/index.js:73-85 | with single-line name, email, phone and time stamp, the text body parses back into exactly its slots, the message verbatim even across lines |
| `Compose.ComposedHtmlReadsBack` | api/index.js:86-95 | for fields free of `<`, the composed mail's HTML body shows the name, the email, the phone slot, the message and the HTML time stamp |
| `Compose.ComposedTextReadsBack` | api/index.js:73-85 | when the name, email, phone and text time stamp are single lines, the composed mail's text body shows the name, the email, the phone slot, the message and the text time stamp |
| `Home.HomeView` | api/index.js:34-41 | `success` holds iff the query's `success` is exactly `true`; `error` is the query's non-empty `error`, otherwise null |
| `Home.SuccessFlagExact` | api/index.js:38 | `True`, `1` and a missing flag do not count as success |
| `Contact.Truthy` | api/index.js:49 | JavaScript truthiness of an absent-or-string field: present and non-empty; `MissingFieldsFirst` and `BlankNameAccepted` state what it rejects and admits |
| `Contact.HasRequired` | api/index.js:49 | name, email and message all truthy; `Submit` and `MissingFieldsFirst` state the response without them |
| `Contact.Accepted` | api/index.js:49-59 | the form passes both checks; `Submit` states that a mail is dispatched exactly then |
| `Contact.SanitizeForm` | api/index.js:62-67 | no sanitized field keeps a bracket; a missing or empty phone becomes `""`, and a present one becomes the sanitized phone |
| `Contact.Submit` | api/index.js:44-107 | a mail is dispatched iff the required fields are present and the raw address passes the check; missing fields and a bad address each get their own response, and either way no mail is sent; the response is success iff the dispatch was delivered; the mail goes to the configured recipient |
| `Contact.MissingFieldsFirst` | api/index.js:49-53 | an absent or empty name, email or message yields the missing-fields redirect with no dispatch, whatever the address looks like |
| `Contact.InvalidEmailRejected` | api/index.js:55-59 | with the required fields present, an address not of the email shape yields the invalid-email redirect with no dispatch |
| `Contact.DispatchedMail` | api/index.js:62-96 | the dispatched mail goes to the configured recipient, its subject is the fixed prefix plus the sanitized name, and its HTML body reads back as the sanitized fields with the phone slot and the HTML time stamp |
| `Contact.DispatchedText` | api/index.js:73-85 | when the sanitized name and phone and the clock reading have no line break, the text body reads back as the sanitized fields, the message verbatim |
| `Contact.PhoneSlotShown` | api/index.js:65 | the phone slot is the placeholder when the phone is absent, empty or sanitizes to nothing, and the sanitized phone otherwise; it is never empty |
| `Contact.FailureReasonHidden` | api/index.js:100-105 | every dispatch failure gives the same outcome, whatever the error, and the redirect carries only the fixed failure text |
| `Contact.ErrorText` | api/index.js:49-105 | the fixed message each rejection redirects with, none for success; `RedirectShown` and `ResponsesDistinguishable` state what the page shows |
| `Contact.Redirect` | api/index.js:99-105 | the query the redirect leads to: `success=true` when sent, otherwise the response's message; `RedirectShown` ties it to the page |
| `Contact.RedirectShown` | api/index.js:99-105 | the page after the redirect shows success iff the mail was sent, and otherwise shows the response's error text |
| `Contact.ResponsesDistinguishable` | api/index.js:49-105 | the four responses produce four different views of the page |
| `Contact.ValidEmailSanitized` | api/index.js:55-64 | sanitizing an address that passed the check only removes its brackets; one without brackets is sent unchanged |
| `Contact.ValidatedAddressMayNotSurvive` | api/index.js:55-64 | some raw address passes the check while its sanitized form, the one that is sent, would fail it (witness `a@<.com`, sent as `a@.com`) |
| `Contact.BlankNameAccepted` | api/index.js:49-72 | an accepted form whose name is whitespace only dispatches a mail whose subject is the bare prefix |
| `Contact.BlankNameExample` | api/index.js:49 | a name of three spaces with a valid address and a message is such a form |

## Left out

- Express setup, middleware, static files, Pug rendering and the 404/500 handlers (api/index.js:1-19, 109-120): framework plumbing.
- Loading `config.env` and reading `process.env.EMAIL_USER`: the recipient is a parameter. An unset variable, which would give `to: undefined`, is not modelled.
- `sendEmail` (`../sendEmail`) is not part of this model. Its settlement is an input, `Delivered | Failed(reason)`, and the mail it is given is part of the outcome. Exceptions it might throw synchronously are treated like a rejection, as the handler's `catch` does.
- `new Date().toLocaleString()` and `getFullYear()`: clock and locale dependent. Both are parameters, and the two readings are independent.
- `encodeURIComponent` and the URL decoding on the way back into `req.query`: a redirect is modelled as the decoded query it produces. This assumes decoding inverts encoding, which holds for the three fixed messages.
- `console.log` / `console.error`: dropped.
- A request with no parsed body: `Form` cannot express it. Where the body parser leaves `req.body` undefined, the destructuring on line 46 throws, and the `catch` on lines 100-105 answers with the send-failure redirect without dispatching anything. Where the body is an empty object, the handler gives the missing-fields response, which the model covers.
- Body and query values other than strings (arrays or objects from extended urlencoded parsing, JSON numbers and booleans): form fields are absent-or-string. Only the sanitizer's own `NotString` case is modelled.
- Strings are sequences of Unicode code points, not UTF-16 code units. The regular expression has no `u` flag and works on code units. Every class here matches single units and no surrogate is whitespace or `@`, so the accepted set is the same. Lone surrogates cannot be represented.
- Contact.PhoneSlotShown: states the placeholder case as an implication, not an if-and-only-if, because a phone that sanitizes to the placeholder text itself also shows the placeholder.
- Compose.ComposedTextReadsBack: the composed text body is read back only for a single-line name, email, phone and text time stamp. Inner line breaks survive `trim`, and with them the text body no longer shows where a field ends.
- Contact.DispatchedText: the plain-text body is read back only for a single-line name and phone (a valid address is always one line). The code does not stop a name containing a line break (trim keeps inner line breaks), and then the text body is ambiguous.
