/** The notification mail the contact handler builds (api/index.js:62-96):
    subject, plain-text body and HTML body from the sanitized fields.

    The bodies are rendered from fixed Hebrew templates. Each rendering has a
    parser as partner: reading a rendered body back yields exactly the slots
    that went in, which is what "the field appears verbatim in its place"
    means. For HTML this needs only that the fields hold no `<`, which
    sanitizing guarantees; for plain text the single-line fields must hold no
    line break. */
module Compose {
  import opened Options
  import opened Text

  const Heading := "פניה חדשה מהאתר דרך לחיים"
  const SubjectPrefix := "פניה חדשה מאתר - הודעה מ"
  /** Shown in place of a missing phone number ("not provided"). */
  const PhonePlaceholder := "לא סופק"
  const LineBreak := "<br>"

  // The plain-text template, cut at its slots.
  const TextIntro := "\n" + Heading + "\n\nשם מלא: "
  const TextEmailLabel := "\nאימייל: "
  const TextPhoneLabel := "\nטלפון: "
  const TextMessageLabel := "\n\nהודעה:\n"
  const TextRule := "\n\n---\n"
  const TextStampLabel := "נשלח בתאריך: "
  const TextOutro := "\n      "

  // The HTML template, cut at its slots.
  const HtmlIntro := "\n        <h2>" + Heading + "</h2>\n        <p><strong>שם מלא:</strong> "
  const HtmlEmailLabel := "</p>\n        <p><strong>אימייל:</strong> "
  const HtmlPhoneLabel := "</p>\n        <p><strong>טלפון:</strong> "
  const HtmlMessageLabel := "</p>\n        <h3>הודעה:</h3>\n        <p>"
  const HtmlStampLabel := "</p>\n        <hr>\n        <p><small>נשלח בתאריך: "
  const HtmlOutro := "</small></p>\n      "

  /** `sanitizedData`: the four fields after sanitizing. */
  datatype Fields = Fields(fullName: string, email: string, phone: string, message: string)

  /** The values a body shows, in template order. */
  datatype Slots = Slots(fullName: string, email: string, phone: string, message: string, sentAt: string)

  datatype Mail = Mail(to: string, subject: string, text: string, html: string)

  /** `sanitizedData.phone || "לא סופק"`: never empty, and the phone itself
      whenever there is one. */
  function PhoneSlot(phone: string): (r: string)
    ensures r != []
    ensures phone != [] ==> r == phone
    ensures phone == [] ==> r == PhonePlaceholder
  {
    if phone != [] then phone else PhonePlaceholder
  }

  /** `replace(/\n/g, "<br>")`: no line break survives, each one grows by
      three code points. */
  function BreakLines(s: string): (r: string)
    ensures '\n' !in r
    ensures |r| == |s| + 3 * multiset(s)['\n']
  {
    if s == [] then []
    else
      assert s == [s[0]] + s[1..];
      if s[0] == '\n' then LineBreak + BreakLines(s[1..])
      else [s[0]] + BreakLines(s[1..])
  }

  /** Turns every `<br>` back into a line break. */
  function RestoreLines(h: string): string
  {
    if h == [] then []
    else if |h| >= 4 && h[..4] == LineBreak then ['\n'] + RestoreLines(h[4..])
    else [h[0]] + RestoreLines(h[1..])
  }

  /** Without a `<` in the message, the `<br>` rewrite loses nothing. */
  lemma {:induction false} RestoreBreakLines(s: string)
    requires '<' !in s
    ensures RestoreLines(BreakLines(s)) == s
  {
    if s != [] {
      var t := s[1..];
      assert '<' !in t by {
        forall k | 0 <= k < |t|
          ensures t[k] != '<'
        {
          assert t[k] == s[k + 1];
        }
      }
      RestoreBreakLines(t);
      if s[0] == '\n' {
        RestoreAfterBreak(BreakLines(t));
      } else {
        RestoreAfterPlain(s[0], BreakLines(t));
      }
      assert s == [s[0]] + t;
    }
  }

  lemma RestoreAfterBreak(h: string)
    ensures RestoreLines(LineBreak + h) == ['\n'] + RestoreLines(h)
  {
    var u := LineBreak + h;
    assert u[..4] == LineBreak && u[4..] == h;
  }

  lemma RestoreAfterPlain(c: char, h: string)
    requires c != '<'
    ensures RestoreLines([c] + h) == [c] + RestoreLines(h)
  {
    var u := [c] + h;
    if |u| >= 4 {
      assert u[..4][0] == c;
    }
    assert u[1..] == h;
  }

  predicate StartsClosingTag(s: string) {
    |s| >= 2 && s[0] == '<' && s[1] == '/'
  }

  /** No `</` starts inside `v`, and `v` does not end in `<`, so a closing
      tag placed after `v` is the first one. */
  predicate NoCloseTag(v: string) {
    && (forall k | 0 <= k < |v| - 1 :: !(v[k] == '<' && v[k + 1] == '/'))
    && (v == [] || v[|v| - 1] != '<')
  }

  lemma NoAngleNoCloseTag(v: string)
    requires '<' !in v
    ensures NoCloseTag(v)
  {
  }

  lemma NoCloseTagAppend(a: string, b: string)
    requires NoCloseTag(a) && NoCloseTag(b)
    ensures NoCloseTag(a + b)
  {
    var v := a + b;
    forall k | 0 <= k < |v| - 1
      ensures !(v[k] == '<' && v[k + 1] == '/')
    {
      if k + 1 < |a| {
        assert v[k] == a[k] && v[k + 1] == a[k + 1];
      } else if k + 1 == |a| {
        assert v[k] == a[|a| - 1];
      } else {
        assert v[k] == b[k - |a|] && v[k + 1] == b[k + 1 - |a|];
      }
    }
    if b == [] {
      assert v == a;
    } else {
      assert v[|v| - 1] == b[|b| - 1];
    }
  }

  /** Every `<` the rewrite adds opens a `<br>`, never a closing tag. */
  lemma {:induction false} BreakLinesNoCloseTag(s: string)
    requires '<' !in s
    ensures NoCloseTag(BreakLines(s))
  {
    if s != [] {
      assert '<' !in s[1..] by {
        forall k | 0 <= k < |s[1..]|
          ensures s[1..][k] != '<'
        {
          assert s[1..][k] == s[k + 1];
        }
      }
      BreakLinesNoCloseTag(s[1..]);
      if s[0] == '\n' {
        assert NoCloseTag(LineBreak);
        NoCloseTagAppend(LineBreak, BreakLines(s[1..]));
      } else {
        NoCloseTagAppend([s[0]], BreakLines(s[1..]));
      }
    }
  }

  /** Cuts `s` before its first `</`. */
  function SplitBeforeClose(s: string): (r: (string, string))
    ensures r.0 + r.1 == s
  {
    if s == [] || StartsClosingTag(s) then ([], s)
    else
      var (a, b) := SplitBeforeClose(s[1..]);
      assert s == [s[0]] + s[1..];
      ([s[0]] + a, b)
  }

  lemma {:induction false} SplitBeforeCloseSlot(v: string, rest: string)
    requires NoCloseTag(v) && StartsClosingTag(rest)
    ensures SplitBeforeClose(v + rest) == (v, rest)
  {
    if v == [] {
      assert v + rest == rest;
    } else {
      var s := v + rest;
      assert s[0] == v[0];
      if v[0] == '<' {
        assert |v| >= 2;
        assert s[1] == v[1];
      }
      assert !StartsClosingTag(s);
      assert s[1..] == v[1..] + rest;
      assert NoCloseTag(v[1..]) by {
        var u := v[1..];
        forall k | 0 <= k < |u| - 1
          ensures !(u[k] == '<' && u[k + 1] == '/')
        {
          assert u[k] == v[k + 1] && u[k + 1] == v[k + 2];
        }
        if u != [] {
          assert u[|u| - 1] == v[|v| - 1];
        }
      }
      SplitBeforeCloseSlot(v[1..], rest);
      assert [v[0]] + v[1..] == v;
    }
  }

  /** Cuts `s` before its first line break. */
  function SplitBeforeNewline(s: string): (r: (string, string))
    ensures r.0 + r.1 == s
    ensures '\n' !in r.0
    ensures r.1 == [] || r.1[0] == '\n'
  {
    var i := IndexOf(s, '\n');
    assert s == s[..i] + s[i..];
    (s[..i], s[i..])
  }

  lemma SplitBeforeNewlineSlot(v: string, rest: string)
    requires '\n' !in v && rest != [] && rest[0] == '\n'
    ensures SplitBeforeNewline(v + rest) == (v, rest)
  {
    var s := v + rest;
    var i := IndexOf(s, '\n');
    assert s[|v|] == '\n';
    assert i == |v|;
    assert s[..i] == v && s[i..] == rest;
  }

  /** Cuts `s` after its last line break. */
  function SplitAfterLastNewline(s: string): (r: (string, string))
    ensures r.0 + r.1 == s
  {
    if s == [] || s[|s| - 1] == '\n' then (s, [])
    else
      var (a, b) := SplitAfterLastNewline(s[..|s| - 1]);
      assert s == s[..|s| - 1] + [s[|s| - 1]];
      (a, b + [s[|s| - 1]])
  }

  lemma {:induction false} SplitAfterLastNewlineSlot(u: string, v: string)
    requires u != [] && u[|u| - 1] == '\n' && '\n' !in v
    ensures SplitAfterLastNewline(u + v) == (u, v)
  {
    if v == [] {
      assert u + v == u;
    } else {
      var s := u + v;
      var v' := v[..|v| - 1];
      assert s[|s| - 1] == v[|v| - 1];
      assert s[..|s| - 1] == u + v';
      assert '\n' !in v' by {
        forall k | 0 <= k < |v'|
          ensures v'[k] != '\n'
        {
          assert v'[k] == v[k];
        }
      }
      SplitAfterLastNewlineSlot(u, v');
      assert v' + [v[|v| - 1]] == v;
    }
  }

  function StripPrefix(p: string, s: string): Option<string> {
    if p <= s then Some(s[|p|..]) else None
  }

  function StripSuffix(q: string, s: string): Option<string> {
    if |q| <= |s| && s[|s| - |q|..] == q then Some(s[..|s| - |q|]) else None
  }

  lemma StripPrefixOf(p: string, t: string)
    ensures StripPrefix(p, p + t) == Some(t)
  {
    assert p <= p + t;
  }

  lemma StripSuffixOf(q: string, t: string)
    ensures StripSuffix(q, t + q) == Some(t)
  {
    assert (t + q)[|t + q| - |q|..] == q;
  }

  /** The plain-text body of the mail. */
  function RenderText(f: Slots): string {
    TextIntro + (f.fullName + (TextEmailLabel + (f.email + (TextPhoneLabel + (f.phone
      + (TextMessageLabel + (f.message + (TextRule + (TextStampLabel + (f.sentAt + TextOutro))))))))))
  }

  /** The HTML body of the mail; the message slot has `<br>` for line breaks. */
  function RenderHtml(f: Slots): string {
    HtmlIntro + (f.fullName + (HtmlEmailLabel + (f.email + (HtmlPhoneLabel + (f.phone
      + (HtmlMessageLabel + (BreakLines(f.message) + (HtmlStampLabel + (f.sentAt + HtmlOutro)))))))))
  }

  /** Reads the slots back out of a plain-text body. */
  function ParseText(t: string): Option<Slots> {
    var r0 :- StripPrefix(TextIntro, t);
    var (name, r1) := SplitBeforeNewline(r0);
    var r2 :- StripPrefix(TextEmailLabel, r1);
    var (email, r3) := SplitBeforeNewline(r2);
    var r4 :- StripPrefix(TextPhoneLabel, r3);
    var (phone, r5) := SplitBeforeNewline(r4);
    var r6 :- StripPrefix(TextMessageLabel, r5);
    var (message, sentAt) :- ParseTextTail(r6);
    Some(Slots(name, email, phone, message, sentAt))
  }

  /** Reads the message and the time stamp from the end of a plain-text body:
      the stamp line is the last one. */
  function ParseTextTail(r: string): Option<(string, string)> {
    var r' :- StripSuffix(TextOutro, r);
    var (head, last) := SplitAfterLastNewline(r');
    var message :- StripSuffix(TextRule, head);
    var sentAt :- StripPrefix(TextStampLabel, last);
    Some((message, sentAt))
  }

  /** Reads the slots back out of an HTML body, undoing the `<br>` rewrite. */
  function ParseHtml(h: string): Option<Slots> {
    var r0 :- StripPrefix(HtmlIntro, h);
    var (name, r1) := SplitBeforeClose(r0);
    var r2 :- StripPrefix(HtmlEmailLabel, r1);
    var (email, r3) := SplitBeforeClose(r2);
    var r4 :- StripPrefix(HtmlPhoneLabel, r3);
    var (phone, r5) := SplitBeforeClose(r4);
    var r6 :- StripPrefix(HtmlMessageLabel, r5);
    var (message, r7) := SplitBeforeClose(r6);
    var r8 :- StripPrefix(HtmlStampLabel, r7);
    var sentAt :- StripSuffix(HtmlOutro, r8);
    Some(Slots(name, email, phone, RestoreLines(message), sentAt))
  }

  /** Fields free of `<` cannot break out of their place in the HTML body:
      parsing it gives back every slot, the message with its line breaks. */
  lemma HtmlReadsBack(f: Slots)
    requires '<' !in f.fullName && '<' !in f.email && '<' !in f.phone && '<' !in f.message
    ensures ParseHtml(RenderHtml(f)) == Some(f)
  {
    var body := BreakLines(f.message);
    var s8 := HtmlStampLabel + (f.sentAt + HtmlOutro);
    var s6 := HtmlMessageLabel + (body + s8);
    var s4 := HtmlPhoneLabel + (f.phone + s6);
    var s2 := HtmlEmailLabel + (f.email + s4);
    StripPrefixOf(HtmlIntro, f.fullName + s2);
    NoAngleNoCloseTag(f.fullName);
    SplitBeforeCloseSlot(f.fullName, s2);
    StripPrefixOf(HtmlEmailLabel, f.email + s4);
    NoAngleNoCloseTag(f.email);
    SplitBeforeCloseSlot(f.email, s4);
    StripPrefixOf(HtmlPhoneLabel, f.phone + s6);
    NoAngleNoCloseTag(f.phone);
    SplitBeforeCloseSlot(f.phone, s6);
    StripPrefixOf(HtmlMessageLabel, body + s8);
    BreakLinesNoCloseTag(f.message);
    SplitBeforeCloseSlot(body, s8);
    StripPrefixOf(HtmlStampLabel, f.sentAt + HtmlOutro);
    StripSuffixOf(HtmlOutro, f.sentAt);
    RestoreBreakLines(f.message);
  }

  /** With single-line name, email, phone and time stamp, the plain-text body
      gives back every slot; the message itself may span lines. */
  lemma TextReadsBack(f: Slots)
    requires '\n' !in f.fullName && '\n' !in f.email && '\n' !in f.phone && '\n' !in f.sentAt
    ensures ParseText(RenderText(f)) == Some(f)
  {
    var s6 := f.message + (TextRule + (TextStampLabel + (f.sentAt + TextOutro)));
    var s4 := TextPhoneLabel + (f.phone + (TextMessageLabel + s6));
    var s2 := TextEmailLabel + (f.email + s4);
    StripPrefixOf(TextIntro, f.fullName + s2);
    SplitBeforeNewlineSlot(f.fullName, s2);
    StripPrefixOf(TextEmailLabel, f.email + s4);
    SplitBeforeNewlineSlot(f.email, s4);
    StripPrefixOf(TextPhoneLabel, f.phone + (TextMessageLabel + s6));
    SplitBeforeNewlineSlot(f.phone, TextMessageLabel + s6);
    StripPrefixOf(TextMessageLabel, s6);
    TextTailReadsBack(f.message, f.sentAt);
  }

  lemma TextTailReadsBack(message: string, sentAt: string)
    requires '\n' !in sentAt
    ensures ParseTextTail(message + (TextRule + (TextStampLabel + (sentAt + TextOutro))))
            == Some((message, sentAt))
  {
    var stamp := TextStampLabel + sentAt;
    var head := message + TextRule;
    assert message + (TextRule + (TextStampLabel + (sentAt + TextOutro))) == (head + stamp) + TextOutro;
    StripSuffixOf(TextOutro, head + stamp);
    assert '\n' !in stamp by {
      forall k | 0 <= k < |stamp|
        ensures stamp[k] != '\n'
      {
        if k < |TextStampLabel| {
          assert stamp[k] == TextStampLabel[k];
        } else {
          assert stamp[k] == sentAt[k - |TextStampLabel|];
        }
      }
    }
    assert head[|head| - 1] == '\n';
    SplitAfterLastNewlineSlot(head, stamp);
    StripSuffixOf(TextRule, message);
    StripPrefixOf(TextStampLabel, sentAt);
  }

  /** `sendEmail`'s argument; the time stamps come from two separate clock
      readings and need not agree. */
  function ComposeMail(to: string, d: Fields, textStamp: string, htmlStamp: string): Mail {
    var phone := PhoneSlot(d.phone);
    Mail(to,
         SubjectPrefix + d.fullName,
         RenderText(Slots(d.fullName, d.email, phone, d.message, textStamp)),
         RenderHtml(Slots(d.fullName, d.email, phone, d.message, htmlStamp)))
  }

  /** The HTML body of a composed mail reads back as its fields, the phone
      as shown in its slot and the message with its line breaks. */
  lemma ComposedHtmlReadsBack(to: string, d: Fields, textStamp: string, htmlStamp: string)
    requires '<' !in d.fullName && '<' !in d.email && '<' !in d.phone && '<' !in d.message
    ensures ParseHtml(ComposeMail(to, d, textStamp, htmlStamp).html)
            == Some(Slots(d.fullName, d.email, PhoneSlot(d.phone), d.message, htmlStamp))
  {
    var phone := PhoneSlot(d.phone);
    assert '<' !in phone by {
      if d.phone == [] {
        assert phone == PhonePlaceholder;
      }
    }
    HtmlReadsBack(Slots(d.fullName, d.email, phone, d.message, htmlStamp));
  }

  /** The plain-text body of a composed mail reads back as its fields when
      the single-line ones are single lines. */
  lemma ComposedTextReadsBack(to: string, d: Fields, textStamp: string, htmlStamp: string)
    requires '\n' !in d.fullName && '\n' !in d.email && '\n' !in d.phone && '\n' !in textStamp
    ensures ParseText(ComposeMail(to, d, textStamp, htmlStamp).text)
            == Some(Slots(d.fullName, d.email, PhoneSlot(d.phone), d.message, textStamp))
  {
    var phone := PhoneSlot(d.phone);
    assert '\n' !in phone by {
      if d.phone == [] {
        assert phone == PhonePlaceholder;
      }
    }
    TextReadsBack(Slots(d.fullName, d.email, phone, d.message, textStamp));
  }
}
