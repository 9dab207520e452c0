/**
 * The deployed contact endpoint (`api/contact.js`): a serverless handler that
 * answers the CORS preflight, accepts only POST, sanitizes the four form
 * fields, checks that none is empty and that the address has the e-mail
 * shape, and hands exactly one message to the mail relay. The relay is an
 * input: `relayAccepts` says whether `sendMail` resolves or throws.
 */
module DeployedContact {
  import opened Wrappers
  import opened Text
  import HtmlEscape
  import EmailShape

  /** `MAX_FIELD_LENGTHS`. */
  const NameMax: nat := 100
  const EmailMax: nat := 254
  const SubjectMax: nat := 200
  const MessageMax: nat := 5000

  const DefaultOrigin := "https://yourdomain.com"

  /** One property of the parsed JSON body: missing, a string, or any other JSON value. */
  datatype Field = Absent | Str(text: string) | NonString

  /** `req.body`: falsy (missing, null, empty), some other non-object value, or an object. */
  datatype Body =
    | Falsy
    | Primitive
    | Object(name: Field, email: Field, subject: Field, message: Field)

  /** The environment the handler reads: `ALLOWED_ORIGIN` ("" when unset), `SMTP_USER`, `CONTACT_EMAIL`. */
  datatype Config = Config(allowedOrigin: string, smtpUser: string, contactEmail: string)

  datatype ReplyBody = Empty | Json(message: string)
  datatype Reply = Reply(status: int, headers: seq<(string, string)>, body: ReplyBody)

  /** The message handed to `sendMail`: envelope, subject line, and the values its text and HTML bodies interpolate. */
  datatype Mail = Mail(from: string, to: string, replyTo: string, subjectLine: string,
                       name: string, email: string, subject: string, message: string)

  /** What one call does: the reply, and the message given to the relay, if any. */
  datatype Outcome = Outcome(reply: Reply, mail: Option<Mail>)

  datatype Sanitized = Sanitized(name: string, email: string, subject: string, message: string)

  function Min(a: nat, b: nat): nat {
    if a < b then a else b
  }

  /** The text `sanitizeInput` keeps before escaping: the first `maxLength` characters, trimmed. */
  function Clamped(s: string, maxLength: nat): string {
    Trim(s[..Min(|s|, maxLength)])
  }

  /**
   * `sanitizeInput(str, maxLength)`: `''` for anything but a string; otherwise
   * cut, trim, then the five-step escape chain, which leaves no raw markup.
   */
  function Sanitize(f: Field, maxLength: nat): (r: string)
    ensures !f.Str? ==> r == ""
    ensures HtmlEscape.WellEscaped(r, false)
  {
    match f
    case Str(s) =>
      var c := Clamped(s, maxLength);
      HtmlEscape.ReplaceChain5IsEscape(c);
      HtmlEscape.EscapeIsWellEscaped(c, false);
      HtmlEscape.ReplaceChain5(c)
    case _ => ""
  }

  /**
   * What sanitizing a string guarantees: the ceiling bounds the text before
   * escaping, so the escaped result is only bounded by six times the ceiling;
   * the result holds no raw markup and decodes back to the clamped text.
   */
  lemma SanitizeString(s: string, maxLength: nat)
    ensures |Clamped(s, maxLength)| <= maxLength
    ensures Sanitize(Str(s), maxLength) == HtmlEscape.Escape(Clamped(s, maxLength), false)
    ensures |Sanitize(Str(s), maxLength)| <= 6 * maxLength
    ensures HtmlEscape.WellEscaped(Sanitize(Str(s), maxLength), false)
    ensures HtmlEscape.Unescape(Sanitize(Str(s), maxLength)) == Clamped(s, maxLength)
  {
    var c := Clamped(s, maxLength);
    var p := s[..Min(|s|, maxLength)];
    var t :| PaddedAt(p, c, t);
    HtmlEscape.ReplaceChain5IsEscape(c);
    HtmlEscape.EscapeLength(c, false);
    HtmlEscape.EscapeIsWellEscaped(c, false);
    HtmlEscape.UnescapeEscape(c, false);
  }

  /** A string field sanitizes to `''` exactly when the part kept by the cut is all whitespace. */
  lemma SanitizeEmptyIffBlank(s: string, maxLength: nat)
    ensures Sanitize(Str(s), maxLength) == [] <==> forall i :: 0 <= i < Min(|s|, maxLength) ==> IsWhitespace(s[i])
  {
    var c := Clamped(s, maxLength);
    var p := s[..Min(|s|, maxLength)];
    HtmlEscape.ReplaceChain5IsEscape(c);
    HtmlEscape.EscapeEmpty(c, false);
    TrimEmptyIffBlank(p);
    assert forall i :: 0 <= i < |p| ==> p[i] == s[i];
  }

  /** The four fields sanitized with their own ceilings; the address is lower-cased. */
  function SanitizeBody(b: Body): (d: Sanitized)
    requires b.Object?
    ensures forall i :: 0 <= i < |d.email| ==> !('A' <= d.email[i] <= 'Z')
  {
    Sanitized(Sanitize(b.name, NameMax),
              ToLower(Sanitize(b.email, EmailMax)),
              Sanitize(b.subject, SubjectMax),
              Sanitize(b.message, MessageMax))
  }

  /** The first field, in the order name, email, subject, message, that sanitized to `''`. */
  function MissingField(d: Sanitized): (r: Option<string>)
    ensures r.None? <==> d.name != "" && d.email != "" && d.subject != "" && d.message != ""
    ensures r.Some? ==> r.value in {"name", "email", "subject", "message"}
  {
    if d.name == "" then Some("name")
    else if d.email == "" then Some("email")
    else if d.subject == "" then Some("subject")
    else if d.message == "" then Some("message")
    else None
  }

  /** Both CORS headers, set before any branch is taken. */
  function CorsHeaders(config: Config): (h: seq<(string, string)>)
    ensures |h| == 2 && h[0].0 == "Access-Control-Allow-Origin" && h[0].1 != ""
  {
    [("Access-Control-Allow-Origin", if config.allowedOrigin != "" then config.allowedOrigin else DefaultOrigin),
     ("Access-Control-Allow-Methods", "POST,OPTIONS")]
  }

  function ComposeMail(config: Config, d: Sanitized): Mail {
    Mail("\"Portfolio Contact\" <" + config.smtpUser + ">", config.contactEmail, d.email,
         "Portfolio Contact: " + d.subject, d.name, d.email, d.subject, d.message)
  }

  /** A POST body the handler forwards to the relay. */
  predicate Forwarded(b: Body) {
    b.Object? && MissingField(SanitizeBody(b)).None? && EmailShape.IsValidEmail(SanitizeBody(b).email)
  }

  /** The handler's decision, as a value. */
  function Handle(config: Config, verb: string, body: Body, relayAccepts: bool): (o: Outcome)
    ensures o.reply.headers == CorsHeaders(config)
    ensures o.reply.status in {200, 400, 405, 500}
    ensures verb == "OPTIONS" ==> o.reply.status == 200 && o.reply.body == Empty && o.mail == None
    ensures verb != "OPTIONS" && verb != "POST" ==>
              o.reply.status == 405 && o.reply.body == Json("Method not allowed") && o.mail == None
    ensures verb == "POST" && !body.Object? ==>
              o.reply.status == 400 && o.reply.body == Json("Invalid request") && o.mail == None
    ensures verb == "POST" && body.Object? && MissingField(SanitizeBody(body)).Some? ==>
              o.reply.status == 400 && o.mail == None
              && o.reply.body == Json(MissingField(SanitizeBody(body)).value + " is required")
    ensures verb == "POST" && body.Object? && MissingField(SanitizeBody(body)).None?
            && !EmailShape.IsValidEmail(SanitizeBody(body).email) ==>
              o.reply.status == 400 && o.reply.body == Json("Invalid email format") && o.mail == None
    ensures o.reply.status == 400 ==> o.mail == None
    ensures o.mail.Some? <==> verb == "POST" && Forwarded(body)
    ensures o.mail.Some? ==> o.mail.value.replyTo == ToLower(Sanitize(body.email, EmailMax))
                             && o.mail.value.to == config.contactEmail
    ensures o.reply.status == 200 && o.reply.body != Empty ==>
              o.mail.Some? && relayAccepts && o.reply.body == Json("Message sent successfully")
    ensures o.reply.status == 500 <==> o.mail.Some? && !relayAccepts
    ensures o.reply.status == 500 ==> o.reply.body == Json("Failed to send message")
    ensures verb == "POST" && Forwarded(body) ==> o.mail == Some(ComposeMail(config, SanitizeBody(body)))
    ensures verb == "POST" && Forwarded(body) && relayAccepts ==>
              o.reply == Reply(200, CorsHeaders(config), Json("Message sent successfully"))
  {
    var headers := CorsHeaders(config);
    if verb == "OPTIONS" then Outcome(Reply(200, headers, Empty), None)
    else if verb != "POST" then Outcome(Reply(405, headers, Json("Method not allowed")), None)
    else if !body.Object? then Outcome(Reply(400, headers, Json("Invalid request")), None)
    else
      var d := SanitizeBody(body);
      match MissingField(d)
      case Some(field) => Outcome(Reply(400, headers, Json(field + " is required")), None)
      case None =>
        if !EmailShape.IsValidEmail(d.email) then Outcome(Reply(400, headers, Json("Invalid email format")), None)
        else
          var mail := ComposeMail(config, d);
          if relayAccepts then Outcome(Reply(200, headers, Json("Message sent successfully")), Some(mail))
          else Outcome(Reply(500, headers, Json("Failed to send message")), Some(mail))
  }

  /** The loop over `Object.entries(sanitizedData)`: the name of the first empty field, in declaration order. */
  method FirstMissing(d: Sanitized) returns (missing: Option<string>)
    ensures missing == MissingField(d)
  {
    var entries := [("name", d.name), ("email", d.email), ("subject", d.subject), ("message", d.message)];
    for i := 0 to |entries|
      invariant forall k :: 0 <= k < i ==> entries[k].1 != ""
    {
      if entries[i].1 == "" {
        if i == 0 {
          assert d.name == "";
        } else if i == 1 {
          assert entries[0].1 != "" && d.email == "";
        } else if i == 2 {
          assert entries[0].1 != "" && entries[1].1 != "" && d.subject == "";
        } else {
          assert entries[0].1 != "" && entries[1].1 != "" && entries[2].1 != "" && d.message == "";
        }
        return Some(entries[i].0);
      }
    }
    assert entries[0].1 != "" && entries[1].1 != "" && entries[2].1 != "" && entries[3].1 != "";
    return None;
  }

  /** The handler as the source runs it: early returns and a loop over the sanitized fields. */
  method HandleRequest(config: Config, verb: string, body: Body, relayAccepts: bool) returns (o: Outcome)
    ensures o == Handle(config, verb, body, relayAccepts)
  {
    var headers := CorsHeaders(config);
    if verb == "OPTIONS" {
      return Outcome(Reply(200, headers, Empty), None);
    }
    if verb != "POST" {
      return Outcome(Reply(405, headers, Json("Method not allowed")), None);
    }
    if !body.Object? {
      return Outcome(Reply(400, headers, Json("Invalid request")), None);
    }
    var d := SanitizeBody(body);
    var missing := FirstMissing(d);
    if missing.Some? {
      return Outcome(Reply(400, headers, Json(missing.value + " is required")), None);
    }
    if !EmailShape.IsValidEmail(d.email) {
      return Outcome(Reply(400, headers, Json("Invalid email format")), None);
    }
    var mail := ComposeMail(config, d);
    if relayAccepts {
      o := Outcome(Reply(200, headers, Json("Message sent successfully")), Some(mail));
    } else {
      o := Outcome(Reply(500, headers, Json("Failed to send message")), Some(mail));
    }
  }

  /** The preflight and the method check answer without looking at the body or calling the relay. */
  lemma MethodGateIgnoresBody(config: Config, verb: string, b1: Body, b2: Body, r1: bool, r2: bool)
    requires verb != "POST"
    ensures Handle(config, verb, b1, r1) == Handle(config, verb, b2, r2)
  {
  }

  /** A string field with a non-whitespace character among the first `maxLength`. */
  predicate KeepsText(f: Field, maxLength: nat) {
    f.Str? && exists i :: 0 <= i < Min(|f.text|, maxLength) && !IsWhitespace(f.text[i])
  }

  /**
   * Sending: the only way to a message without a 400 is a body whose every
   * field is a string with a non-whitespace character in the part the cut
   * keeps, so that it survives sanitizing.
   */
  lemma ForwardedFieldsNonEmpty(b: Body)
    requires Forwarded(b)
    ensures b.name.Str? && b.email.Str? && b.subject.Str? && b.message.Str?
    ensures SanitizeBody(b).name != "" && SanitizeBody(b).email != ""
            && SanitizeBody(b).subject != "" && SanitizeBody(b).message != ""
    ensures KeepsText(b.name, NameMax) && KeepsText(b.email, EmailMax)
            && KeepsText(b.subject, SubjectMax) && KeepsText(b.message, MessageMax)
    ensures |SanitizeBody(b).name| <= 6 * NameMax && |SanitizeBody(b).subject| <= 6 * SubjectMax
    ensures |SanitizeBody(b).email| <= 6 * EmailMax && |SanitizeBody(b).message| <= 6 * MessageMax
  {
    SanitizeString(b.name.text, NameMax);
    SanitizeString(b.email.text, EmailMax);
    SanitizeString(b.subject.text, SubjectMax);
    SanitizeString(b.message.text, MessageMax);
    SanitizeEmptyIffBlank(b.name.text, NameMax);
    SanitizeEmptyIffBlank(b.email.text, EmailMax);
    SanitizeEmptyIffBlank(b.subject.text, SubjectMax);
    SanitizeEmptyIffBlank(b.message.text, MessageMax);
  }

  /** Escaping never writes an `@` that was not in its input. */
  lemma {:induction false} EscapeAddsNoAt(s: string)
    requires '@' !in s
    ensures '@' !in HtmlEscape.Escape(s, false)
  {
    if s != [] {
      assert s[0] != '@';
      EscapeAddsNoAt(s[1..]);
    }
  }

  /**
   * An address without `@`, such as `not-an-email`, is turned away with
   * 400 'Invalid email format' once the other fields are present.
   */
  lemma AddressWithoutAtRejected(config: Config, b: Body, relayAccepts: bool)
    requires b.Object? && b.email.Str? && '@' !in b.email.text
    requires MissingField(SanitizeBody(b)).None?
    ensures Handle(config, "POST", b, relayAccepts).reply == Reply(400, CorsHeaders(config), Json("Invalid email format"))
    ensures Handle(config, "POST", b, relayAccepts).mail == None
  {
    var e := SanitizeBody(b).email;
    SanitizedAddressHasNoAt(b.email.text);
    if EmailShape.IsValidEmail(e) {
      EmailShape.ValidEmailShape(e);
      assert false;
    }
  }

  /** Clamping, trimming, escaping and lower-casing an address never introduce an `@`. */
  lemma SanitizedAddressHasNoAt(s: string)
    requires '@' !in s
    ensures '@' !in ToLower(Sanitize(Str(s), EmailMax))
  {
    var p := s[..Min(|s|, EmailMax)];
    var c := Clamped(s, EmailMax);
    var t :| PaddedAt(p, c, t);
    assert '@' !in c by {
      forall i | 0 <= i < |c| ensures c[i] != '@' {
        assert c[i] == p[t + i] == s[t + i];
      }
    }
    HtmlEscape.ReplaceChain5IsEscape(c);
    EscapeAddsNoAt(c);
    var raw := Sanitize(Str(s), EmailMax);
    var e := ToLower(raw);
    forall i | 0 <= i < |e| ensures e[i] != '@' {
      assert e[i] == LowerChar(raw[i]);
      assert raw[i] != '@';
    }
  }
}
