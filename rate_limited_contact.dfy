/**
 * The rate-limited contact endpoint (`src/api/contact.js`). A module-level
 * limiter is asked for a token before the body is read; the five body fields
 * are trimmed and escaped (six characters, `/` included) without any
 * validation, and one message goes to the mail relay. The `limiter` library is
 * not part of this model: the handler's decision takes the limiter's answer as
 * an input, and `Limiter` below is a fixed-window counter standing in for it.
 */
module RateLimitedContact {
  import opened Wrappers
  import opened Text
  import HtmlEscape

  /** `new RateLimiter({ tokensPerInterval: 5, interval: "15 minutes" })`. */
  const TokensPerInterval: nat := 5
  const IntervalMs: int := 15 * 60 * 1000

  const DevelopmentOrigin := "http://localhost:5173"

  /** The request headers a preflight may announce. */
  const AllowedHeaders := "X-CSRF-Token, X-Requested-With, Accept, Accept-Version, Content-Length, Content-MD5, Content-Type, Date, X-Api-Version"

  datatype Field = Absent | Str(text: string) | NonString

  /**
   * `req.body`: null or undefined (reading any property throws), another
   * non-object value (every property reads as undefined), or an object.
   */
  datatype Body =
    | Nullish
    | Primitive
    | Object(name: Field, email: Field, subject: Field, message: Field, url: Field)

  /** The parts of the request the handler reads; `forwardedFor` is `""` when the header is absent. */
  datatype Request = Request(verb: string, body: Body, forwardedFor: string, remoteAddress: string)

  /** `NODE_ENV === 'production'`, `ALLOWED_ORIGIN`, `SMTP_USER`, `CONTACT_EMAIL`. */
  datatype Config = Config(production: bool, allowedOrigin: string, smtpUser: string, contactEmail: string)

  datatype ReplyBody = Empty | Json(message: string)
  datatype Reply = Reply(status: int, headers: seq<(string, string)>, body: ReplyBody)

  /** `mailOptions`: envelope, subject line, and the values interpolated into its text and HTML bodies. */
  datatype Mail = Mail(from: string, to: string, replyTo: string, subjectLine: string,
                       name: string, email: string, subject: string, message: string,
                       url: string, clientIp: string, submittedAt: string)

  datatype Outcome = Outcome(reply: Reply, mail: Option<Mail>)

  datatype Sanitized = Sanitized(name: string, email: string, subject: string, message: string, url: string)

  /** `sanitizeInput(str = '')`: a missing field defaults to `''`; a non-string makes `.trim` throw (`None`). */
  function Sanitize(f: Field): (r: Option<string>)
    ensures r.None? <==> f.NonString?
    ensures f.Absent? ==> r == Some("")
    ensures r.Some? ==> HtmlEscape.WellEscaped(r.value, true)
  {
    match f
    case Absent => Some("")
    case Str(s) =>
      HtmlEscape.ReplaceChain6IsEscape(Trim(s));
      HtmlEscape.EscapeIsWellEscaped(Trim(s), true);
      Some(HtmlEscape.ReplaceChain6(Trim(s)))
    case NonString => None
  }

  /**
   * Sanitizing a string trims it and escapes it: each character of the
   * trimmed text becomes at most six, no raw markup or `/` is left, and the
   * trimmed text can be decoded back.
   */
  lemma SanitizeString(s: string)
    ensures Sanitize(Str(s)) == Some(HtmlEscape.Escape(Trim(s), true))
    ensures |Sanitize(Str(s)).value| <= 6 * |Trim(s)| <= 6 * |s|
    ensures HtmlEscape.WellEscaped(Sanitize(Str(s)).value, true)
    ensures HtmlEscape.Unescape(Sanitize(Str(s)).value) == Trim(s)
  {
    var t := Trim(s);
    var i :| PaddedAt(s, t, i);
    HtmlEscape.ReplaceChain6IsEscape(t);
    HtmlEscape.EscapeLength(t, true);
    HtmlEscape.EscapeIsWellEscaped(t, true);
    HtmlEscape.UnescapeEscape(t, true);
  }

  /** The five fields, each sanitized on its own; `None` when one of them throws. */
  function SanitizeBody(b: Body): (r: Option<Sanitized>)
    requires !b.Nullish?
    ensures r.None? <==> b.Object? && (Sanitize(b.name).None? || Sanitize(b.email).None? || Sanitize(b.subject).None?
                                        || Sanitize(b.message).None? || Sanitize(b.url).None?)
    ensures r.Some? && b.Object? ==>
              r.value == Sanitized(Sanitize(b.name).value, Sanitize(b.email).value, Sanitize(b.subject).value,
                                   Sanitize(b.message).value, Sanitize(b.url).value)
  {
    match b
    case Primitive => Some(Sanitized("", "", "", "", ""))
    case Object(name, email, subject, message, url) =>
      if name.NonString? || email.NonString? || subject.NonString? || message.NonString? || url.NonString? then None
      else Some(Sanitized(Sanitize(name).value, Sanitize(email).value, Sanitize(subject).value,
                          Sanitize(message).value, Sanitize(url).value))
  }

  /** The four CORS headers, set before any branch. */
  function CorsHeaders(config: Config): seq<(string, string)> {
    [("Access-Control-Allow-Credentials", "true"),
     ("Access-Control-Allow-Origin", if config.production then config.allowedOrigin else DevelopmentOrigin),
     ("Access-Control-Allow-Methods", "POST,OPTIONS"),
     ("Access-Control-Allow-Headers", AllowedHeaders)]
  }

  /** `req.headers['x-forwarded-for'] || req.socket.remoteAddress`, as given. */
  function ClientIp(req: Request): (ip: string)
    ensures ip == req.forwardedFor || ip == req.remoteAddress
    ensures ip == "" <==> req.forwardedFor == "" && req.remoteAddress == ""
  {
    if req.forwardedFor != "" then req.forwardedFor else req.remoteAddress
  }

  function ComposeMail(config: Config, d: Sanitized, clientIp: string, submittedAt: string): Mail {
    Mail("\"Contact Form\" <" + config.smtpUser + ">", config.contactEmail, d.email,
         "New Contact Form Message: " + d.subject, d.name, d.email, d.subject, d.message,
         d.url, clientIp, submittedAt)
  }

  /** A body whose five fields all sanitize without throwing. */
  predicate Readable(b: Body) {
    !b.Nullish? && SanitizeBody(b).Some?
  }

  /**
   * The handler's decision. `hasToken` is the limiter's answer, consulted
   * only for a POST; `submittedAt` is the formatted submission time;
   * `relayAccepts` is whether `sendMail` resolves.
   */
  function Handle(config: Config, req: Request, hasToken: bool, submittedAt: string, relayAccepts: bool): (o: Outcome)
    ensures o.reply.headers == CorsHeaders(config)
    ensures o.reply.status in {200, 405, 429, 500}
    ensures req.verb == "OPTIONS" ==> o.reply.status == 200 && o.reply.body == Empty && o.mail == None
    ensures req.verb != "OPTIONS" && req.verb != "POST" ==>
              o.reply.status == 405 && o.reply.body == Json("Method not allowed") && o.mail == None
    ensures req.verb == "POST" && !hasToken ==>
              o.reply.status == 429 && o.reply.body == Json("Too many requests, please try again later.")
              && o.mail == None
    ensures o.mail.Some? <==> req.verb == "POST" && hasToken && Readable(req.body)
    ensures o.reply.status == 200 && o.reply.body != Empty ==>
              o.mail.Some? && relayAccepts && o.reply.body == Json("Email sent successfully")
    ensures o.reply.status == 500 <==> req.verb == "POST" && hasToken && (!Readable(req.body) || !relayAccepts)
    ensures o.reply.status == 500 ==> o.reply.body == Json("Error sending email")
    ensures req.verb == "POST" && hasToken && Readable(req.body) && relayAccepts ==>
              o.reply == Reply(200, CorsHeaders(config), Json("Email sent successfully"))
  {
    var headers := CorsHeaders(config);
    if req.verb == "OPTIONS" then Outcome(Reply(200, headers, Empty), None)
    else if req.verb != "POST" then Outcome(Reply(405, headers, Json("Method not allowed")), None)
    else if !hasToken then Outcome(Reply(429, headers, Json("Too many requests, please try again later.")), None)
    else if req.body.Nullish? || SanitizeBody(req.body).None? then
      Outcome(Reply(500, headers, Json("Error sending email")), None)
    else
      var mail := ComposeMail(config, SanitizeBody(req.body).value, ClientIp(req), submittedAt);
      if relayAccepts then Outcome(Reply(200, headers, Json("Email sent successfully")), Some(mail))
      else Outcome(Reply(500, headers, Json("Error sending email")), Some(mail))
  }

  /**
   * What is sent: the sanitized fields, the sanitized address as the reply
   * address, the client address and the submission time, to the configured
   * recipient.
   */
  lemma MailFields(config: Config, req: Request, hasToken: bool, submittedAt: string, relayAccepts: bool)
    requires Handle(config, req, hasToken, submittedAt, relayAccepts).mail.Some?
    ensures Readable(req.body)
    ensures var m := Handle(config, req, hasToken, submittedAt, relayAccepts).mail.value;
            var d := SanitizeBody(req.body).value;
            && m.replyTo == d.email && m.email == d.email && m.name == d.name
            && m.subject == d.subject && m.message == d.message && m.url == d.url
            && m.subjectLine == "New Contact Form Message: " + d.subject
            && m.clientIp == ClientIp(req) && m.submittedAt == submittedAt
            && m.to == config.contactEmail
  {
    assert req.verb == "POST" && hasToken && !req.body.Nullish?;
    var d := SanitizeBody(req.body);
    var mail := ComposeMail(config, d.value, ClientIp(req), submittedAt);
    var o := Handle(config, req, hasToken, submittedAt, relayAccepts);
    if relayAccepts {
      assert o == Outcome(Reply(200, CorsHeaders(config), Json("Email sent successfully")), Some(mail));
    } else {
      assert o == Outcome(Reply(500, CorsHeaders(config), Json("Error sending email")), Some(mail));
    }
  }

  /** The limiter's answer matters only for a POST: the preflight and the method check never consult it. */
  lemma TokenOnlyForPost(config: Config, req: Request, t1: bool, t2: bool, at: string, relayAccepts: bool)
    requires req.verb != "POST"
    ensures Handle(config, req, t1, at, relayAccepts) == Handle(config, req, t2, at, relayAccepts)
  {
  }

  /** There is no field validation: a POST with a token and string fields always reaches the relay, even with every field empty. */
  lemma NoValidation(config: Config, req: Request, at: string, relayAccepts: bool)
    requires req.verb == "POST" && req.body.Object?
    requires forall f :: f in [req.body.name, req.body.email, req.body.subject, req.body.message, req.body.url] ==> !f.NonString?
    ensures Handle(config, req, true, at, relayAccepts).mail.Some?
  {
    var b := req.body;
    assert b.name in [b.name, b.email, b.subject, b.message, b.url];
    assert b.email in [b.name, b.email, b.subject, b.message, b.url];
    assert b.subject in [b.name, b.email, b.subject, b.message, b.url];
    assert b.message in [b.name, b.email, b.subject, b.message, b.url];
    assert b.url in [b.name, b.email, b.subject, b.message, b.url];
    assert SanitizeBody(b).Some?;
  }

  /** The fixed-window state: when the current window opened and how many tokens it has given out. */
  datatype Window = Window(start: int, used: nat)

  /**
   * One `tryRemoveTokens(1)`: a new window opens when the interval has run
   * out (or the clock went back); a token is granted while the window has
   * fewer than five grants.
   */
  function Admit(w: Window, now: int): (r: (Window, bool))
    ensures r.0.start == w.start || r.0.start == now
    ensures r.1 ==> 1 <= r.0.used <= TokensPerInterval
    ensures !r.1 ==> r.0 == w && w.used >= TokensPerInterval
    ensures w.used <= TokensPerInterval ==> r.0.used <= TokensPerInterval
  {
    var cur := if now < w.start || now - w.start >= IntervalMs then Window(now, 0) else w;
    if cur.used < TokensPerInterval then (Window(cur.start, cur.used + 1), true)
    else (cur, false)
  }

  /** The answers to a sequence of requests arriving at `times`. */
  function Run(w: Window, times: seq<int>): seq<bool>
    decreases |times|
  {
    if times == [] then [] else
      var (w', ok) := Admit(w, times[0]);
      [ok] + Run(w', times[1..])
  }

  /** The window reached after answering the requests at `times`. */
  function After(w: Window, times: seq<int>): Window
    decreases |times|
  {
    if times == [] then w else After(Admit(w, times[0]).0, times[1..])
  }

  function CountGranted(answers: seq<bool>): nat {
    if answers == [] then 0 else (if answers[0] then 1 else 0) + CountGranted(answers[1..])
  }

  /** Within one window, no more than the five tokens are granted in all. */
  lemma {:induction false} AtMostFivePerWindow(w: Window, times: seq<int>)
    requires w.used <= TokensPerInterval
    requires forall i :: 0 <= i < |times| ==> w.start <= times[i] < w.start + IntervalMs
    ensures CountGranted(Run(w, times)) <= TokensPerInterval - w.used
    ensures After(w, times).start == w.start
    ensures After(w, times).used == w.used + CountGranted(Run(w, times))
    decreases |times|
  {
    if times != [] {
      var (w', ok) := Admit(w, times[0]);
      assert w'.start == w.start;
      AtMostFivePerWindow(w', times[1..]);
    }
  }

  /** After five grants in a window, the next request in that window is refused. */
  lemma SixthRefused(w: Window, times: seq<int>, now: int)
    requires w.used <= TokensPerInterval
    requires forall i :: 0 <= i < |times| ==> w.start <= times[i] < w.start + IntervalMs
    requires w.used + CountGranted(Run(w, times)) == TokensPerInterval
    requires w.start <= now < w.start + IntervalMs
    ensures !Admit(After(w, times), now).1
  {
    AtMostFivePerWindow(w, times);
  }

  /** The module-level limiter instance. */
  class Limiter {
    var window: Window

    ghost predicate Valid()
      reads this
    {
      window.used <= TokensPerInterval
    }

    constructor (now: int)
      ensures Valid() && window == Window(now, 0)
    {
      window := Window(now, 0);
    }

    method TryRemoveToken(now: int) returns (granted: bool)
      requires Valid()
      modifies this
      ensures Valid()
      ensures (window, granted) == Admit(old(window), now)
    {
      if now < window.start || now - window.start >= IntervalMs {
        window := Window(now, 0);
      }
      granted := window.used < TokensPerInterval;
      if granted {
        window := window.(used := window.used + 1);
      }
    }
  }

  /**
   * The handler as the source runs it: headers first, the method gate, then
   * the token, then the body. The limiter is touched only by a POST.
   */
  method Serve(limiter: Limiter, config: Config, req: Request, now: int, submittedAt: string, relayAccepts: bool)
    returns (o: Outcome, granted: bool)
    requires limiter.Valid()
    modifies limiter
    ensures limiter.Valid()
    ensures req.verb != "POST" ==> unchanged(limiter) && !granted
    ensures req.verb == "POST" ==> (limiter.window, granted) == Admit(old(limiter.window), now)
    ensures o == Handle(config, req, granted, submittedAt, relayAccepts)
  {
    var headers := CorsHeaders(config);
    granted := false;
    if req.verb == "OPTIONS" {
      return Outcome(Reply(200, headers, Empty), None), granted;
    }
    if req.verb != "POST" {
      return Outcome(Reply(405, headers, Json("Method not allowed")), None), granted;
    }
    granted := limiter.TryRemoveToken(now);
    if !granted {
      return Outcome(Reply(429, headers, Json("Too many requests, please try again later.")), None), granted;
    }
    if req.body.Nullish? {
      return Outcome(Reply(500, headers, Json("Error sending email")), None), granted;
    }
    var data := SanitizeBody(req.body);
    if data.None? {
      return Outcome(Reply(500, headers, Json("Error sending email")), None), granted;
    }
    var mail := ComposeMail(config, data.value, ClientIp(req), submittedAt);
    if relayAccepts {
      o := Outcome(Reply(200, headers, Json("Email sent successfully")), Some(mail));
    } else {
      o := Outcome(Reply(500, headers, Json("Error sending email")), Some(mail));
    }
  }
}
