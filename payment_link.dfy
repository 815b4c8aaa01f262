/** `POST /api/brytewire/generate-link`: the admin console asks for a payment
    link for an event. The route checks the credentials and the API key,
    builds a payload (name, a description ending in the date range, the price
    in cents), hands it to the payment provider and passes on its answer. In
    development a failed call is replaced by a test link whose id starts with
    `test-`. The provider's answer, the clock and the random suffix are
    parameters. */
module PaymentLink {
  import opened Text
  import opened Json
  import Utf8
  import Auth
  import UriComponent

  /** The environment variables the route reads: `BRYTEWIRE_API_KEY`,
      whether `NODE_ENV` is `"development"`, and `NEXT_PUBLIC_BASE_URL`. */
  datatype Env = Env(apiKey: Option<string>, development: bool, baseUrl: Option<string>)

  /** What the call to the provider came to. */
  datatype Upstream =
    | Unreachable(message: string)      // `fetch` threw, with this message
    | Refused(status: int, text: string) // a reply that is not OK, with its body text
    | Garbled(message: string)          // an OK reply whose body is not JSON
    | Answered(body: Body)              // an OK reply with a JSON object

  /** The JSON object posted to the provider. `amount` is `None` when the
      price is not a JSON number. */
  datatype Payload = Payload(
    authToken: string, name: Json, description: string, amount: Option<int>,
    currency: string, apiKey: string, successUrl: string, cancelUrl: string)

  /** The success reply: `paymentLink`, `paymentLinkId`, `testMode` (absent
      reads as false) and `note`. */
  datatype Link = Link(paymentLink: Json, paymentLinkId: Json, testMode: bool, note: Option<string>)

  /** The payload the route sent to the provider, if any, and its reply. */
  datatype Outcome = Outcome(request: Option<Payload>, reply: Response<Link>)

  const KeyMissing := "BryteWire API key not configured in environment variables"
  const FieldsMissing := "Missing required fields: eventName and price are required"
  const InternalError := "Internal server error"
  const ConnectFailed := "Failed to connect to BryteWire API"
  const DefaultReturnUrl := "https://eplsoccertours.com/events"
  const PayHost := "https://pay.brytewire.com/"
  const CallFailedNote := "This is a test payment link (API call failed)"
  const ConnectionFailedNote := "This is a test payment link (API connection failed)"
  /** Stands for the message of the TypeError thrown when `description` is
      neither a string nor nullish. */
  const DescriptionTypeError := "description.substring is not a function"

  /** `s.substring(0, n)`. */
  function Take(s: string, n: nat): (r: string)
    ensures |r| <= n && StartsWith(s, r)
    ensures |s| <= n ==> r == s
    ensures |s| > n ==> |r| == n
  {
    if |s| <= n then s else s[..n]
  }

  /** The date range of the description: both dates formatted and joined by
      `" - "` when both are present, `"Dates TBD"` otherwise. `formatDate`
      stands for `new Date(v).toLocaleDateString("en-US", …)`. */
  function DateRange(startDate: Json, endDate: Json, formatDate: Json -> string): (r: string)
    ensures Truthy(startDate) && Truthy(endDate) ==> r == formatDate(startDate) + " - " + formatDate(endDate)
    ensures !Truthy(startDate) || !Truthy(endDate) ==> r == "Dates TBD"
  {
    var first := if Truthy(startDate) then formatDate(startDate) else "TBD";
    var last := if Truthy(endDate) then formatDate(endDate) else "TBD";
    if Truthy(startDate) && Truthy(endDate) then first + " - " + last else "Dates TBD"
  }

  /** `${description?.substring(0, 100) || eventName} (${dateRange})`.
      `None` when `description` is neither a string nor nullish: calling
      `substring` on it throws. */
  function Description(description: Json, eventName: Json, dateRange: string): (r: Option<string>)
    ensures r.Some? <==> description.JStr? || description.JUndefined? || description.JNull?
    ensures r.Some? ==> EndsWith(r.value, " (" + dateRange + ")")
  {
    var lead :=
      match description
      case JStr(s) => Some(Or(JStr(Take(s, 100)), eventName))
      case JUndefined => Some(eventName)
      case JNull => Some(eventName)
      case _ => None;
    if lead.None? then None
    else
      var d := Render(lead.value) + " (" + dateRange + ")";
      assert d[|d| - |" (" + dateRange + ")"|..] == " (" + dateRange + ")";
      Some(d)
  }

  /** A truthy scalar renders to a non-empty text; an empty array is truthy
      and renders to nothing. */
  lemma RenderTruthy(v: Json)
    requires Truthy(v) && !v.JOther?
    ensures Render(v) != ""
  {
  }

  /** What precedes the date range: the first 100 characters of a non-empty
      description, otherwise the event name, which the route has checked to
      be present, so it is never empty unless the name is an array that
      renders to nothing, such as `[]`. */
  lemma DescriptionLead(description: Json, eventName: Json, dateRange: string)
    requires Truthy(eventName)
    requires description.JStr? || description.JUndefined? || description.JNull?
    ensures var d := Description(description, eventName, dateRange).value;
      var lead := d[..|d| - |" (" + dateRange + ")"|];
      && (Truthy(description) || !eventName.JOther? ==> lead != "")
      && (description.JStr? && description.s != "" ==> lead == Take(description.s, 100) && |lead| <= 100)
      && (!Truthy(description) ==> lead == Render(eventName))
  {
    var tail := " (" + dateRange + ")";
    var leadJ := if description.JStr? && description.s != "" then JStr(Take(description.s, 100)) else eventName;
    assert Description(description, eventName, dateRange) == Some(Render(leadJ) + " (" + dateRange + ")") by {
      if description.JStr? && description.s != "" {
        assert Take(description.s, 100) != "";
        assert Or(JStr(Take(description.s, 100)), eventName) == leadJ;
      } else if description.JStr? {
        assert Or(JStr(Take(description.s, 100)), eventName) == eventName;
      }
    }
    var d := Render(leadJ) + " (" + dateRange + ")";
    assert d == Render(leadJ) + tail;
    assert d[..|d| - |tail|] == Render(leadJ);
    if !eventName.JOther? {
      RenderTruthy(eventName);
    }
  }

  /** `parseFloat(price) * 100` for a price that is a JSON number. */
  function Amount(price: Json): (cents: Option<int>)
    ensures cents.Some? <==> price.JNum?
    ensures cents.Some? ==> cents.value / 100 == price.n && cents.value % 100 == 0
  {
    if price.JNum? then Some(price.n * 100) else None
  }

  /** `NEXT_PUBLIC_BASE_URL || "https://eplsoccertours.com/events"`. */
  function ReturnUrl(env: Env): string
  {
    if Auth.Configured(env.baseUrl) then env.baseUrl.value else DefaultReturnUrl
  }

  /** The payload built from the request body, or `None` when building the
      description throws. */
  function PayloadFor(body: Body, env: Env, formatDate: Json -> string): (p: Option<Payload>)
    requires Auth.Configured(env.apiKey)
    ensures p.Some? <==> Description(Field(body, "description"), Field(body, "eventName"),
                                     DateRange(Field(body, "startDate"), Field(body, "endDate"), formatDate)).Some?
    ensures p.Some? ==> (
      && p.value.name == Field(body, "eventName")
      && p.value.amount == Amount(Field(body, "price"))
      && p.value.currency == "USD"
      && p.value.authToken == p.value.apiKey == env.apiKey.value
      && p.value.successUrl == p.value.cancelUrl == ReturnUrl(env)
      && EndsWith(p.value.description,
                  " (" + DateRange(Field(body, "startDate"), Field(body, "endDate"), formatDate) + ")"))
  {
    var eventName := Field(body, "eventName");
    var range := DateRange(Field(body, "startDate"), Field(body, "endDate"), formatDate);
    match Description(Field(body, "description"), eventName, range)
    case None => None
    case Some(d) =>
      var back := ReturnUrl(env);
      Some(Payload(env.apiKey.value, eventName, d, Amount(Field(body, "price")), "USD",
                   env.apiKey.value, back, back))
  }

  /** `` `test-${Date.now()}-${random}` ``, with the clock and the random
      suffix as parameters. */
  function TestId(now: nat, random: string): string
  {
    "test-" + (NatToString(now) + "-" + random)
  }

  /** The test link: the id, then the price and the percent-encoded
      (`encodeURIComponent`) event name as query parameters. */
  function TestUrl(testId: string, price: Json, eventName: Json): string
  {
    PayHost + testId + "?amount=" + (Render(price) + "&name=" + UriComponent.Encode(Render(eventName)))
  }

  /** The development stand-in for the provider's answer. */
  function Fallback(price: Json, eventName: Json, now: nat, random: string, note: string): Link
  {
    var id := TestId(now, random);
    Link(JStr(TestUrl(id, price, eventName)), JStr(id), true, Some(note))
  }

  /** The inner `catch`: the development fallback, or 500 with the message. */
  function Caught(env: Env, price: Json, eventName: Json, now: nat, random: string, message: string): Response<Link>
  {
    if env.development then Success(Fallback(price, eventName, now, random, ConnectionFailedNote))
    else Failure(500, ConnectFailed, Some(message))
  }

  /** How the route answers once the payload has gone out. */
  function Answer(env: Env, price: Json, eventName: Json, upstream: Upstream, now: nat, random: string): Response<Link>
  {
    match upstream
    case Unreachable(message) => Caught(env, price, eventName, now, random, message)
    case Garbled(message) => Caught(env, price, eventName, now, random, message)
    case Refused(status, text) =>
      if env.development then Success(Fallback(price, eventName, now, random, CallFailedNote))
      else Failure(status, "BryteWire API error: " + text, Some("Status code: " + IntToString(status)))
    case Answered(body) =>
      Success(Link(Or(Or(Field(body, "url"), Field(body, "payment_url")), Field(body, "link")),
                   Or(Field(body, "id"), Field(body, "payment_id")), false, None))
  }

  /** The route: credentials, then the API key, then the body, then the two
      required fields; only then is a payload built and sent. */
  function Generate(header: Option<string>, config: Auth.Config, env: Env, req: JsonRequest,
                    formatDate: Json -> string, upstream: Upstream, now: nat, random: string): (o: Outcome)
    ensures !Auth.CheckAuth(header, config) ==> o == Outcome(None, Fail(401, Unauthorized))
    ensures Auth.CheckAuth(header, config) && !Auth.Configured(env.apiKey)
         ==> o == Outcome(None, Fail(500, KeyMissing))
    ensures Auth.CheckAuth(header, config) && Auth.Configured(env.apiKey) && !req.Parsed?
         ==> o == Outcome(None, Fail(500, InternalError))
    ensures (Auth.CheckAuth(header, config) && Auth.Configured(env.apiKey) && req.Parsed?
             && (!Truthy(Field(req.body, "eventName")) || !Truthy(Field(req.body, "price"))))
         ==> o == Outcome(None, Fail(400, FieldsMissing))
    ensures o.request.Some? <==> (
      && Auth.CheckAuth(header, config) && Auth.Configured(env.apiKey) && req.Parsed?
      && Truthy(Field(req.body, "eventName")) && Truthy(Field(req.body, "price"))
      && PayloadFor(req.body, env, formatDate).Some?)
    ensures o.request.Some? ==> o.request == PayloadFor(req.body, env, formatDate)
  {
    if !Auth.CheckAuth(header, config) then Outcome(None, Fail(401, Unauthorized))
    else if !Auth.Configured(env.apiKey) then Outcome(None, Fail(500, KeyMissing))
    else if !req.Parsed? then Outcome(None, Fail(500, InternalError))
    else
      var eventName, price := Field(req.body, "eventName"), Field(req.body, "price");
      if !Truthy(eventName) || !Truthy(price) then Outcome(None, Fail(400, FieldsMissing))
      else
        match PayloadFor(req.body, env, formatDate)
        case None => Outcome(None, Caught(env, price, eventName, now, random, DescriptionTypeError))
        case Some(p) => Outcome(Some(p), Answer(env, price, eventName, upstream, now, random))
  }

  /** A link `host + id + query + tail` whose id starts with `pre`. */
  lemma LinkParts(host: string, pre: string, mid: string, query: string, tail: string)
    ensures var id := pre + mid;
      var url := host + id + query + tail;
      StartsWith(id, pre) && StartsWith(url, host + id + query) && Contains(url, pre)
  {
    var id := pre + mid;
    var url := host + id + query + tail;
    assert id[..|pre|] == pre;
    assert url[..|host + id + query|] == host + id + query;
    assert url[|host|..|host| + |pre|] == pre;
    assert OccursAt(url, pre, |host|);
  }

  /** Every test link carries an id starting with `test-`, so the link
      contains `test-`; the link starts with the host and that id. */
  lemma FallbackIsTestLink(price: Json, eventName: Json, now: nat, random: string, note: string)
    ensures var l := Fallback(price, eventName, now, random, note);
      && l.testMode && l.paymentLink.JStr? && l.paymentLinkId.JStr?
      && StartsWith(l.paymentLinkId.s, "test-")
      && StartsWith(l.paymentLink.s, PayHost + l.paymentLinkId.s + "?amount=")
      && Contains(l.paymentLink.s, "test-")
  {
    LinkParts(PayHost, "test-", NatToString(now) + "-" + random, "?amount=",
              Render(price) + "&name=" + UriComponent.Encode(Render(eventName)));
  }

  /** The event name travels in the last query parameter of a test link; its
      encoding holds no `&`, `=` or `#`, so the parameter ends the link, and
      percent-decoding it gives back the name's UTF-8 bytes. */
  lemma FallbackCarriesName(price: Json, eventName: Json, now: nat, random: string, note: string)
    ensures var u := Fallback(price, eventName, now, random, note).paymentLink.s;
      var e := UriComponent.Encode(Render(eventName));
      && EndsWith(u, "&name=" + e)
      && '&' !in e && '=' !in e && '#' !in e
      && UriComponent.Decode(e) == Some(Utf8.Encode(Render(eventName)))
  {
    var name := Render(eventName);
    var e := UriComponent.Encode(name);
    var u := Fallback(price, eventName, now, random, note).paymentLink.s;
    assert u == TestUrl(TestId(now, random), price, eventName);
    QueryEndsWithName(PayHost + TestId(now, random) + "?amount=", Render(price), e);
    UriComponent.EncodedIsQuerySafe(name);
    UriComponent.DecodeEncode(name);
  }

  lemma QueryEndsWithName(head: string, amount: string, e: string)
    ensures EndsWith(head + (amount + "&name=" + e), "&name=" + e)
  {
    var u := head + (amount + "&name=" + e);
    assert u == (head + amount) + ("&name=" + e);
    assert u[|u| - |"&name=" + e|..] == "&name=" + e;
  }

  /** A reply in test mode is produced only in development, and its link is
      a test link. */
  lemma TestModeOnlyInDevelopment(header: Option<string>, config: Auth.Config, env: Env, req: JsonRequest,
                                  formatDate: Json -> string, upstream: Upstream, now: nat, random: string)
    ensures var r := Generate(header, config, env, req, formatDate, upstream, now, random).reply;
      r.Success? && r.value.testMode ==>
        env.development && r.value.paymentLink.JStr? && Contains(r.value.paymentLink.s, "test-")
  {
    var r := Generate(header, config, env, req, formatDate, upstream, now, random).reply;
    if r.Success? && r.value.testMode {
      var price, eventName := Field(req.body, "price"), Field(req.body, "eventName");
      FallbackIsTestLink(price, eventName, now, random, CallFailedNote);
      FallbackIsTestLink(price, eventName, now, random, ConnectionFailedNote);
    }
  }

  /** Once the payload has gone out, any failure of the call (no answer, an
      answer that is not OK, or one whose body is not JSON) becomes a test
      link in development; outside development a transport failure is 500
      with the error's message. */
  lemma FailedCallFallsBack(env: Env, price: Json, eventName: Json, upstream: Upstream, now: nat, random: string)
    requires !upstream.Answered?
    ensures var r := Answer(env, price, eventName, upstream, now, random);
      && (r.Success? <==> env.development)
      && (r.Success? ==> r.value.testMode && r.value.paymentLink.JStr? && Contains(r.value.paymentLink.s, "test-")
                         && r.value.paymentLinkId == JStr(TestId(now, random)))
      && (!env.development && !upstream.Refused? ==> r == Failure(500, ConnectFailed, Some(upstream.message)))
  {
    FallbackIsTestLink(price, eventName, now, random, CallFailedNote);
    FallbackIsTestLink(price, eventName, now, random, ConnectionFailedNote);
  }

  /** Outside development a refusal from the provider is passed on with the
      provider's own status code. */
  lemma RefusalPassedOn(header: Option<string>, config: Auth.Config, env: Env, req: JsonRequest,
                        formatDate: Json -> string, upstream: Upstream, now: nat, random: string)
    requires upstream.Refused? && !env.development
    ensures var o := Generate(header, config, env, req, formatDate, upstream, now, random);
      o.request.Some? ==>
        o.reply == Failure(upstream.status, "BryteWire API error: " + upstream.text,
                           Some("Status code: " + IntToString(upstream.status)))
  {
  }

  /** With an OK answer the link is the first truthy one of `url`,
      `payment_url` and `link` (the last one when none is), and the reply is
      not in test mode. */
  lemma LinkIsFirstTruthy(env: Env, price: Json, eventName: Json, body: Body, now: nat, random: string)
    ensures var r := Answer(env, price, eventName, Answered(body), now, random);
      && r.Success? && !r.value.testMode
      && (Truthy(Field(body, "url")) ==> r.value.paymentLink == Field(body, "url"))
      && (!Truthy(Field(body, "url")) && Truthy(Field(body, "payment_url"))
          ==> r.value.paymentLink == Field(body, "payment_url"))
      && (!Truthy(Field(body, "url")) && !Truthy(Field(body, "payment_url"))
          ==> r.value.paymentLink == Field(body, "link"))
  {
  }
}
