/** The admin console's event editor: a login kept in local storage, a form
    that is either creating a new event or editing an existing one, a button
    that asks the server for a payment link, and a submit that routes to the
    add or the update endpoint. The server's replies are parameters; where a
    reply comes from a route modelled elsewhere, lemmas tie the two. */
module AdminEvents {
  import opened Text
  import opened Json
  import Utf8
  import Auth
  import EventStore
  import PaymentLink

  /** `formData`. `paymentLink` holds whatever the link generator returned,
      so it is a JSON value; the numbers are integers. */
  datatype EventForm = EventForm(
    name: string, description: string, pricePerPerson: int, coverImage: string,
    paymentLink: Json, startDate: string, endDate: string, minAge: int, maxAge: int)

  /** The empty form, used initially and after every reset. */
  const InitialForm := EventForm("", "", 0, "", JStr(""), "", "", 0, 99)

  const AdminUserKey := "admin_username"
  const AdminPassKey := "admin_password"

  /** How a credential check ended, seen from the console. */
  datatype Verdict = Accepted | Rejected | Errored

  /** The check of a user name and password: `btoa` throws on a character
      beyond U+00FF and an unreachable server makes `fetch` throw (both
      `Errored`); otherwise the server's `POST /api/auth/verify` decides. */
  function LoginVerdict(u: string, p: string, config: Auth.Config, reachable: bool): (v: Verdict)
    ensures v == Accepted <==> reachable && Auth.ClientHeader(u, p).Some? && Auth.CheckAuth(Auth.ClientHeader(u, p), config)
    ensures v == Errored <==> !reachable || Auth.ClientHeader(u, p).None?
  {
    match Auth.ClientHeader(u, p)
    case None => Errored
    case Some(h) =>
      if !reachable then Errored
      else if Auth.VerifyPost(Some(h), config).Success? then Accepted
      else Rejected
  }

  /** With ASCII credentials and a reachable server, the console gets in
      exactly when its joined user-pass string is the configured one. */
  lemma LoginAcceptedIff(u: string, p: string, config: Auth.Config)
    requires Auth.Configured(config.username) && Auth.Configured(config.password)
    requires Utf8.IsAscii(Auth.UserPass(u, p))
    ensures LoginVerdict(u, p, config, true) == Accepted
        <==> Auth.UserPass(u, p) == Auth.UserPass(config.username.value, config.password.value)
  {
    Auth.ClientHeaderAccepted(config, u, p);
  }

  function LoginMessage(v: Verdict): string
  {
    match v
    case Accepted => ""
    case Rejected => "Invalid credentials"
    case Errored => "Error during authentication"
  }

  /** Local storage after a login: the credentials are kept only when they
      were accepted. */
  function Remember(storage: map<string, string>, u: string, p: string, v: Verdict): (s: map<string, string>)
    ensures v == Accepted ==> AdminUserKey in s && s[AdminUserKey] == u && AdminPassKey in s && s[AdminPassKey] == p
    ensures v == Accepted ==> forall k :: k in storage && k != AdminUserKey && k != AdminPassKey ==> k in s && s[k] == storage[k]
    ensures v != Accepted ==> s == storage
  {
    if v == Accepted then storage[AdminUserKey := u][AdminPassKey := p] else storage
  }

  /** A stored credential counts when it is present and not empty. */
  function Stored(storage: map<string, string>, key: string): Option<string>
  {
    if key in storage && storage[key] != "" then Some(storage[key]) else None
  }

  /** The fields the generator pre-check finds missing, in the order it
      pushes them: the name when empty, the price when not positive. */
  function MissingForLink(f: EventForm): (missing: seq<string>)
    ensures "event name" in missing <==> f.name == ""
    ensures "price per person" in missing <==> f.pricePerPerson <= 0
    ensures |missing| <= 2 && (|missing| == 2 ==> missing == ["event name", "price per person"])
    ensures missing == [] <==> f.name != "" && f.pricePerPerson > 0
  {
    (if f.name == "" then ["event name"] else []) + (if f.pricePerPerson <= 0 then ["price per person"] else [])
  }

  /** `items.join(sep)`. */
  function Join(items: seq<string>, sep: string): string
  {
    if items == [] then ""
    else if |items| == 1 then items[0]
    else items[0] + sep + Join(items[1..], sep)
  }

  const FillInPrefix := "Please fill in required fields: "

  /** The body of the link request: the description falls back to the name,
      each date to the current time (`nowIso`, an ISO-8601 text). */
  function LinkRequest(f: EventForm, nowIso: string): (body: Body)
    ensures Field(body, "eventName") == JStr(f.name) && Field(body, "price") == JNum(f.pricePerPerson)
    ensures Field(body, "description") == JStr(if f.description != "" then f.description else f.name)
    ensures Field(body, "startDate") == JStr(if f.startDate != "" then f.startDate else nowIso)
    ensures Field(body, "endDate") == JStr(if f.endDate != "" then f.endDate else nowIso)
  {
    map["eventName" := JStr(f.name),
        "description" := JStr(if f.description != "" then f.description else f.name),
        "price" := JNum(f.pricePerPerson),
        "startDate" := JStr(if f.startDate != "" then f.startDate else nowIso),
        "endDate" := JStr(if f.endDate != "" then f.endDate else nowIso)]
  }

  /** A request that passed the pre-check also passes the generator route's
      own checks: the route sends a payload exactly when the credentials and
      the API key are in order, and its description carries both formatted
      dates rather than "Dates TBD". */
  lemma LinkRequestPassesRoute(f: EventForm, nowIso: string, header: Option<string>, config: Auth.Config,
                               env: PaymentLink.Env, formatDate: Json -> string, upstream: PaymentLink.Upstream,
                               now: nat, random: string)
    requires MissingForLink(f) == [] && nowIso != ""
    ensures var body := LinkRequest(f, nowIso);
      var o := PaymentLink.Generate(header, config, env, Parsed(body), formatDate, upstream, now, random);
      && (o.request.Some? <==> Auth.CheckAuth(header, config) && Auth.Configured(env.apiKey))
      && PaymentLink.DateRange(Field(body, "startDate"), Field(body, "endDate"), formatDate)
         == formatDate(Field(body, "startDate")) + " - " + formatDate(Field(body, "endDate"))
  {
  }

  const GenerateFailedPrefix := "Error generating payment link: "
  const ConnectError := "Error connecting to payment API"
  const TestLinkMessage := "Test payment link generated. This will NOT process real payments."
  const LinkMessage := "Payment link generated successfully!"

  /** `JSON.stringify(formData)` as the routes read it. */
  function FormBody(f: EventForm): (body: Body)
    ensures Field(body, "name") == JStr(f.name) && Field(body, "description") == JStr(f.description)
    ensures Field(body, "pricePerPerson") == JNum(f.pricePerPerson) && Field(body, "coverImage") == JStr(f.coverImage)
    ensures Field(body, "startDate") == JStr(f.startDate) && Field(body, "endDate") == JStr(f.endDate)
    ensures Field(body, "minAge") == JNum(f.minAge) && Field(body, "maxAge") == JNum(f.maxAge)
    ensures Field(body, "paymentLink") == f.paymentLink && Field(body, "id") == JUndefined
  {
    var fixed := map["name" := JStr(f.name), "description" := JStr(f.description),
                     "pricePerPerson" := JNum(f.pricePerPerson), "coverImage" := JStr(f.coverImage),
                     "startDate" := JStr(f.startDate), "endDate" := JStr(f.endDate),
                     "minAge" := JNum(f.minAge), "maxAge" := JNum(f.maxAge)];
    // `JSON.stringify` drops a property whose value is `undefined`
    if f.paymentLink.JUndefined? then fixed else fixed["paymentLink" := f.paymentLink]
  }

  /** The create and update routes accept a form's body exactly when the six
      required inputs are filled in (a price of 0 counts as empty). */
  lemma FormBodyComplete(f: EventForm)
    ensures EventStore.FirstMissing(FormBody(f), EventStore.RequiredFields).None?
        <==> f.name != "" && f.description != "" && f.pricePerPerson != 0
             && f.coverImage != "" && f.startDate != "" && f.endDate != ""
  {
    var body, rf := FormBody(f), EventStore.RequiredFields;
    assert rf[0] == "name" && rf[1] == "description" && rf[2] == "pricePerPerson";
    assert rf[3] == "coverImage" && rf[4] == "startDate" && rf[5] == "endDate";
  }

  /** The body of a submit: the form, plus the id when editing. */
  function SubmitBody(f: EventForm, id: Option<int>): (body: Body)
    ensures id.Some? ==> Field(body, "id") == JNum(id.value)
    ensures id.None? ==> body == FormBody(f)
    ensures forall k :: k != "id" ==> Field(body, k) == Field(FormBody(f), k)
  {
    if id.Some? then FormBody(f)["id" := JNum(id.value)] else FormBody(f)
  }

  /** A submit in edit mode reaches the update route's lookup with the
      editing id, once the credentials are right and the form is complete. */
  lemma EditSubmitAddressesEvent(header: Option<string>, config: Auth.Config, f: EventForm, id: int)
    requires Auth.CheckAuth(header, config) && id != 0
    requires f.name != "" && f.description != "" && f.pricePerPerson != 0
    requires f.coverImage != "" && f.startDate != "" && f.endDate != ""
    ensures EventStore.CheckUpdate(header, config, Parsed(SubmitBody(f, Some(id)))) == Success(id)
  {
    var body := SubmitBody(f, Some(id));
    var rf := EventStore.RequiredFields;
    forall i | 0 <= i < |rf| ensures Truthy(Field(body, rf[i])) {
      FormBodyComplete(f);
      assert Field(body, rf[i]) == Field(FormBody(f), rf[i]);
    }
  }

  /** The form `handleEdit` fills in from a stored event; `isoDay` stands for
      `new Date(d).toISOString().split("T")[0]`. */
  function FormOf(e: EventStore.Event, isoDay: EventStore.Date -> string): (f: EventForm)
    ensures f.paymentLink == JStr(if e.fields.paymentLink.Some? then e.fields.paymentLink.value else "")
    ensures f.startDate == isoDay(e.fields.startDate) && f.endDate == isoDay(e.fields.endDate)
  {
    var x := e.fields;
    EventForm(x.name, x.description, x.pricePerPerson, x.coverImage,
              JStr(if x.paymentLink.Some? then x.paymentLink.value else ""),
              isoDay(x.startDate), isoDay(x.endDate), x.minAge, x.maxAge)
  }

  /** Editing an event and saving it unchanged writes back the same columns,
      provided the date reads back from its ISO day, except that a maximum
      age of 0 comes back as 99 (`maxAge || 99`). */
  lemma EditThenSave(e: EventStore.Event, isoDay: EventStore.Date -> string, toDate: Json -> Option<EventStore.Date>)
    requires toDate(JStr(isoDay(e.fields.startDate))) == Some(e.fields.startDate)
    requires toDate(JStr(isoDay(e.fields.endDate))) == Some(e.fields.endDate)
    requires e.fields.paymentLink != Some("")
    ensures var body := FormBody(FormOf(e, isoDay));
      && EventStore.ReadLink(Field(body, "paymentLink")) == Some(e.fields.paymentLink)
      && EventStore.ReadFields(body, toDate, e.fields.paymentLink)
         == Some(e.fields.(maxAge := if e.fields.maxAge == 0 then 99 else e.fields.maxAge))
  {
  }

  /** `/api/events/delete?id=${id}`. */
  function DeleteUrl(id: int): string
  {
    "/api/events/delete?id=" + IntToString(id)
  }

  /** The id the console writes into the delete URL is the one the delete
      route reads back. */
  lemma DeleteUrlRoundTrip(header: Option<string>, config: Auth.Config, id: nat)
    requires Auth.CheckAuth(header, config)
    ensures DeleteUrl(id) == "/api/events/delete?id=" + NatToString(id)
    ensures EventStore.CheckDelete(header, config, Some(IntToString(id))) == Success(id)
  {
    EventStore.DeleteIdRoundTrip(header, config, id);
  }

  /** A request as the console sends it. */
  datatype Request = Request(verb: string, url: string, body: Body)

  /** The reply to a submit or a delete: OK, refused with the reply's `error`
      property, or no readable reply (`fetch` or `response.json()` threw). */
  datatype Reply = Ok | Refused(error: Json) | Broken

  function SubmitError(editing: bool): string
  {
    "Error " + (if editing then "updating" else "creating") + " event"
  }

  /** The editor's state. */
  class AdminEventsPage {
    var isAuthenticated: bool
    var username: string
    var password: string
    var message: string
    var editingEventId: Option<int>
    var selectedFile: Option<string>
    var form: EventForm
    var storage: map<string, string>

    /** `!!editingEventId`: an id of 0 would count as not editing. */
    predicate IsEditing()
      reads this
    {
      editingEventId.Some? && editingEventId.value != 0
    }

    constructor(storage0: map<string, string>)
      ensures !isAuthenticated && username == "" && password == "" && message == ""
      ensures form == InitialForm && editingEventId == None && selectedFile == None
      ensures storage == storage0 && !IsEditing()
    {
      isAuthenticated, username, password, message := false, "", "", "";
      editingEventId, selectedFile, form := None, None, InitialForm;
      storage := storage0;
    }

    /** `handleLoginWithCredentials`. */
    method LoginWith(u: string, p: string, config: Auth.Config, reachable: bool)
      modifies this
      ensures var v := LoginVerdict(u, p, config, reachable);
        && isAuthenticated == (v == Accepted || old(isAuthenticated))
        && message == (if v == Accepted then "" else LoginMessage(v))
        && storage == Remember(old(storage), u, p, v)
      ensures username == old(username) && password == old(password)
      ensures form == old(form) && editingEventId == old(editingEventId) && selectedFile == old(selectedFile)
    {
      var v := LoginVerdict(u, p, config, reachable);
      if v == Accepted {
        isAuthenticated := true;
        storage := storage[AdminUserKey := u][AdminPassKey := p];
        message := "";
      } else {
        message := LoginMessage(v);
      }
    }

    /** `handleLogin`: the credentials typed into the form. */
    method Login(config: Auth.Config, reachable: bool)
      modifies this
      ensures var v := LoginVerdict(old(username), old(password), config, reachable);
        && isAuthenticated == (v == Accepted || old(isAuthenticated))
        && message == LoginMessage(v)
        && storage == Remember(old(storage), old(username), old(password), v)
      ensures username == old(username) && password == old(password)
      ensures form == old(form) && editingEventId == old(editingEventId) && selectedFile == old(selectedFile)
    {
      LoginWith(username, password, config, reachable);
    }

    /** The first effect: log in again with stored credentials, when both are
        there. */
    method RestoreSession(config: Auth.Config, reachable: bool)
      modifies this
      ensures var u, p := Stored(old(storage), AdminUserKey), Stored(old(storage), AdminPassKey);
        && (u.None? || p.None? ==>
              isAuthenticated == old(isAuthenticated) && message == old(message)
              && username == old(username) && password == old(password) && storage == old(storage))
        && (u.Some? && p.Some? ==>
              var v := LoginVerdict(u.value, p.value, config, reachable);
              && username == u.value && password == p.value
              && isAuthenticated == (v == Accepted || old(isAuthenticated))
              && message == LoginMessage(v)
              && storage == old(storage))
      ensures form == old(form) && editingEventId == old(editingEventId) && selectedFile == old(selectedFile)
    {
      var u, p := Stored(storage, AdminUserKey), Stored(storage, AdminPassKey);
      if u.Some? && p.Some? {
        username, password := u.value, p.value;
        LoginWith(u.value, p.value, config, reachable);
      }
    }

    /** `handleLogout`: both stored credentials and the typed ones are
        cleared, and the console is locked. */
    method Logout()
      modifies this
      ensures storage == old(storage) - {AdminUserKey, AdminPassKey}
      ensures AdminUserKey !in storage && AdminPassKey !in storage
      ensures username == "" && password == "" && !isAuthenticated
      ensures message == old(message) && form == old(form)
      ensures editingEventId == old(editingEventId) && selectedFile == old(selectedFile)
    {
      storage := storage - {AdminUserKey, AdminPassKey};
      username, password := "", "";
      isAuthenticated := false;
    }

    /** `handleFileChange`. */
    method ChooseFile(file: Option<string>)
      modifies this
      ensures selectedFile == file
      ensures form == old(form) && editingEventId == old(editingEventId) && message == old(message)
      ensures isAuthenticated == old(isAuthenticated) && storage == old(storage)
      ensures username == old(username) && password == old(password)
    {
      selectedFile := file;
    }

    /** `resetForm`: back to the empty form in create mode. */
    method ResetForm()
      modifies this
      ensures form == InitialForm && editingEventId == None && selectedFile == None && !IsEditing()
      ensures message == old(message) && isAuthenticated == old(isAuthenticated) && storage == old(storage)
      ensures username == old(username) && password == old(password)
    {
      form := InitialForm;
      editingEventId := None;
      selectedFile := None;
    }

    /** `handleEdit`: the event's columns go into the form, and the editor
        switches to that event. */
    method HandleEdit(e: EventStore.Event, isoDay: EventStore.Date -> string)
      modifies this
      ensures editingEventId == Some(e.id) && form == FormOf(e, isoDay)
      ensures message == "Editing event: " + e.fields.name
      ensures selectedFile == old(selectedFile) && isAuthenticated == old(isAuthenticated) && storage == old(storage)
      ensures username == old(username) && password == old(password)
    {
      editingEventId := Some(e.id);
      form := FormOf(e, isoDay);
      message := "Editing event: " + e.fields.name;
    }

    /** `handleCancelEdit`. */
    method CancelEdit()
      modifies this
      ensures form == InitialForm && editingEventId == None && selectedFile == None && message == ""
      ensures isAuthenticated == old(isAuthenticated) && storage == old(storage)
      ensures username == old(username) && password == old(password)
    {
      ResetForm();
      message := "";
    }

    /** `generateBryteWireLink`: the pre-check, then the request and the
        handling of its reply (`None` when `fetch` or `response.json()`
        threw). Returns the body sent, if any. */
    method GenerateLink(nowIso: string, reply: Option<Response<PaymentLink.Link>>) returns (sent: Option<Body>)
      modifies this
      ensures MissingForLink(old(form)) != [] ==>
        sent == None && form == old(form) && message == FillInPrefix + Join(MissingForLink(old(form)), ", ")
      ensures MissingForLink(old(form)) == [] && Auth.ClientHeader(username, password).None? ==>
        sent == None && form == old(form) && message == ConnectError
      ensures sent.Some? <==> MissingForLink(old(form)) == [] && Auth.ClientHeader(username, password).Some?
      ensures sent.Some? ==> sent.value == LinkRequest(old(form), nowIso)
      ensures sent.Some? && reply.None? ==> form == old(form) && message == ConnectError
      ensures sent.Some? && reply.Some? && reply.value.Success? ==>
        form == old(form).(paymentLink := reply.value.value.paymentLink)
        && message == (if reply.value.value.testMode then TestLinkMessage else LinkMessage)
      ensures sent.Some? && reply.Some? && reply.value.Failure? ==>
        form == old(form)
        && message == GenerateFailedPrefix + (if reply.value.error != "" then reply.value.error else "Unknown error")
      ensures editingEventId == old(editingEventId) && selectedFile == old(selectedFile)
      ensures isAuthenticated == old(isAuthenticated) && storage == old(storage)
      ensures username == old(username) && password == old(password)
    {
      if form.name == "" || form.pricePerPerson <= 0 {
        var missing: seq<string> := [];
        if form.name == "" {
          missing := missing + ["event name"];
        }
        if form.pricePerPerson <= 0 {
          missing := missing + ["price per person"];
        }
        message := FillInPrefix + Join(missing, ", ");
        return None;
      }
      message := "Generating payment link...";
      if Auth.ClientHeader(username, password).None? {
        message := ConnectError;
        return None;
      }
      sent := Some(LinkRequest(form, nowIso));
      match reply {
        case None =>
          message := ConnectError;
        case Some(Success(link)) =>
          form := form.(paymentLink := link.paymentLink);
          message := if link.testMode then TestLinkMessage else LinkMessage;
        case Some(Failure(_, error, _)) =>
          message := GenerateFailedPrefix + (if error != "" then error else "Unknown error");
      }
    }

    /** `handleSubmit`: POST to the add route when creating, PUT to the update
        route with the id when editing; an accepted submit resets the form.
        Returns the request sent, if any. */
    method Submit(reply: Reply) returns (sent: Option<Request>)
      modifies this
      ensures sent.Some? <==> Auth.ClientHeader(username, password).Some?
      ensures sent.Some? && !old(IsEditing()) ==>
        sent.value == Request("POST", "/api/events/add", FormBody(old(form)))
      ensures sent.Some? && old(IsEditing()) ==>
        sent.value == Request("PUT", "/api/events/update", SubmitBody(old(form), old(editingEventId)))
      ensures sent.Some? && reply.Ok? ==>
        && form == InitialForm && editingEventId == None && selectedFile == None && !IsEditing()
        && message == "Event " + (if old(IsEditing()) then "updated" else "created") + " successfully!"
      ensures sent.Some? && reply.Refused? ==>
        && form == old(form) && editingEventId == old(editingEventId) && selectedFile == old(selectedFile)
        && message == (if Truthy(reply.error) then Render(reply.error) else SubmitError(old(IsEditing())))
      ensures sent.None? || reply.Broken? ==>
        && form == old(form) && editingEventId == old(editingEventId) && selectedFile == old(selectedFile)
        && message == SubmitError(old(IsEditing()))
      ensures isAuthenticated == old(isAuthenticated) && storage == old(storage)
      ensures username == old(username) && password == old(password)
    {
      var editing := IsEditing();
      if Auth.ClientHeader(username, password).None? {
        message := SubmitError(editing);
        return None;
      }
      if editing {
        sent := Some(Request("PUT", "/api/events/update", SubmitBody(form, editingEventId)));
      } else {
        sent := Some(Request("POST", "/api/events/add", FormBody(form)));
      }
      match reply {
        case Ok =>
          message := "Event " + (if editing then "updated" else "created") + " successfully!";
          ResetForm();
        case Refused(error) =>
          message := if Truthy(error) then Render(error) else SubmitError(editing);
        case Broken =>
          message := SubmitError(editing);
      }
    }

    /** `handleDelete`: nothing happens unless the admin confirms. Returns the
        URL requested, if any. */
    method Delete(id: int, confirmed: bool, reply: Reply) returns (sent: Option<string>)
      modifies this
      ensures sent.Some? <==> confirmed && Auth.ClientHeader(username, password).Some?
      ensures sent.Some? ==> sent.value == DeleteUrl(id)
      ensures !confirmed ==> message == old(message)
      ensures confirmed && (sent.None? || reply.Broken?) ==> message == "Error deleting event"
      ensures sent.Some? && reply.Ok? ==> message == "Event deleted successfully!"
      ensures sent.Some? && reply.Refused? ==>
        message == (if Truthy(reply.error) then Render(reply.error) else "Error deleting event")
      ensures form == old(form) && editingEventId == old(editingEventId) && selectedFile == old(selectedFile)
      ensures isAuthenticated == old(isAuthenticated) && storage == old(storage)
      ensures username == old(username) && password == old(password)
    {
      if !confirmed {
        return None;
      }
      if Auth.ClientHeader(username, password).None? {
        message := "Error deleting event";
        return None;
      }
      sent := Some(DeleteUrl(id));
      match reply {
        case Ok =>
          message := "Event deleted successfully!";
        case Refused(error) =>
          message := if Truthy(error) then Render(error) else "Error deleting event";
        case Broken =>
          message := "Error deleting event";
      }
    }
  }
}
