/** The event routes over the event table: add, update and delete are
    methods of an `EventRepository` holding the table as a map from id to
    event; get is a read of that map. Dates are opaque instants: `new Date(v)`
    is a parameter `toDate` that gives `None` for an invalid date. */
module EventStore {
  import opened Text
  import opened Json
  import Auth

  /** An instant; its only structure used here is its order. */
  type Date = int

  /** The columns of an event other than its id. */
  datatype Fields = Fields(
    name: string, description: string, pricePerPerson: int, coverImage: string,
    paymentLink: Option<string>, startDate: Date, endDate: Date, minAge: int, maxAge: int)

  datatype Event = Event(id: int, fields: Fields)

  // ---------------------------------------------------------------------
  // The required-field check
  // ---------------------------------------------------------------------

  const RequiredFields: seq<string> :=
    ["name", "description", "pricePerPerson", "coverImage", "startDate", "endDate"]

  /** `fields[i]` is falsy in the body and every field before it is truthy. */
  predicate IsFirstMissing(body: Body, fields: seq<string>, i: int)
  {
    0 <= i < |fields| && !Truthy(Field(body, fields[i])) &&
    forall j :: 0 <= j < i ==> Truthy(Field(body, fields[j]))
  }

  /** The first of `fields` whose value in the body is falsy. */
  function FirstMissing(body: Body, fields: seq<string>): (r: Option<string>)
    ensures r.None? <==> forall i :: 0 <= i < |fields| ==> Truthy(Field(body, fields[i]))
    ensures r.Some? ==> exists i :: IsFirstMissing(body, fields, i) && fields[i] == r.value
  {
    if fields == [] then None
    else if !Truthy(Field(body, fields[0])) then Some(fields[0])
    else
      var r := FirstMissing(body, fields[1..]);
      assert forall i :: 1 <= i < |fields| ==> fields[i] == fields[1..][i - 1];
      if r.Some? then
        var i :| IsFirstMissing(body, fields[1..], i) && fields[1..][i] == r.value;
        assert IsFirstMissing(body, fields, i + 1);
        r
      else r
  }

  /** The `for ... of` loop over the required fields, with its early return. */
  method MissingField(body: Body) returns (missing: Option<string>)
    ensures missing == FirstMissing(body, RequiredFields)
  {
    var i := 0;
    while i < |RequiredFields|
      invariant 0 <= i <= |RequiredFields|
      invariant FirstMissing(body, RequiredFields) == FirstMissing(body, RequiredFields[i..])
    {
      var field := RequiredFields[i];
      if !Truthy(Field(body, field)) {
        return Some(field);
      }
      assert RequiredFields[i..][1..] == RequiredFields[i + 1..];
      i := i + 1;
    }
    return None;
  }

  function MissingMessage(field: string): string
  {
    "Missing required field: " + field
  }

  // ---------------------------------------------------------------------
  // Reading the columns from a body
  // ---------------------------------------------------------------------

  function AsText(v: Json): Option<string>
  {
    if v.JStr? then Some(v.s) else None
  }

  function AsInt(v: Json): Option<int>
  {
    if v.JNum? then Some(v.n) else None
  }

  /** The columns the store is handed: `minAge || 0`, `maxAge || 99`, dates
      through `new Date`. `None` when a value is not of its column's type (or
      is an invalid date), which the store refuses by throwing. */
  function ReadFields(body: Body, toDate: Json -> Option<Date>, paymentLink: Option<string>): (r: Option<Fields>)
    ensures r.Some? <==>
      && Field(body, "name").JStr? && Field(body, "description").JStr?
      && Field(body, "pricePerPerson").JNum? && Field(body, "coverImage").JStr?
      && toDate(Field(body, "startDate")).Some? && toDate(Field(body, "endDate")).Some?
      && (Truthy(Field(body, "minAge")) ==> Field(body, "minAge").JNum?)
      && (Truthy(Field(body, "maxAge")) ==> Field(body, "maxAge").JNum?)
    ensures r.Some? ==> r.value.paymentLink == paymentLink
    ensures r.Some? && Truthy(Field(body, "minAge")) ==> Field(body, "minAge") == JNum(r.value.minAge)
    ensures r.Some? && !Truthy(Field(body, "minAge")) ==> r.value.minAge == 0
    ensures r.Some? && Truthy(Field(body, "maxAge")) ==> Field(body, "maxAge") == JNum(r.value.maxAge)
    ensures r.Some? && !Truthy(Field(body, "maxAge")) ==> r.value.maxAge == 99
    ensures r.Some? ==> Some(r.value.startDate) == toDate(Field(body, "startDate"))
    ensures r.Some? ==> Some(r.value.endDate) == toDate(Field(body, "endDate"))
    ensures r.Some? ==> Field(body, "name") == JStr(r.value.name) && Field(body, "pricePerPerson") == JNum(r.value.pricePerPerson)
    ensures r.Some? ==> Field(body, "description") == JStr(r.value.description) && Field(body, "coverImage") == JStr(r.value.coverImage)
  {
    var name := AsText(Field(body, "name"));
    var description := AsText(Field(body, "description"));
    var price := AsInt(Field(body, "pricePerPerson"));
    var cover := AsText(Field(body, "coverImage"));
    var start := toDate(Field(body, "startDate"));
    var end := toDate(Field(body, "endDate"));
    var minAge := AsInt(Or(Field(body, "minAge"), JNum(0)));
    var maxAge := AsInt(Or(Field(body, "maxAge"), JNum(99)));
    if name.None? || description.None? || price.None? || cover.None? || start.None? || end.None?
       || minAge.None? || maxAge.None? then None
    else Some(Fields(name.value, description.value, price.value, cover.value, paymentLink,
                     start.value, end.value, minAge.value, maxAge.value))
  }

  /** `paymentLink || null`, as the update route stores it; `None` when a
      truthy value is not text. */
  function ReadLink(v: Json): (r: Option<Option<string>>)
    ensures !Truthy(v) ==> r == Some(None)
    ensures r.Some? && r.value.Some? ==> v == JStr(r.value.value) && r.value.value != ""
  {
    if !Truthy(v) then Some(None)
    else if v.JStr? then Some(Some(v.s))
    else None
  }

  // ---------------------------------------------------------------------
  // The checks of each route, before the store is touched
  // ---------------------------------------------------------------------

  const CreateError := "Error creating event"
  const UpdateError := "Error updating event"
  const DeleteError := "Error deleting event"
  const IdRequired := "Event ID is required"
  const NotFound := "Event not found"

  /** `POST /api/events/add` up to the store call: the columns to insert, or
      the reply. */
  function CheckAdd(header: Option<string>, config: Auth.Config, req: JsonRequest, toDate: Json -> Option<Date>): (r: Response<Fields>)
    ensures !Auth.CheckAuth(header, config) ==> r == Fail(401, Unauthorized)
    ensures Auth.CheckAuth(header, config) && !req.Parsed? ==> r == Fail(500, CreateError)
    ensures r.Success? <==>
      (Auth.CheckAuth(header, config) && req.Parsed? &&
       FirstMissing(req.body, RequiredFields).None? && ReadFields(req.body, toDate, None).Some?)
    ensures Auth.CheckAuth(header, config) && req.Parsed? && FirstMissing(req.body, RequiredFields).Some? ==>
      r == Fail(400, MissingMessage(FirstMissing(req.body, RequiredFields).value))
    ensures r.Success? ==> r.value.paymentLink.None?
  {
    if !Auth.CheckAuth(header, config) then Fail(401, Unauthorized)
    else if !req.Parsed? then Fail(500, CreateError)
    else
      var missing := FirstMissing(req.body, RequiredFields);
      if missing.Some? then Fail(400, MissingMessage(missing.value))
      else
        match ReadFields(req.body, toDate, None)
        case None => Fail(500, CreateError)
        case Some(f) => Success(f)
  }

  /** `PUT /api/events/update` up to the lookup: the id to look up, or the
      reply. The id is checked before the required fields. */
  function CheckUpdate(header: Option<string>, config: Auth.Config, req: JsonRequest): (r: Response<int>)
    ensures !Auth.CheckAuth(header, config) ==> r == Fail(401, Unauthorized)
    ensures Auth.CheckAuth(header, config) && !req.Parsed? ==> r == Fail(500, UpdateError)
    ensures Auth.CheckAuth(header, config) && req.Parsed? && !Truthy(Field(req.body, "id")) ==> r == Fail(400, IdRequired)
    ensures
      (Auth.CheckAuth(header, config) && req.Parsed? && Truthy(Field(req.body, "id")) &&
       FirstMissing(req.body, RequiredFields).Some?) ==>
      r == Fail(400, MissingMessage(FirstMissing(req.body, RequiredFields).value))
    ensures r.Success? <==>
      (Auth.CheckAuth(header, config) && req.Parsed? &&
       Field(req.body, "id").JNum? && Field(req.body, "id").n != 0 && FirstMissing(req.body, RequiredFields).None?)
    ensures r.Success? ==> Field(req.body, "id") == JNum(r.value)
  {
    if !Auth.CheckAuth(header, config) then Fail(401, Unauthorized)
    else if !req.Parsed? then Fail(500, UpdateError)
    else if !Truthy(Field(req.body, "id")) then Fail(400, IdRequired)
    else
      var missing := FirstMissing(req.body, RequiredFields);
      if missing.Some? then Fail(400, MissingMessage(missing.value))
      else if !Field(req.body, "id").JNum? then Fail(500, UpdateError)
      else Success(Field(req.body, "id").n)
  }

  /** `DELETE /api/events/delete` up to the lookup: the `id` query parameter
      (absent is `None`) read with `parseInt`, or the reply. */
  function CheckDelete(header: Option<string>, config: Auth.Config, id: Option<string>): (r: Response<int>)
    ensures !Auth.CheckAuth(header, config) ==> r == Fail(401, Unauthorized)
    ensures Auth.CheckAuth(header, config) && (id.None? || id.value == "") ==> r == Fail(400, IdRequired)
    ensures r.Success? <==> Auth.CheckAuth(header, config) && id.Some? && id.value != "" && ParseInt(id.value).Some?
    ensures r.Success? ==> Some(r.value) == ParseInt(id.value)
  {
    if !Auth.CheckAuth(header, config) then Fail(401, Unauthorized)
    else if id.None? || id.value == "" then Fail(400, IdRequired)
    else
      match ParseInt(id.value)
      case None => Fail(500, DeleteError)
      case Some(n) => Success(n)
  }

  /** Like `parseInt`, the delete route reads the leading number and ignores
      the rest, so `7x` addresses event 7. */
  lemma DeleteIdIgnoresSuffix(header: Option<string>, config: Auth.Config, n: nat, suffix: string)
    requires Auth.CheckAuth(header, config)
    requires suffix != [] && !IsDigit(suffix[0]) && (n == 0 ==> suffix[0] != 'x' && suffix[0] != 'X')
    ensures CheckDelete(header, config, Some(NatToString(n) + suffix)) == Success(n)
  {
    ParseIntIgnoresSuffix(n, suffix);
  }

  /** The id of every stored event, written out, addresses that event. */
  lemma DeleteIdRoundTrip(header: Option<string>, config: Auth.Config, n: nat)
    requires Auth.CheckAuth(header, config)
    ensures CheckDelete(header, config, Some(NatToString(n))) == Success(n)
  {
    ParseIntNatToString(n);
  }

  /** Zero, the empty string and a missing price all count as missing, and the
      fields are checked in order, so the first one missing is reported. */
  lemma FalsyPriceIsMissing(body: Body)
    requires forall i :: 0 <= i < 3 && i != 2 ==> Truthy(Field(body, RequiredFields[i]))
    requires Field(body, "pricePerPerson") in {JNum(0), JStr(""), JUndefined, JNull}
    ensures FirstMissing(body, RequiredFields) == Some("pricePerPerson")
  {
    assert RequiredFields[2] == "pricePerPerson";
    assert !Truthy(Field(body, RequiredFields[2]));
    var r := FirstMissing(body, RequiredFields);
    var i :| 0 <= i < |RequiredFields| && RequiredFields[i] == r.value &&
      !Truthy(Field(body, RequiredFields[i])) && forall j :: 0 <= j < i ==> Truthy(Field(body, RequiredFields[j]));
    assert i == 2;
  }

  /** `maxAge || 99` reads an explicit maximum age of 0 as absent, so it is
      stored as 99. */
  lemma AgeDefaults(body: Body, toDate: Json -> Option<Date>, link: Option<string>)
    requires ReadFields(body, toDate, link).Some?
    ensures Field(body, "maxAge") == JNum(0) ==> ReadFields(body, toDate, link).value.maxAge == 99
  {
  }

  /** A body with every column filled in, starting after it ends, for
      ages 50 to 10. */
  function ReversedRanges(): Body
  {
    map["name" := JStr("Camp"), "description" := JStr("Week"),
        "pricePerPerson" := JNum(500), "coverImage" := JStr("/uploads/c.png"),
        "startDate" := JNum(20), "endDate" := JNum(10), "minAge" := JNum(50), "maxAge" := JNum(10)]
  }

  function NumberDate(v: Json): Option<Date>
  {
    if v.JNum? then Some(v.n) else None
  }

  lemma ReversedRangesComplete()
    ensures FirstMissing(ReversedRanges(), RequiredFields).None?
  {
    var body := ReversedRanges();
    assert Field(body, "name") == JStr("Camp") && Field(body, "description") == JStr("Week");
    assert Field(body, "pricePerPerson") == JNum(500) && Field(body, "coverImage") == JStr("/uploads/c.png");
    assert Field(body, "startDate") == JNum(20) && Field(body, "endDate") == JNum(10);
    forall i | 0 <= i < |RequiredFields| ensures Truthy(Field(body, RequiredFields[i])) {
    }
  }

  lemma ReversedRangesRead()
    ensures ReadFields(ReversedRanges(), NumberDate, None)
         == Some(Fields("Camp", "Week", 500, "/uploads/c.png", None, 20, 10, 50, 10))
  {
  }

  /** Nothing orders the dates or the ages: an event that ends before it
      starts, for ages 50 to 10, is accepted as it is. */
  lemma NoRangeChecks(header: Option<string>, config: Auth.Config)
    requires Auth.CheckAuth(header, config)
    ensures var r := CheckAdd(header, config, Parsed(ReversedRanges()), NumberDate);
      r.Success? && r.value.startDate > r.value.endDate && r.value.minAge > r.value.maxAge
  {
    ReversedRangesComplete();
    ReversedRangesRead();
  }

  // ---------------------------------------------------------------------
  // The store
  // ---------------------------------------------------------------------

  class EventRepository {
    /** The event table, keyed by id. */
    var events: map<int, Event>
    /** The next id the table's auto-increment hands out. */
    var nextId: int

    ghost predicate Valid()
      reads this
    {
      nextId >= 1 && forall id :: id in events ==> events[id].id == id && 1 <= id < nextId
    }

    constructor()
      ensures Valid() && events == map[] && nextId == 1
    {
      events := map[];
      nextId := 1;
    }

    /** `POST /api/events/add`: when every check passes, exactly one event is
        inserted, under a fresh id, and returned; otherwise nothing changes. */
    method Add(header: Option<string>, config: Auth.Config, req: JsonRequest, toDate: Json -> Option<Date>)
      returns (r: Response<Event>)
      requires Valid()
      modifies this
      ensures Valid()
      ensures var c := CheckAdd(header, config, req, toDate);
        (c.Failure? ==> r == Propagate(c) && events == old(events) && nextId == old(nextId)) &&
        (c.Success? ==>
          r == Success(Event(old(nextId), c.value)) &&
          events == old(events)[old(nextId) := r.value] && nextId == old(nextId) + 1)
      ensures r.Success? ==> r.value.id !in old(events) && |events.Keys| == |old(events).Keys| + 1
    {
      if !Auth.CheckAuth(header, config) {
        return Fail(401, Unauthorized);
      }
      if !req.Parsed? {
        return Fail(500, CreateError);
      }
      var missing := MissingField(req.body);
      if missing.Some? {
        return Fail(400, MissingMessage(missing.value));
      }
      var fields := ReadFields(req.body, toDate, None);
      if fields.None? {
        return Fail(500, CreateError);
      }
      var event := Event(nextId, fields.value);
      events := events[nextId := event];
      nextId := nextId + 1;
      r := Success(event);
    }

    /** `PUT /api/events/update`: an unknown id answers 404 and changes
        nothing; a known one has all its columns replaced, keeps its id, and
        no other event changes. */
    method Update(header: Option<string>, config: Auth.Config, req: JsonRequest, toDate: Json -> Option<Date>)
      returns (r: Response<Event>)
      requires Valid()
      modifies this
      ensures Valid() && nextId == old(nextId)
      ensures var c := CheckUpdate(header, config, req);
        (c.Failure? ==> r == Propagate(c) && events == old(events)) &&
        (c.Success? && c.value !in old(events) ==> r == Fail(404, NotFound) && events == old(events))
      ensures r.Success? ==> var id := CheckUpdate(header, config, req).value;
        r.value.id == id && id in old(events) &&
        Some(r.value.fields) == (match ReadLink(Field(req.body, "paymentLink"))
                                 case None => None
                                 case Some(link) => ReadFields(req.body, toDate, link)) &&
        events == old(events)[id := r.value]
      ensures r.Failure? ==> events == old(events)
      ensures var c := CheckUpdate(header, config, req);
        c.Success? && c.value in old(events) ==>
          var link := ReadLink(Field(req.body, "paymentLink"));
          && (r.Success? <==> link.Some? && ReadFields(req.body, toDate, link.value).Some?)
          && (r.Failure? ==> r == Fail(500, UpdateError))
    {
      var c := CheckUpdate(header, config, req);
      if c.Failure? {
        return Propagate(c);
      }
      var id := c.value;
      if id !in events {
        return Fail(404, NotFound);
      }
      var link := ReadLink(Field(req.body, "paymentLink"));
      if link.None? {
        return Fail(500, UpdateError);
      }
      var fields := ReadFields(req.body, toDate, link.value);
      if fields.None? {
        return Fail(500, UpdateError);
      }
      var event := Event(id, fields.value);
      events := events[id := event];
      r := Success(event);
    }

    /** `DELETE /api/events/delete`: a known id is removed and nothing else
        is; afterwards the id is unknown, so a second delete answers 404. */
    method Delete(header: Option<string>, config: Auth.Config, id: Option<string>) returns (r: Response<bool>)
      requires Valid()
      modifies this
      ensures Valid() && nextId == old(nextId)
      ensures var c := CheckDelete(header, config, id);
        (c.Failure? ==> r == Propagate(c) && events == old(events)) &&
        (c.Success? && c.value !in old(events) ==> r == Fail(404, NotFound) && events == old(events)) &&
        (c.Success? && c.value in old(events) ==> r == Success(true) && events == old(events) - {c.value})
      ensures r.Success? ==> CheckDelete(header, config, id).value !in events
    {
      var c := CheckDelete(header, config, id);
      if c.Failure? {
        return Propagate(c);
      }
      if c.value !in events {
        return Fail(404, NotFound);
      }
      events := events - {c.value};
      r := Success(true);
    }
  }

  // ---------------------------------------------------------------------
  // Reading: GET /api/events/get
  // ---------------------------------------------------------------------

  predicate SortedByStart(es: seq<Event>)
  {
    forall i, j :: 0 <= i < j < |es| ==> es[i].fields.startDate <= es[j].fields.startDate
  }

  /** Every event in `es` starts no earlier than `d`. */
  predicate StartsFrom(es: seq<Event>, d: Date)
  {
    forall i :: 0 <= i < |es| ==> d <= es[i].fields.startDate
  }

  lemma StartsFromMultiset(a: seq<Event>, b: seq<Event>, d: Date)
    requires StartsFrom(b, d) && multiset(a) <= multiset(b)
    ensures StartsFrom(a, d)
  {
    forall i | 0 <= i < |a| ensures d <= a[i].fields.startDate {
      assert a[i] in multiset(a);
      assert a[i] in b;
    }
  }

  function InsertByStart(e: Event, es: seq<Event>): (r: seq<Event>)
    requires SortedByStart(es)
    ensures SortedByStart(r)
    ensures multiset(r) == multiset(es) + multiset{e}
  {
    if es == [] then [e]
    else if e.fields.startDate <= es[0].fields.startDate then [e] + es
    else
      var rest := InsertByStart(e, es[1..]);
      assert es == [es[0]] + es[1..];
      assert StartsFrom(es[1..] + [e], es[0].fields.startDate);
      assert multiset(rest) == multiset(es[1..] + [e]);
      StartsFromMultiset(rest, es[1..] + [e], es[0].fields.startDate);
      [es[0]] + rest
  }

  /** `orderBy: { startDate: "asc" }` over the rows as the table yields them;
      rows with equal start dates keep the table's order. */
  function SortByStart(rows: seq<Event>): (r: seq<Event>)
    ensures SortedByStart(r)
    ensures multiset(r) == multiset(rows)
  {
    if rows == [] then []
    else
      assert rows == [rows[0]] + rows[1..];
      InsertByStart(rows[0], SortByStart(rows[1..]))
  }

  /** `rows` is a scan of the table: each stored event exactly once. */
  ghost predicate Scans(rows: seq<Event>, events: map<int, Event>)
  {
    (forall id :: id in events ==> events[id].id == id) &&
    (forall i :: 0 <= i < |rows| ==> rows[i].id in events && events[rows[i].id] == rows[i]) &&
    (forall id :: id in events ==> events[id] in rows) &&
    (forall i, j :: 0 <= i < j < |rows| ==> rows[i].id != rows[j].id)
  }

  /** What the get route answers with. */
  datatype Found = One(event: Event) | All(events: seq<Event>)

  /** `GET /api/events/get`: one event when an `id` is given, else all of
      them by start date. `rows` is the table's scan. */
  function GetEvents(events: map<int, Event>, rows: seq<Event>, id: Option<string>): (r: Response<Found>)
    requires Scans(rows, events)
    ensures id.Some? && id.value != "" && ParseInt(id.value).None? ==> r == Fail(400, "Invalid event ID")
    ensures id.Some? && id.value != "" && ParseInt(id.value).Some? && ParseInt(id.value).value in events ==>
      r == Success(One(events[ParseInt(id.value).value]))
    ensures id.Some? && id.value != "" && ParseInt(id.value).Some? && ParseInt(id.value).value !in events ==>
      r == Fail(404, NotFound)
    ensures id.None? || id.value == "" ==> r.Success? && r.value.All?
    ensures r.Success? && r.value.All? ==> SortedByStart(r.value.events) && multiset(r.value.events) == multiset(rows)
  {
    if id.Some? && id.value != "" then
      match ParseInt(id.value)
      case None => Fail(400, "Invalid event ID")
      case Some(n) => if n in events then Success(One(events[n])) else Fail(404, NotFound)
    else Success(All(SortByStart(rows)))
  }

  /** The listing holds every stored event, once, and nothing else. */
  lemma ListingIsTheTable(events: map<int, Event>, rows: seq<Event>)
    requires Scans(rows, events)
    ensures var r := GetEvents(events, rows, None);
      r.Success? && r.value.All? &&
      (forall e :: e in r.value.events <==> e.id in events && events[e.id] == e) &&
      |r.value.events| == |events.Keys|
  {
    var listed := GetEvents(events, rows, None).value.events;
    assert forall e :: e in listed <==> e in multiset(rows);
    assert |listed| == |multiset(rows)| == |rows|;
    RowsCountKeys(rows, events);
  }

  function IdsOf(rows: seq<Event>): set<int>
  {
    set i | 0 <= i < |rows| :: rows[i].id
  }

  lemma {:induction false} DistinctIdsCount(rows: seq<Event>)
    requires forall i, j :: 0 <= i < j < |rows| ==> rows[i].id != rows[j].id
    ensures |IdsOf(rows)| == |rows|
    decreases |rows|
  {
    if rows != [] {
      var tail := rows[1..];
      assert IdsOf(rows) == {rows[0].id} + IdsOf(tail) by {
        forall x | x in IdsOf(rows) ensures x in {rows[0].id} + IdsOf(tail) {
          var i :| 0 <= i < |rows| && rows[i].id == x;
          if i > 0 { assert tail[i - 1].id == x; }
        }
        forall x | x in IdsOf(tail) ensures x in IdsOf(rows) {
          var i :| 0 <= i < |tail| && tail[i].id == x;
          assert rows[i + 1].id == x;
        }
      }
      assert rows[0].id !in IdsOf(tail);
      DistinctIdsCount(tail);
    }
  }

  lemma RowsCountKeys(rows: seq<Event>, events: map<int, Event>)
    requires Scans(rows, events)
    ensures |rows| == |events.Keys|
  {
    assert IdsOf(rows) == events.Keys by {
      forall id | id in events ensures id in IdsOf(rows) {
        var i :| 0 <= i < |rows| && rows[i] == events[id];
        assert rows[i].id == id;
      }
    }
    DistinctIdsCount(rows);
  }
}
