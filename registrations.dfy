/** `POST /api/registrations/create`: the registration record is built from
    the posted payload, property by property, and appended to the
    registration table. The route checks no credentials and validates no
    field; a payload without a primary contact makes it throw. */
module Registrations {
  import opened Text
  import opened Json

  /** An instant, as `new Date(...)` yields it for a valid input. */
  type Date = int

  /** The payload's `primaryContact`: absent or `null` (reading a property of
      it throws), a scalar (its properties read as `undefined`), or an object
      with its own properties. */
  datatype Contact = Nullish | Scalar | Object(props: Body)

  /** A parsed payload: its top-level properties and its primary contact.
      Values the route copies without looking at them (such as the list of
      travellers) are carried as they are. */
  datatype Submission = Submission(data: Body, primaryContact: Contact)

  /** `await req.json()`: the payload, or a body that is not JSON or is
      `null`; reading the first property of the latter throws as well. */
  datatype Request = Unparsable | Parsed(submission: Submission)

  /** The columns written for one registration. */
  datatype Registration = Registration(
    eventId: Json, fullName: Json, email: Json, phone: Json,
    address: Json, city: Json, state: Json, zipCode: Json, country: Json,
    dateOfBirth: Date, emergencyContact: Json, emergencyPhone: Json,
    specialRequirements: Json, numberOfParticipants: Json, totalPrice: Json,
    transactionId: Json, travelers: Json, travelersSummary: Json,
    status: string, registrationDate: Date)

  const CreateError := "Error creating registration"
  const Confirmed := "CONFIRMED"

  /** `data.primaryContact[name]`; `None` when that throws. */
  function ContactField(c: Contact, name: string): (v: Option<Json>)
    ensures v.None? <==> c.Nullish?
    ensures c.Scalar? ==> v == Some(JUndefined)
  {
    match c
    case Nullish => None
    case Scalar => Some(JUndefined)
    case Object(props) => Some(Field(props, name))
  }

  /** The record the route hands to the store, or `None` when building it
      throws: no primary contact, or a date that is not valid (`toDate`
      stands for `new Date(...)`, which the store refuses when invalid). */
  function BuildRecord(s: Submission, toDate: Json -> Option<Date>): (r: Option<Registration>)
    ensures r.Some? <==>
      !s.primaryContact.Nullish? && toDate(Field(s.data, "dateOfBirth")).Some?
      && toDate(Field(s.data, "registrationDate")).Some?
    ensures r.Some? ==> (
      && r.value.status == Confirmed
      && Some(r.value.email) == ContactField(s.primaryContact, "email")
      && Some(r.value.phone) == ContactField(s.primaryContact, "phone")
      && r.value.numberOfParticipants == Field(s.data, "participants")
      && r.value.totalPrice == Field(s.data, "totalPrice")
      && r.value.transactionId == Field(s.data, "transactionId")
      && r.value.travelers == Field(s.data, "travelers")
      && r.value.travelersSummary == Field(s.data, "travelersSummary")
      && Some(r.value.dateOfBirth) == toDate(Field(s.data, "dateOfBirth"))
      && Some(r.value.registrationDate) == toDate(Field(s.data, "registrationDate")))
  {
    var d := s.data;
    var email := ContactField(s.primaryContact, "email");
    var phone := ContactField(s.primaryContact, "phone");
    var born := toDate(Field(d, "dateOfBirth"));
    var registered := toDate(Field(d, "registrationDate"));
    if email.None? || phone.None? || born.None? || registered.None? then None
    else
      Some(Registration(
        Field(d, "eventId"), Field(d, "fullName"), email.value, phone.value,
        Field(d, "address"), Field(d, "city"), Field(d, "state"), Field(d, "zipCode"), Field(d, "country"),
        born.value, Field(d, "emergencyContact"), Field(d, "emergencyPhone"),
        Field(d, "specialRequirements"), Field(d, "participants"), Field(d, "totalPrice"),
        Field(d, "transactionId"), Field(d, "travelers"), Field(d, "travelersSummary"),
        Confirmed, registered.value))
  }

  /** Whatever the payload says about its status, the record is confirmed,
      and the other top-level columns are copied under their own names. */
  lemma StatusAlwaysConfirmed(s: Submission, toDate: Json -> Option<Date>)
    requires BuildRecord(s, toDate).Some?
    ensures BuildRecord(s, toDate).value.status == Confirmed
    ensures var r := BuildRecord(s, toDate).value;
      && r.eventId == Field(s.data, "eventId") && r.fullName == Field(s.data, "fullName")
      && r.address == Field(s.data, "address") && r.city == Field(s.data, "city")
      && r.state == Field(s.data, "state") && r.zipCode == Field(s.data, "zipCode")
      && r.country == Field(s.data, "country") && r.emergencyContact == Field(s.data, "emergencyContact")
      && r.emergencyPhone == Field(s.data, "emergencyPhone")
      && r.specialRequirements == Field(s.data, "specialRequirements")
  {
  }

  /** An e-mail address or a phone number given at the top level of the
      payload is ignored: only the primary contact's count. */
  lemma TopLevelContactIgnored(s: Submission, toDate: Json -> Option<Date>, email: Json, phone: Json)
    requires BuildRecord(s, toDate).Some?
    ensures var t := s.(data := s.data["email" := email]["phone" := phone]);
      BuildRecord(t, toDate).Some?
      && BuildRecord(t, toDate).value.email == BuildRecord(s, toDate).value.email
      && BuildRecord(t, toDate).value.phone == BuildRecord(s, toDate).value.phone
  {
    var t := s.(data := s.data["email" := email]["phone" := phone]);
    assert Field(t.data, "dateOfBirth") == Field(s.data, "dateOfBirth");
    assert Field(t.data, "registrationDate") == Field(s.data, "registrationDate");
  }

  /** The registration table. */
  class RegistrationTable {
    var records: seq<Registration>

    constructor(initial: seq<Registration>)
      ensures records == initial
    {
      records := initial;
    }

    /** The route: the record is appended and returned, or nothing is
        stored and the reply is 500. */
    method Create(req: Request, toDate: Json -> Option<Date>) returns (r: Response<Registration>)
      modifies this
      ensures r.Success? <==> req.Parsed? && BuildRecord(req.submission, toDate).Some?
      ensures r.Success? ==> r.value == BuildRecord(req.submission, toDate).value && records == old(records) + [r.value]
      ensures r.Failure? ==> r == Fail(500, CreateError) && records == old(records)
    {
      if req.Unparsable? {
        return Fail(500, CreateError);
      }
      var built := BuildRecord(req.submission, toDate);
      if built.None? {
        return Fail(500, CreateError);
      }
      records := records + [built.value];
      r := Success(built.value);
    }
  }
}
