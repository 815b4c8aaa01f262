/** The payment confirmation page. The registration form leaves its payload
    in the local-storage slot `registration_data`; on load this page posts
    the payload to the registration route and empties the slot only once the
    record is stored, so a failed save can be retried from the same data. */
module PaymentSuccess {
  import opened Text
  import opened Json
  import Registrations

  const Slot := "registration_data"
  const NotFoundMessage := "Registration data not found"
  const SaveFailedMessage := "Error saving your registration. Please contact support."

  /** What the page shows: a spinner while loading, then the error, then the
      confirmation. */
  datatype View = Spinner | ErrorView(message: string) | Confirmation

  /** `localStorage.getItem(Slot)` as the `if (!registrationData)` test sees
      it: absent and empty both count as missing. */
  function SlotText(storage: map<string, string>): (t: Option<string>)
    ensures t.Some? <==> Slot in storage && storage[Slot] != ""
    ensures t.Some? ==> t.value == storage[Slot]
  {
    if Slot in storage && storage[Slot] != "" then Some(storage[Slot]) else None
  }

  class ConfirmationPage {
    var loading: bool
    var error: string
    var storage: map<string, string>

    constructor(storage0: map<string, string>)
      ensures loading && error == "" && storage == storage0
    {
      loading, error, storage := true, "", storage0;
    }

    /** The view the render picks: loading first, then a non-empty error. */
    function Shown(): (v: View)
      reads this
      ensures v == Spinner <==> loading
      ensures v == Confirmation <==> !loading && error == ""
    {
      if loading then Spinner else if error != "" then ErrorView(error) else Confirmation
    }

    /** `saveRegistration`, with the route run against `table`. `parse`
        stands for `JSON.parse` (`None` when it throws); `reachable` is false
        when `fetch` throws. Returns the payload posted, if any. */
    method SaveRegistration(table: Registrations.RegistrationTable,
                            parse: string -> Option<Registrations.Submission>,
                            toDate: Json -> Option<Registrations.Date>, reachable: bool)
      returns (posted: Option<Registrations.Submission>)
      modifies this, table
      ensures SlotText(old(storage)).None? ==>
        && posted == None && error == NotFoundMessage && loading == old(loading)
        && storage == old(storage) && table.records == old(table.records)
      ensures posted.Some? <==> (
        && SlotText(old(storage)).Some? && parse(SlotText(old(storage)).value).Some? && reachable)
      ensures posted.Some? ==> posted == parse(SlotText(old(storage)).value)
      ensures SlotText(old(storage)).Some? ==> !loading
      ensures (
        && SlotText(old(storage)).Some? && posted.Some?
        && Registrations.BuildRecord(posted.value, toDate).Some?)
        ==> (
        && storage == old(storage) - {Slot} && error == old(error)
        && table.records == old(table.records) + [Registrations.BuildRecord(posted.value, toDate).value])
      ensures (
        && SlotText(old(storage)).Some?
        && (posted.None? || Registrations.BuildRecord(posted.value, toDate).None?))
        ==> (
        && storage == old(storage) && error == SaveFailedMessage
        && table.records == old(table.records) && Shown() == ErrorView(SaveFailedMessage))
      ensures SlotText(old(storage)).Some? ==>
        (Slot !in storage <==> |table.records| == |old(table.records)| + 1)
      ensures SlotText(old(storage)).None? && old(loading) ==> Shown() == Spinner
      ensures Slot !in storage && SlotText(old(storage)).Some? && old(error) == "" ==> Shown() == Confirmation
    {
      var text := SlotText(storage);
      if text.None? {
        error := NotFoundMessage;
        return None;
      }
      var data := parse(text.value);
      if data.None? || !reachable {
        error := SaveFailedMessage;
        loading := false;
        return None;
      }
      posted := data;
      var reply := table.Create(Registrations.Parsed(data.value), toDate);
      if reply.Failure? {
        error := SaveFailedMessage;
        loading := false;
        return;
      }
      storage := storage - {Slot};
      loading := false;
    }
  }
}
