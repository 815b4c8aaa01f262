/** The public events page: each event card shows a payment badge and a
    payment button, and clicking a card opens a dialog with a `PayButton`.
    A payment link containing `test-` marks a test payment. The selected
    event is the page's one piece of state. */
module EventsPage {
  import opened Text
  import opened Json
  import EventStore
  import PaymentLink

  /** `event.paymentLink && event.paymentLink.includes("test-")`. */
  predicate IsTestPayment(e: EventStore.Event)
  {
    var link := e.fields.paymentLink;
    link.Some? && link.value != "" && Contains(link.value, "test-")
  }

  /** A payment link counts only when it is present and not empty. */
  predicate HasLink(e: EventStore.Event)
  {
    e.fields.paymentLink.Some? && e.fields.paymentLink.value != ""
  }

  /** The empty link holds no `test-`, so the test is "a link containing
      `test-`". */
  lemma TestPaymentIff(e: EventStore.Event)
    ensures IsTestPayment(e) <==> e.fields.paymentLink.Some? && Contains(e.fields.paymentLink.value, "test-")
  {
    if e.fields.paymentLink == Some("") {
      assert !Contains("", "test-");
    }
  }

  /** What `PayButton` renders: an external anchor to the link (yellow for a
      test payment) or an internal link to the registration page. */
  datatype Button =
    | External(href: string, text: string, highlighted: bool)
    | Internal(href: string, text: string)

  function PayButton(e: EventStore.Event): (b: Button)
    ensures b.External? <==> HasLink(e)
    ensures b.External? ==> (
      && b.href == e.fields.paymentLink.value
      && (b.text == "Test Payment" <==> IsTestPayment(e))
      && (b.text == "Pay Now" <==> !IsTestPayment(e))
      && b.highlighted == IsTestPayment(e))
    ensures b.Internal? ==> b == Internal("/register", "Register Now")
  {
    if HasLink(e) then
      External(e.fields.paymentLink.value, if IsTestPayment(e) then "Test Payment" else "Pay Now",
               IsTestPayment(e))
    else Internal("/register", "Register Now")
  }

  /** The badge on a card: shown only with a link. */
  function Badge(e: EventStore.Event): Option<string>
  {
    if !HasLink(e) then None
    else if Contains(e.fields.paymentLink.value, "test-") then Some("Test Payment")
    else Some("Online Payment")
  }

  /** The label of the payment button on a card: shown only with a link. */
  function CardButton(e: EventStore.Event): Option<string>
  {
    if !HasLink(e) then None
    else if Contains(e.fields.paymentLink.value, "test-") then Some("Test Payment")
    else Some("Pay Now")
  }

  /** The badge, the card button and `PayButton` apply the same test, so they
      always agree on whether the event is a test payment. */
  lemma LabelsAgree(e: EventStore.Event)
    ensures Badge(e).Some? <==> PayButton(e).External?
    ensures CardButton(e).Some? <==> PayButton(e).External?
    ensures CardButton(e).Some? ==> CardButton(e) == Some(PayButton(e).text)
    ensures Badge(e) == Some("Test Payment") <==> CardButton(e) == Some("Test Payment")
    ensures Badge(e) == Some("Test Payment") <==> IsTestPayment(e)
    ensures Badge(e) == Some("Online Payment") <==> HasLink(e) && !IsTestPayment(e)
  {
  }

  /** An event that carries a development fallback link from the generator is
      shown as a test payment everywhere. */
  lemma FallbackShownAsTest(e: EventStore.Event, price: Json, eventName: Json, now: nat, random: string, note: string)
    requires e.fields.paymentLink == Some(PaymentLink.Fallback(price, eventName, now, random, note).paymentLink.s)
    ensures IsTestPayment(e)
    ensures PayButton(e).External? && PayButton(e).text == "Test Payment"
    ensures Badge(e) == Some("Test Payment") && CardButton(e) == Some("Test Payment")
  {
    PaymentLink.FallbackIsTestLink(price, eventName, now, random, note);
    TestTextIsNotEmpty(e.fields.paymentLink.value);
  }

  lemma TestTextIsNotEmpty(s: string)
    requires Contains(s, "test-")
    ensures s != ""
  {
  }

  /** The selection behind the event dialog. */
  class EventsView {
    var selected: Option<EventStore.Event>

    /** The dialog is rendered exactly when an event is selected. */
    predicate DialogOpen()
      reads this
    {
      selected.Some?
    }

    constructor()
      ensures selected == None && !DialogOpen()
    {
      selected := None;
    }

    /** Clicking a card selects its event. */
    method SelectCard(e: EventStore.Event)
      modifies this
      ensures selected == Some(e) && DialogOpen()
    {
      selected := Some(e);
    }

    /** A key press closes the dialog when the key is Escape, and does
        nothing otherwise. */
    method PressKey(key: string)
      modifies this
      ensures key == "Escape" ==> selected == None && !DialogOpen()
      ensures key != "Escape" ==> selected == old(selected)
    {
      if key == "Escape" {
        selected := None;
      }
    }

    /** A click on the backdrop closes the dialog. */
    method ClickBackdrop()
      modifies this
      ensures selected == None
    {
      selected := None;
    }

    /** The close button closes the dialog. */
    method ClickClose()
      modifies this
      ensures selected == None
    {
      selected := None;
    }

    /** What the dialog's payment button shows, when the dialog is open. */
    method DialogButton() returns (b: Option<Button>)
      ensures b.Some? <==> DialogOpen()
      ensures b.Some? ==> b.value == PayButton(selected.value)
    {
      if selected.Some? {
        b := Some(PayButton(selected.value));
      } else {
        b := None;
      }
    }
  }
}
