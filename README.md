# EPL Soccer Tours — a verified model of the booking site's core

The site sells soccer tours. Administrators log in with HTTP Basic
credentials (section 2 of RFC 7617) and do four things:
- manage events through four JSON routes (add, update, delete, get);
- upload event covers and gallery photos into one upload directory;
- list and delete those photos;
- ask a payment provider for a payment link per event.

In development, a failed call to the provider is replaced by a test link
whose id starts with `test-`. The public events page marks such links as
test payments. After paying, a visitor lands on a confirmation page. That
page posts the registration the form left in local storage and clears the
slot once the record is stored.

The model gives each of these pieces its own module:

| module | file | models |
|---|---|---|
| `Auth` | auth.dfy | the credential check shared by every privileged route, and the client's `btoa` header |
| `Filenames` | filenames.dfy | cover and photo naming, `sanitizeFilename`, the image-extension test, the gallery title |
| `Photos` | photos.dfy | the cover upload, photo upload, delete and listing routes, over a class holding the upload directory |
| `EventStore` | events.dfy | the four event routes, over a class holding the event table as `map<int, Event>` |
| `PaymentLink` | payment_link.dfy | the payment-link route: guards, payload builders, dispatch on the provider's answer, the test link |
| `EventsPage` | events_page.dfy | test-payment classification, `PayButton`, badge and card labels, the dialog's selection |
| `AdminEvents` | admin_events.dfy | the admin console's state: login, the form and edit mode, link generation, submit, delete |
| `Registrations` | registrations.dfy | the registration route's mapping from payload to record, and the registration table |
| `PaymentSuccess` | payment_success.dfy | the confirmation page's save over the `registration_data` slot |

Several modules model the JavaScript and web built-ins these pieces rely on:
- `Text`: `parseInt`, decimal rendering, ASCII `toLowerCase`, `startsWith`/`endsWith`/`includes`.
- `Json`: JSON values, truthiness, `String(v)`, `||`, route replies.
- `Utf8`: UTF-8 encoding and Latin-1.
- `Base64`: base 64 as in section 4 of RFC 4648.
- `UriComponent`: `encodeURIComponent`, the percent-encoding of section 2.1 of RFC 3986.

Things outside the program's control are parameters:
- the clock;
- the random suffix;
- `new Date(...)`, `formatDate` and `toISOString().split("T")[0]`;
- `JSON.parse` on stored text;
- the payment provider's answer;
- whether a `fetch` reaches the server at all.

## Model

| member | source | states |
|---|---|---|
| Auth.CheckAuth | app/api/auth/verify/route.ts:3-17 | a header is accepted only when both credentials are configured and non-empty |
| Auth.NotConfiguredRejectsAll | app/api/auth/verify/route.ts:8-11 | with a missing or empty username or password, every header (or none) is rejected and `POST` answers 401 "Unauthorized" |
| Auth.AcceptedExactly | app/api/auth/verify/route.ts:13-16 | `"Basic " + base64(UTF-8(t))` is accepted iff `t` is the configured `username:password` |
| Auth.AcceptedPairs | app/api/auth/verify/route.ts:15 | a username/password pair is accepted iff its colon-joined string equals the configured one, so the colon may shift between the two parts |
| Auth.SchemeIsCaseSensitive | app/api/auth/verify/route.ts:14-15 | a header with the scheme written `basic` is rejected, whatever follows |
| Auth.ExtraSpaceRejected | app/api/auth/verify/route.ts:14-15 | a header with two spaces after `Basic` is rejected, whatever follows |
| Auth.VerifyPost | app/api/auth/verify/route.ts:19-24 | `POST` succeeds iff the check passes, and otherwise answers 401 "Unauthorized" |
| Auth.ClientHeaderAccepted | app/admin/events/page.tsx:84 | for ASCII credentials, the `btoa` header the console sends equals the one the routes expect and is accepted |
| Utf8.EncodeInjective | app/api/auth/verify/route.ts:15 | distinct strings have distinct UTF-8 encodings |
| Utf8.AsciiLatin1IsUtf8 | app/admin/events/page.tsx:84 | on ASCII text the Latin-1 bytes `btoa` encodes equal the UTF-8 bytes `Buffer.from` encodes |
| Base64.DecodeEncode | app/api/auth/verify/route.ts:15 | decoding the base 64 of any bytes gives the bytes back |
| Base64.EncodeInjective | app/api/auth/verify/route.ts:15 | distinct byte strings have distinct base 64 encodings |
| Filenames.StripExtensionMatchesRegex | app/api/events/upload/route.ts:25 | removing `/\.[^/.]+$/` cuts at the final dot followed by one or more characters that are neither `/` nor `.`, and leaves a name without such a suffix unchanged |
| Filenames.StripExtensionOfDotted | app/api/events/upload/route.ts:25 | `stem.ext` loses `.ext` exactly when `ext` is non-empty and holds no `/` |
| Filenames.HyphenateSpecials | app/api/events/upload/route.ts:28 | every character outside `a-zA-Z0-9` becomes `-`, position by position |
| Filenames.CollapseHyphens | app/api/events/upload/route.ts:29 | the result has no two adjacent hyphens, uses only the input's characters, and is empty iff the input is |
| Filenames.SanitizedBaseShape | app/api/events/upload/route.ts:25-30 | the sanitised base holds only `a-z`, `0-9` and `-`, with no two hyphens in a row |
| Filenames.SanitizeFilenameShape | app/api/events/upload/route.ts:23-34 | the result is the sanitised base, a dot, and the lowercased text after the name's last dot |
| Filenames.NoDotNameIsItsOwnExtension | app/api/events/upload/route.ts:25-33 | a name without a dot keeps its whole name as base and has it, lowercased, as extension |
| Filenames.PhotoBecomesPhotoPhoto | app/api/events/upload/route.ts:32-34 | `"photo"` is sanitised to `"photo.photo"` |
| Filenames.EarlierDotsBecomeHyphens | app/api/events/upload/route.ts:25-28 | only the final dot-segment is stripped; earlier dots turn into hyphens |
| Filenames.AfterLastDot | app/api/events/upload/route.ts:32 | the text after the last dot holds no dot |
| Filenames.ImageNameByExtension | app/api/photos/get/route.ts:14 | a name passes the listing's case-insensitive extension pattern iff it has a dot and its lowercased text after the last dot is one of the five extensions |
| Filenames.PhotoNameIsImageIff | app/api/photos/add/route.ts:48 | a photo's stored name is an image name iff the uploaded name is |
| Filenames.CoverNameIsImageIff | app/api/events/upload/route.ts:62-63 | a cover's stored name is an image name iff its sanitised extension is an image extension, which it is whenever the uploaded name is an image name |
| Filenames.TitleOfPlainName | app/gallery/page.tsx:48-54 | a name with no leading digits-and-hyphen and no extension is its own title |
| Filenames.TitleOfPhotoName | app/gallery/page.tsx:51-52 | the title of `ts + "-" + name` is `name` without its extension, undoing the photo naming |
| Filenames.TitleOfCoverName | app/gallery/page.tsx:51-52 | a cover's title keeps its `event-<ts>-` prefix and loses only the extension |
| Photos.Rejection | app/api/events/upload/route.ts:39-81 | the refusal order: 401 without credentials, then 500 for an unreadable form, then 400 "No file uploaded" for an absent or empty `file` field, then 500 "Error uploading file" for a non-empty text `file` field, whose missing `type` makes the type test throw, then 400 "File must be an image" |
| Photos.CoverUpload | app/api/events/upload/route.ts:37-81 | a cover is stored iff the request passes every guard, under a name starting `event-`, with path `/uploads/` + name |
| Photos.PhotoUpload | app/api/photos/add/route.ts:23-65 | a photo is stored iff the request passes every guard, under a name ending `-` + the uploaded name, with path `/uploads/` + name |
| Photos.DeletionTarget | app/api/photos/delete/route.ts:24-95 | a delete is admissible iff it is authorised, the body parses, and the filename is a non-empty string image name that is not dangerous; the target is that filename. Refusals: 400 "Invalid request body" for a body that is not JSON, 500 "Error deleting file" for a `null` body, then 400 "No filename provided" for a falsy filename, 400 "Invalid file extension" for one failing the extension test, 400 "Invalid filename" for a dangerous string, and 500 "Error deleting file" for an array passing the extension test, where `startsWith` throws |
| Photos.NonStringIsNoImageName | app/api/photos/delete/route.ts:47-62 | a number, boolean or null filename never passes the extension test, and any value that passes is truthy |
| Photos.ArrayFilenameThrows | app/api/photos/delete/route.ts:56-95 | `{"filename": ["a.png"]}` passes the extension test and is answered 500 "Error deleting file" |
| Photos.DeletionNeedsAName | app/api/photos/delete/route.ts:33-53 | an unparsable body answers 400 "Invalid request body", and a missing or empty filename 400 "No filename provided" |
| Photos.ExtensionCheckedBeforePath | app/api/photos/delete/route.ts:56-72 | `../a.txt` reports "Invalid file extension", while `../a.png` reports "Invalid filename" |
| Photos.NamesOf | app/api/photos/get/route.ts:15-18 | the filenames of the listed photos, in order |
| Photos.Listing | app/api/photos/get/route.ts:13-18 | the listing holds exactly the image-named entries, each with url `/uploads/` + name, as an order-preserving subsequence of the entries |
| Photos.GetPhotos | app/api/photos/get/route.ts:8-27 | an unreadable directory answers 500 "Error getting photos"; otherwise the answer is the listing |
| Photos.ListedIff | app/api/photos/get/route.ts:10-18 | a name is listed iff it is a stored file with an image name |
| Photos.UploadDirectory.UploadCover | app/api/events/upload/route.ts:62-74 | the cover's bytes are written under its name, and nothing else changes; a refusal writes nothing |
| Photos.UploadDirectory.AddPhoto | app/api/photos/add/route.ts:48-59 | the photo's bytes are written under its name, and nothing else changes; a refusal writes nothing |
| Photos.UploadDirectory.DeletePhoto | app/api/photos/delete/route.ts:74-93 | an admissible, present name is removed and no other; an absent one answers 404 "File not found"; every failure leaves the directory unchanged |
| Photos.PhotoListedIffImageName | app/api/photos/add/route.ts:37-48 | a stored photo is listed iff its uploaded name has an image extension; an image with another extension is stored but never shown |
| Photos.CoverListed | app/api/photos/get/route.ts:7-18 | a stored cover with an image name appears in the gallery listing |
| Photos.ListedButNotDeletable | app/api/photos/delete/route.ts:65-72 | a photo whose uploaded name contains `..` is listed but can never be deleted |
| EventStore.FirstMissing | app/api/events/add/route.ts:33-48 | reports nothing iff every required field is truthy, and otherwise the first falsy one in the order name, description, pricePerPerson, coverImage, startDate, endDate |
| EventStore.MissingField | app/api/events/add/route.ts:33-48 | the loop over the required fields stops at the first falsy one and returns the same answer as `FirstMissing` |
| EventStore.FalsyPriceIsMissing | app/api/events/add/route.ts:42 | a price of 0, `""`, absent or `null` is reported as the missing field when the fields before it are present |
| EventStore.ReadFields | app/api/events/add/route.ts:51-62 | the columns can be stored iff name, description and cover are text, the price a number, both dates valid and each truthy age a number; the stored columns are then the body's values, a falsy minAge becoming 0 and a falsy maxAge 99 |
| EventStore.AgeDefaults | app/api/events/add/route.ts:59-60 | an explicit maxAge of 0 is stored as 99 |
| EventStore.ReadLink | app/api/events/update/route.ts:75 | a falsy paymentLink is stored as null, and a stored link is the non-empty string sent |
| EventStore.CheckAdd | app/api/events/add/route.ts:24-70 | 401 first, then 500 "Error creating event" for a body that is not JSON or is `null`, then "Missing required field: <field>"; success iff authorised, parsable, complete and readable; a created event never carries a payment link |
| EventStore.NoRangeChecks | app/api/events/add/route.ts:33-62 | an event ending before it starts, with minAge above maxAge, is accepted |
| EventStore.CheckUpdate | app/api/events/update/route.ts:24-90 | 401 first, then 500 "Error updating event" for a body that is not JSON or is `null`, then 400 "Event ID is required", then the required fields; the id addressed is the one sent |
| EventStore.CheckDelete | app/api/events/delete/route.ts:24-39 | 401 first, then 400 "Event ID is required" for a missing or empty id; the id addressed is `parseInt` of the parameter |
| EventStore.DeleteIdIgnoresSuffix | app/api/events/delete/route.ts:42-55 | an id parameter such as `7x` addresses event 7 |
| EventStore.DeleteIdRoundTrip | app/api/events/delete/route.ts:42-55 | the decimal rendering of any id addresses that id |
| Text.ParseIntIgnoresSuffix | app/api/events/delete/route.ts:43 | `parseInt` reads the leading decimal digits and ignores a non-digit suffix |
| EventStore.EventRepository.constructor | app/api/events/add/route.ts:51-64 | the table starts empty, with the first id 1 |
| EventStore.EventRepository.Add | app/api/events/add/route.ts:24-70 | a failed check changes nothing; otherwise exactly one event is inserted under a fresh id and returned |
| EventStore.EventRepository.Update | app/api/events/update/route.ts:24-90 | an unknown id answers 404 and changes nothing; for a known id the update succeeds iff the payment link and the columns can be stored, and then only that event's fields are replaced, keeping its id; otherwise it answers 500 "Error updating event" and changes nothing |
| EventStore.EventRepository.Delete | app/api/events/delete/route.ts:24-62 | an unknown id answers 404 and changes nothing; otherwise exactly that key is removed, so a second delete answers 404 |
| EventStore.InsertByStart | app/api/events/get/route.ts:33-36 | inserting into a list sorted by start date keeps it sorted and adds the one event |
| EventStore.SortByStart | app/api/events/get/route.ts:33-36 | the listing is sorted by start date and is a permutation of the rows |
| EventStore.GetEvents | app/api/events/get/route.ts:12-39 | 400 "Invalid event ID" for a non-numeric id, 404 for an unknown one, the event itself for a known one, and otherwise all events sorted by start date |
| EventStore.ListingIsTheTable | app/api/events/get/route.ts:33-39 | the listing holds every stored event once and nothing else |
| EventStore.RowsCountKeys | app/api/events/get/route.ts:33-36 | a scan of the table has one row per key |
| PaymentLink.Take | app/api/brytewire/generate-link/route.ts:88 | `substring(0, n)` is the prefix of length n, or the whole string when it is shorter |
| PaymentLink.DateRange | app/api/brytewire/generate-link/route.ts:57-76 | `"<start> - <end>"` when both dates are present, else "Dates TBD" |
| PaymentLink.Description | app/api/brytewire/generate-link/route.ts:86-89 | a description can be built iff `description` is a string or nullish, and it ends in `" (" + dateRange + ")"` |
| PaymentLink.DescriptionLead | app/api/brytewire/generate-link/route.ts:88 | the description opens with the first 100 characters of `description`, or with the event name when that is empty or absent; the opening is never empty unless the event name is an array that renders to nothing |
| PaymentLink.Amount | app/api/brytewire/generate-link/route.ts:90 | the amount is the price times 100, in whole cents |
| PaymentLink.PayloadFor | app/api/brytewire/generate-link/route.ts:85-99 | the payload carries the API key, the name, the built description, the amount in cents and the return URLs |
| PaymentLink.Generate | app/api/brytewire/generate-link/route.ts:20-201 | 401, then 500 for a missing API key, then 500 for a body that is not JSON or is `null`, then 400 for a falsy eventName or price; a payload is sent iff every guard passes |
| PaymentLink.FallbackIsTestLink | app/api/brytewire/generate-link/route.ts:126-143 | the fallback is in test mode, its id starts with `test-`, and its link is the provider's host, the id and `?amount=` |
| PaymentLink.FallbackCarriesName | app/api/brytewire/generate-link/route.ts:131-133 | the link ends in `&name=` and the percent-encoded event name, which holds no `&`, `=` or `#` and decodes to the name's UTF-8 |
| UriComponent.DecodeEncode | app/api/brytewire/generate-link/route.ts:131 | percent-decoding `encodeURIComponent(s)` gives the UTF-8 of `s` |
| UriComponent.EncodeInjective | app/api/brytewire/generate-link/route.ts:131 | distinct names give distinct encodings |
| PaymentLink.FailedCallFallsBack | app/api/brytewire/generate-link/route.ts:121-192 | a failed call becomes a test link iff in development; outside it a transport failure answers 500 "Failed to connect to BryteWire API" |
| PaymentLink.TestModeOnlyInDevelopment | app/api/brytewire/generate-link/route.ts:121-192 | a reply in test mode comes only in development and carries a link containing `test-` |
| PaymentLink.RefusalPassedOn | app/api/brytewire/generate-link/route.ts:144-150 | outside development a refusal is passed on with the provider's status and text |
| PaymentLink.LinkIsFirstTruthy | app/api/brytewire/generate-link/route.ts:154-163 | on an OK answer the link is the first truthy of `url`, `payment_url`, `link`, not in test mode |
| EventsPage.TestPaymentIff | app/events/page.tsx:70-71 | an event is a test payment iff it has a link containing `test-` |
| EventsPage.PayButton | app/events/page.tsx:73-110 | with a link, an external button to it labelled "Test Payment" iff a test payment, else "Pay Now"; without one, "Register Now" to `/register` |
| EventsPage.LabelsAgree | app/events/page.tsx:156-203 | the badge, the card button and `PayButton` all appear iff there is a link, and agree on test payments |
| EventsPage.FallbackShownAsTest | app/events/page.tsx:70-71 | an event carrying a generator fallback link is shown as a test payment everywhere |
| EventsPage.EventsView.constructor | app/events/page.tsx:24 | no event is selected at first |
| EventsPage.EventsView.SelectCard | app/events/page.tsx:146 | clicking a card selects its event and opens the dialog |
| EventsPage.EventsView.PressKey | app/events/page.tsx:49-57 | Escape clears the selection; any other key leaves it |
| EventsPage.EventsView.ClickBackdrop | app/events/page.tsx:230 | a backdrop click clears the selection |
| EventsPage.EventsView.ClickClose | app/events/page.tsx:237 | the close button clears the selection |
| EventsPage.EventsView.DialogButton | app/events/page.tsx:227-272 | the dialog shows a button iff an event is selected, and it is that event's `PayButton` |
| AdminEvents.LoginVerdict | app/admin/events/page.tsx:76-100 | accepted iff the server is reached and accepts the `btoa` header; an error when `btoa` throws or the server is unreachable |
| AdminEvents.LoginAcceptedIff | app/admin/events/page.tsx:76-100 | for ASCII credentials the console's login is accepted iff the routes accept them |
| AdminEvents.Remember | app/admin/events/page.tsx:90-92 | accepted credentials are stored under both keys, and nothing else in storage changes |
| AdminEvents.AdminEventsPage.constructor | app/admin/events/page.tsx:21-43 | the console starts logged out, with the initial form and not editing |
| AdminEvents.AdminEventsPage.LoginWith | app/admin/events/page.tsx:76-100 | the flag, message and storage follow the verdict; the form is untouched |
| AdminEvents.AdminEventsPage.Login | app/admin/events/page.tsx:102-104 | logging in uses the credentials typed in the form |
| AdminEvents.AdminEventsPage.RestoreSession | app/admin/events/page.tsx:46-56 | stored credentials are loaded and verified; without both, nothing happens |
| AdminEvents.AdminEventsPage.Logout | app/admin/events/page.tsx:106-113 | both stored credentials, the typed ones and the flag are cleared |
| AdminEvents.AdminEventsPage.ChooseFile | app/admin/events/page.tsx:147-150 | the chosen file is remembered, and nothing else changes |
| AdminEvents.AdminEventsPage.ResetForm | app/admin/events/page.tsx:128-145 | the form returns to its initial values, with no file and no edit |
| AdminEvents.MissingForLink | app/admin/events/page.tsx:203-210 | "event name" is missing iff the name is empty, "price per person" iff the price is at most 0, in that order |
| AdminEvents.LinkRequest | app/admin/events/page.tsx:223-229 | the request carries the name and price, the description or else the name, and the dates or else today |
| AdminEvents.LinkRequestPassesRoute | app/admin/events/page.tsx:212-233 | a pre-checked request passes the route's field guard, is sent iff credentials and key are configured, and has both dates present |
| AdminEvents.AdminEventsPage.GenerateLink | app/admin/events/page.tsx:194-260 | an incomplete form shows "Please fill in required fields: " with the missing list and sends nothing; success sets the link and a message that depends on test mode |
| AdminEvents.FormBody | app/admin/events/page.tsx:273-276 | the body holds every form field under its own name |
| AdminEvents.FormBodyComplete | app/admin/events/page.tsx:262-276 | the body passes the required-field check iff the six required inputs are filled |
| AdminEvents.SubmitBody | app/admin/events/page.tsx:273-276 | in edit mode the form body plus `id`, otherwise the form body |
| AdminEvents.EditSubmitAddressesEvent | app/admin/events/page.tsx:268-281 | an edit submit addresses the event being edited |
| AdminEvents.AdminEventsPage.Submit | app/admin/events/page.tsx:262-309 | POST to `/api/events/add` when not editing, PUT to `/api/events/update` with the id when editing; success resets the form so the next submit is a create |
| AdminEvents.FormOf | app/admin/events/page.tsx:311-326 | editing copies the event's fields, its dates as calendar days, and a missing link as `""` |
| AdminEvents.AdminEventsPage.HandleEdit | app/admin/events/page.tsx:311-333 | the form holds the event, the editing id is set, and the message names the event |
| AdminEvents.EditThenSave | app/admin/events/page.tsx:311-326 | saving an unchanged edit stores the same fields back, except that a maxAge of 0 becomes 99 |
| AdminEvents.AdminEventsPage.CancelEdit | app/admin/events/page.tsx:335-338 | cancelling resets the form and clears the message |
| AdminEvents.DeleteUrlRoundTrip | app/admin/events/page.tsx:346 | the delete URL's id parameter addresses the same event at the route |
| AdminEvents.AdminEventsPage.Delete | app/admin/events/page.tsx:340-365 | nothing is sent without confirmation; otherwise the delete URL is sent and the message reports the outcome |
| Registrations.ContactField | app/api/registrations/create/route.ts:13-14 | reading a contact's property throws iff the contact is absent or null |
| Registrations.BuildRecord | app/api/registrations/create/route.ts:9-31 | a record is built iff there is a primary contact and both dates are valid; it is CONFIRMED, with email and phone from the contact and the payload's other values copied unchanged |
| Registrations.StatusAlwaysConfirmed | app/api/registrations/create/route.ts:10-29 | the status is CONFIRMED, and the other top-level columns are copied under their own names |
| Registrations.TopLevelContactIgnored | app/api/registrations/create/route.ts:13-14 | top-level email and phone values are ignored |
| Registrations.RegistrationTable.Create | app/api/registrations/create/route.ts:4-45 | success appends exactly the built record; failure answers 500 "Error creating registration" and stores nothing |
| PaymentSuccess.SlotText | app/payment/success/page.tsx:13-14 | the slot counts as present iff it is stored and non-empty |
| PaymentSuccess.ConfirmationPage.Shown | app/payment/success/page.tsx:45-110 | the spinner iff loading; the confirmation iff loaded with no error |
| PaymentSuccess.ConfirmationPage.SaveRegistration | app/payment/success/page.tsx:10-43 | an empty slot shows "Registration data not found" and keeps the spinner; the parsed payload is posted at most once; the slot is cleared iff a record was stored; a failure keeps the slot and shows the error |

## Left out

- Network, file system and database access are left out. `writeFile`, `unlink`, `readdir` and Prisma are modelled as maps held in classes.
  - A failing write or unlink is left out, so the photo delete route's 500 for such a failure is left out too.
  - Connection handling is left out.
- Photos.UploadDirectory.DeletePhoto: `path.join` normalisation is left out. The map is keyed by the name as sent. The name has already passed the `..` and leading-slash checks.
- The HTTP layer's trimming of whitespace around header values is left out. The header is taken as the route sees it.
- Auth.ClientHeader: for non-ASCII credentials, `btoa` (Latin-1) and `Buffer.from` (UTF-8) diverge. The model proves agreement only for ASCII text.
  - Characters above U+00FF make `btoa` throw. The console catches that as a login error, and it is modelled as such.
- PaymentLink.Amount: `parseFloat(price) * 100` is floating point. The model covers only integer prices sent as JSON numbers. For any other price the amount is absent from the payload.
- PaymentLink.Description: the `TypeError` that `description.substring` throws for a non-string description is represented by a fixed message constant. The runtime's exact wording is not modelled.
- PaymentLink.TestId: the clock and the `Math.random` suffix are parameters. Only the `test-` prefix and the shape of the link are stated.
- Dates are opaque. These are parameters:
  - `new Date`;
  - `formatDate`, which is `toLocaleDateString`;
  - the calendar-day rendering `toISOString().split("T")[0]`.
  - EventStore.ReadFields relies on the `toDate` parameter for dates.
  - AdminEvents.FormOf relies on the `isoDay` parameter for dates.
- Substrings and lowercasing work on Unicode code points. JavaScript's `substring` counts UTF-16 code units, and `toLowerCase` is modelled for ASCII letters only.
- JSON arrays and objects are one opaque kind, `JOther`, that keeps only the text `String(v)` renders. The payload's `travelers` array is one such value. Their elements and methods are not modelled.
- Photos.DeletionTarget: an array filename that passes the extension test is answered 500. The route answers 400 "Invalid filename" instead when one element is exactly `..`, because arrays have `includes`. The model does not know the elements, so it does not capture that case.
- EventStore.CheckDelete: `parseInt` returns a double, so an id above 2^53 is rounded. The model reads every digit string exactly. EventStore.DeleteIdRoundTrip therefore holds in the model for ids of any size, but in the route only up to 2^53.
- JSON numbers are integers throughout. A decimal `pricePerPerson` or age sent to the event routes is not modelled. Neither is a decimal event id.
- Photos.UploadDirectory.AddPhoto: the route joins the uploaded name, unsanitised, onto the upload directory with `path.join`. A name holding `/` or `..`, such as `../../a.png`, therefore writes into a subdirectory or outside the upload directory. The model keys the map by the raw name `<now>-<name>`, so it does not capture that escape or the normalisation.
- The `parseFloat` in the admin form's input handler is left out, because it can produce `NaN`. Form prices are integers.
- Loading flags are left out. These are the admin console's `isLoading` and `generatingPaymentLink`.
- The console's event list and its `fetchEvents` refresh after each change are left out. So is the cover-image upload handler: it is a `fetch` wrapper around the upload route, which is modelled.
- The registration record's database id and creation time are left out.
- The database schema is not part of this model. The column kinds follow the `Event` interface of app/events/page.tsx.
  - On the event routes, a value of the wrong kind makes the store throw. The route then answers 500.
  - Registrations.BuildRecord: the registration columns' kinds are not checked, so a value of any JSON kind is copied into the record. The model does not capture a store that refuses a registration whose column has the wrong kind.
  - A delete id that `parseInt` cannot read is assumed to make the store throw, so the delete route answers 500.
- EventStore.SortByStart: events with the same start date keep the order of the table scan. The database's order for ties is unspecified.
- The payment charge and verify routes are pass-through calls to the provider, and they are left out.
- The registration form's verify, charge and persist flow is not part of this model.
- Markup, logging and React effect scheduling are left out. Each handler is one sequential step.
