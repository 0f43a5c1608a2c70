# Appointment booking, modelled in Dafny

A model of the appointment controller of a small scheduling back end
(`src/app/controllers/AppointmentController.js`). Clients list their non-canceled
appointments, past ones included (`index`) and book an appointment with a provider (`store`).
Booking runs four checks in a fixed order: the body is well formed, the
provider is a user with the provider flag, the requested hour has not
started before now, and no live appointment holds the provider at that hour.
It then writes the appointment and an in-app notification for the provider.

Persistence is abstracted to in-memory tables: a map of users by id, a
sequence of appointments and a sequence of notifications. Timestamps are
integers in milliseconds. The wall clock (`new Date()`) is the parameter `now`.

Modules:

- `Hours` (`hours.dfy`): `StartOfHour` (the start of the hour that holds a
  timestamp) and `IsBefore` (strictly earlier).
- `Records` (`records.dfy`): users, appointments, notifications, and the
  response of an action: `Ok(body)`, `Err(status, message)`, or `Thrown` for
  an exception that escapes the action.
- `Listing` (`listing.dfy`): `index` as a pure function. It filters the
  table, sorts it by date (insertion sort) and cuts out one page.
- `Booking` (`booking.dfy`): `store` as a pure transition `Apply` over the
  tables, the checks as predicates, and the lemmas about them.
- `Controller` (`controller.dfy`): the class `AppointmentController`. Its
  fields are the tables. `Store` changes them step by step and is proved
  equal to `Apply`. `Index` only reads them.

Modelling decisions that follow the code:

- The stored date is the raw requested date (line 95). The availability
  check compares stored dates against the truncated hour (line 82). See
  "## Findings".
- The past-date check uses `isBefore`, which is strict. A date in the
  current hour, with its hour start equal to `now`, is accepted. Some
  descriptions of this service say "at or before now" is refused; the code
  refuses only "strictly before".
- The requester's name is read after the appointment is written (lines
  102-108). If the requester is not in the user table, reading the name
  throws. The model then answers `Thrown`: the appointment is already stored
  and no notification is written.
- The page number goes into the offset `(page - 1) * 20` unchecked. A page
  below 1 gives a negative offset, which the database refuses. The model
  answers `Thrown` for it. A missing page means page 1.
- New appointment ids come from a counter `nextId`, like a serial primary
  key. `WellKeyed` says ids are distinct and below the counter.

## Model

| member | source | states |
|---|---|---|
| `Hours.StartOfHour` | src/app/controllers/AppointmentController.js:63-66 | the truncated hour is a whole multiple of an hour, at most the date, and less than an hour before it |
| `Hours.StartOfHourUnique` | src/app/controllers/AppointmentController.js:63-66 | only one whole hour lies within the hour ending after a date, so the truncation is determined by the three facts above |
| `Hours.StartOfHourFixesWholeHours` | src/app/controllers/AppointmentController.js:66 | truncation leaves exactly the whole hours unchanged and is idempotent |
| `Listing.Listed` | src/app/controllers/AppointmentController.js:13-17 | the `where` clause keeps exactly the requester's non-canceled rows, each as often as in the table |
| `Listing.SortByDate` | src/app/controllers/AppointmentController.js:18 | the result is ascending by date and a permutation of its input |
| `Listing.Page` | src/app/controllers/AppointmentController.js:20-21 | the page holds at most 20 rows, and row i of the page is row offset + i of the list |
| `Listing.Index` | src/app/controllers/AppointmentController.js:10-34 | the answer is an error exactly when the page is below 1; otherwise at most 20 rows, ascending by date, each a non-canceled row of the requester |
| `Listing.SortedMembers` | src/app/controllers/AppointmentController.js:13-18 | an appointment is in the sorted list if and only if it is in the table, belongs to the requester and is not canceled |
| `Listing.PageIsSlice` | src/app/controllers/AppointmentController.js:11-21 | page p is the slice from (p-1)*20 to (p-1)*20+20 of the sorted list, cut at its end; a page past the end is empty |
| `Listing.EveryListedRowIsOnAPage` | src/app/controllers/AppointmentController.js:13-21 | every non-canceled appointment of the requester appears on some page p >= 1 |
| `Listing.PagesInDateOrder` | src/app/controllers/AppointmentController.js:18-21 | for pages p < q, no date on page q is earlier than a date on page p |
| `Booking.Screen` | src/app/controllers/AppointmentController.js:43-90 | an admitted request carries the body's provider and date, a valid provider, an hour not before now and a free slot; validation failure is reported exactly for a malformed body |
| `Booking.Commit` | src/app/controllers/AppointmentController.js:92-110 | the appointment (next id, requester, provider, given date, not canceled) is always appended and the id counter advances; the answer is that appointment with one notification to the provider when the requester is a user, and `Thrown` with no notification exactly when it is not |
| `Booking.Apply` | src/app/controllers/AppointmentController.js:37-113 | an error answer leaves every table unchanged; success appends exactly the returned appointment (requester, given provider, raw date, not canceled, fresh id) and exactly one notification to the provider; `Thrown` (requester missing) still appends that appointment and advances the id counter, with no notification; users never change |
| `Booking.ApplyKeepsWellKeyed` | src/app/controllers/AppointmentController.js:92-96 | booking keeps appointment ids distinct |
| `Booking.RejectsMalformedBody` | src/app/controllers/AppointmentController.js:38-45 | the answer is 400 "Validation fails" if and only if a field is missing |
| `Booking.RejectsInvalidProvider` | src/app/controllers/AppointmentController.js:53-61 | the answer is 401 for an unknown user or one without the provider flag, if and only if the body is well formed |
| `Booking.RejectsPastHour` | src/app/controllers/AppointmentController.js:66-73 | the answer is 400 "Past dates are not allowed" if and only if the earlier checks pass and the hour start is strictly before now |
| `Booking.RejectsTakenSlot` | src/app/controllers/AppointmentController.js:78-90 | the answer is 400 "Appointment date is not available" if and only if the earlier checks pass and a live appointment of that provider is at the hour start |
| `Booking.AcceptsFreeSlot` | src/app/controllers/AppointmentController.js:43-112 | a booking succeeds if and only if all four checks pass and the requester is a user |
| `Booking.CanceledRowNeverBlocks` | src/app/controllers/AppointmentController.js:78-84 | adding a canceled row to the table never changes whether a slot is taken |
| `Booking.CancelingNeverTakesASlot` | src/app/controllers/AppointmentController.js:78-84 | canceling a row never makes a free slot taken, and a slot it frees was held by that row |
| `Booking.RepeatRefusedExactlyOnTheHour` | src/app/controllers/AppointmentController.js:78-96 | after a successful booking, the same request is refused as unavailable if and only if its date is a whole hour |
| `Booking.RepeatedOffHourRequestDoubleBooks` | src/app/controllers/AppointmentController.js:78-96 | a concrete off-hour request sent twice is booked twice for the same provider and instant |
| `Booking.ApplyOnTheHour` | src/app/controllers/AppointmentController.js:92-96 | the corrected booking leaves tables unchanged on error and stores the truncated hour on success |
| `Booking.OnTheHourKeepsSlotsUnique` | src/app/controllers/AppointmentController.js:78-96 | storing the truncated hour keeps at most one live appointment per provider per hour |
| `Booking.OnTheHourRepeatRefused` | src/app/controllers/AppointmentController.js:78-96 | storing the truncated hour, a request that was just booked is always refused when sent again |
| `Controller.AppointmentController.Index` | src/app/controllers/AppointmentController.js:10-35 | reads the table and answers `Listing.Index`: at most 20 sorted rows, each a live row of the requester |
| `Controller.AppointmentController.Store` | src/app/controllers/AppointmentController.js:37-113 | the new tables and the answer are those of `Apply`; on error nothing changes; on success exactly one appointment and one notification are appended and old rows are kept |

## Left out

- ISO-8601 parsing and the schema's coercion of `date` and `provider_id`: the body holds an integer provider id and an already parsed timestamp, or nothing when a field is missing or unreadable. A non-integer provider id and a date the schema accepts but `parseISO` does not are not modelled.
- The notification text: its English rendering of the hour depends on date-fns locale formatting. The model keeps the name and the hour start the text is built from.
- The notification's read flag and timestamps, which the notification schema fills in by default; that schema is not part of this model.
- Eager loading of the provider and its avatar, and the projection to `id` and `date` in `index`: the model returns whole appointment rows.
- Time zones: `startOfHour` works in local time; the model truncates in UTC, which agrees wherever the offset is a whole number of hours.
- A page number that is not an integer.
- Listing.PageIsSlice, Listing.EveryListedRowIsOnAPage: these assume one fixed order for rows with equal dates, the same for every page request. The model breaks ties by table order. Each page of the source is its own query ordered only by `date`, and the database promises no tie order that stays the same across queries, so a row with the same date as another can be skipped or repeated between pages.
- The race between the availability check and the insert in concurrent `store` calls: the model is sequential.
- HTTP plumbing and status codes as transport: answers are the `Response` datatype.
- The cancellation mail job (`src/app/jobs/CancellationMail.js`) and the mail wrapper (`src/lib/Mail.js`): both only format a date with a foreign library and hand a message to the mail transport.

## Findings

| source | as written | input that shows it | evidently intended | confidence | as-written member | corrected member |
|---|---|---|---|---|---|---|
| src/app/controllers/AppointmentController.js:78-96 | the availability check looks for a live appointment dated at the truncated hour, but the appointment is stored with the raw date | the same request `{provider_id: 7, date: 10:30}` sent twice by one user: both are booked, twice at 10:30 | at most one live appointment per provider per hour, so the repeat is refused | medium, not executed | `Booking.RepeatedOffHourRequestDoubleBooks` | `Booking.OnTheHourKeepsSlotsUnique` |

`Booking.RepeatRefusedExactlyOnTheHour` generalises the counterexample: as
written, a repeated booking is refused only when its date is a whole hour.
The controller class keeps the code's behaviour and stores the raw date.
`Booking.ApplyOnTheHour` is the corrected transition.
