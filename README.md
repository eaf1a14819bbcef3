# careflow, modelled in Dafny

careflow is a small appointment-booking application. It has two parts:

- A Rails API keeps **clients** (name, email, phone) and **appointments**. Each appointment has a client, a `scheduled_at` instant and notes. Both tables carry an optional `external_id` that links a record to a remote "system of record".
- A React front end lists and searches clients and books appointments.

This project models the logic of both parts as an in-memory store: two tables keyed by id, with the active-record validations written as predicates over the store. It also models the pure rules of the front end. The properties the code relies on are proved about that model.

- **Pagination** (`ApplicationController`): `page` is clamped to at least 1. `per_page` defaults to 20 and is capped at 100. A listing is the `[(page-1)*per_page, page*per_page)` window of the ordered scope, and its `meta` holds the clamped page, the clamped per_page and the total count. A missing required parameter answers 400 with the exception message as `error`.
- **Validations** (`ClientModel`, `AppointmentModel`):
  - A client needs a name, an email and a phone. The email format is checked only when the email is not blank.
  - An appointment needs an existing client and a `scheduled_at`. That instant must differ from every *other* stored appointment's. This is an exact-instant check with no overlap or duration test.
  - Destroying a client destroys its appointments (`Store.Database.DestroyClient`).
  - The store invariant is that every stored appointment is valid, so all stored instants are pairwise distinct. It is kept by every operation that changes the store.
- **Controllers** (`ClientsController`, `AppointmentsController`): `index` is a sorted, paginated listing. `create`, `update` and `destroy` are methods on the `Database` object. They answer 201/200, 422, 404 or 204, and each one states the complete new state of both tables.
- **External sync** (`ExternalSync`):
  - `sync_clients` and `sync_appointments` are loops of find-or-initialize-by-`external_id`, overwrite and `save!` over the already-parsed remote payload.
  - A failed `save!` aborts the rest of the loop, and the entries before it stay saved.
  - The loops are proved against left-to-right folds. The properties proved about those folds are: idempotence, last occurrence wins, untouched records, skipped orphans, `time` taking precedence over `scheduled_at`, and preservation of the store invariant.
  - `create_client`/`create_appointment` store the remote id when the POST answered with one.
- **Front end**:
  - `api.ts`: the error-message fallback chain of the response interceptor, and the fetchers' default query.
  - `ClientsList.tsx`: the search filter, `highlight`, and the Previous/Next page rules, as a `ClientsListState` class.
  - `NewAppointmentForm.tsx`: the same-day booked-time selection, the `excludeTimes` and `filterTime` rules of the date picker, and `handleSubmit`'s guard and error mapping, as a `FormState` class.
  - A cross-file consequence: the form fetches `per_page=500`, but the backend caps that at 100. An appointment beyond the first 100 in `scheduled_at` order is therefore never among the booked times (`NewAppointmentForm.UnlistedTimeNotBooked`).

Instants are integers in milliseconds, local time, with 24-hour days (`Time`). Strings are `seq<char>`. Lower-casing is ASCII. Names are compared in code-point order.

Where the prose description of the system and the code differ, the model follows the code: a 422 body carries *all* of the record's full validation messages, not the first one.

## Model

| member | source | states |
|---|---|---|
| Time.WithinDayIsSameDay | careflow-frontend/src/components/NewAppointmentForm.tsx:74-89 | an instant between a day's 00:00:00 and 23:59:59 lies on that day |
| Tables.Insert | careflow-backend/app/controllers/api/appointments_controller.rb:14-15 | saving a new record adds exactly one row, under a fresh id, and leaves every other row as it was |
| Tables.FindByExternalId | careflow-backend/app/services/external_sync_service.rb:29 | `find_by(external_id:)` answers the first row with that external id, or none exactly when no row has it |
| Tables.Upsert | careflow-backend/app/services/external_sync_service.rb:17-21 | find-or-initialize then save writes the record into the found row, or into one new row, and keeps the table well formed |
| Tables.UpsertHit | careflow-backend/app/services/external_sync_service.rb:17-21 | after the upsert, looking the external id up finds the written row with the new fields |
| Tables.UpsertFrame | careflow-backend/app/services/external_sync_service.rb:17 | an upsert changes no other row, and no lookup of another external id |
| Tables.UpsertSame | careflow-backend/app/services/external_sync_service.rb:17-21 | upserting the values a row already holds leaves the table equal |
| Tables.UpsertKeepsAtMostOne | careflow-backend/app/services/external_sync_service.rb:17 | an upsert never creates a second row for an external id |
| Store.StoredAppointmentValid | careflow-backend/app/models/appointment.rb:2-5 | in a valid store, re-validating a stored appointment against itself yields no errors |
| Store.Database.DestroyClient | careflow-backend/app/models/client.rb:2 | destroying an existing client removes it and exactly the appointments whose client it is; other rows are unchanged; an absent id changes nothing |
| ClientModel.ClientErrors | careflow-backend/app/models/client.rb:3-4 | no errors iff name, email and phone are present and the email has the format; each blank field gives its own message; the format message appears iff the email is present and malformed; no other message, without repeats |
| ClientModel.BlankEmailNotFormatChecked | careflow-backend/app/models/client.rb:4 | with a blank email the format rule has no effect (`allow_blank`) |
| ClientModel.DestroyDependents | careflow-backend/app/models/client.rb:2 | the cascade keeps exactly the appointments that do not belong to the client, unchanged |
| AppointmentModel.AppointmentErrors | careflow-backend/app/models/appointment.rb:2-5 | no errors iff the client exists, `scheduled_at` is present and no other appointment has that instant; exactly one message per failed rule and no other message, without repeats |
| AppointmentModel.SaveKeepsTimesDistinct | careflow-backend/app/models/appointment.rb:5 | saving a valid appointment, new or updated, keeps all stored instants pairwise distinct |
| AppointmentModel.ResaveOwnTimeValid | careflow-backend/app/models/appointment.rb:5 | re-saving an appointment with its own unchanged instant passes the uniqueness rule |
| AppointmentModel.AdjacentInstantAllowed | careflow-backend/app/models/appointment.rb:4-5 | an instant one millisecond after a booked one is valid: there is no overlap check |
| ApplicationController.ClampPage | careflow-backend/app/controllers/application_controller.rb:12-14 | the page is at least 1; any page <= 0 becomes 1; a page >= 1 is kept |
| ApplicationController.ClampPerPage | careflow-backend/app/controllers/application_controller.rb:13-16 | per_page is in [1,100]; <= 0 becomes 20; > 100 becomes 100; values in range are kept |
| ApplicationController.PaginationParams | careflow-backend/app/controllers/application_controller.rb:11-18 | absent parameters give page 1 and per_page 20; the result is always in range |
| ApplicationController.PaginationParamsIdempotent | careflow-backend/app/controllers/application_controller.rb:11-18 | clamping already-clamped parameters changes nothing |
| ApplicationController.OffsetNonNegative | careflow-backend/app/controllers/application_controller.rb:23 | the offset of a clamped page is never negative |
| ApplicationController.Paginate | careflow-backend/app/controllers/application_controller.rb:20-25 | the collection is the window of the scope that starts at the offset: at most per_page elements, empty past the end, exactly min(per_page, remaining) otherwise; it reports the clamped page and per_page it used |
| ApplicationController.ShortPageIff | careflow-backend/app/controllers/application_controller.rb:20-25 | a page is shorter than per_page iff the scope ends before the page would |
| ApplicationController.ListingOf | careflow-backend/app/controllers/application_controller.rb:20-25 | a listing's data is the rendered window of the scope, and its meta holds the clamped page and per_page and the total count of the scope |
| ApplicationController.Require | careflow-backend/app/controllers/api/appointments_controller.rb:41 | `params.require` fails iff the key is absent or empty, with the `ParameterMissing` message naming the key; otherwise it yields the nested parameters |
| ApplicationController.Permit | careflow-backend/app/controllers/api/appointments_controller.rb:41 | `permit` keeps exactly the allowed keys that are present, with their values |
| AppointmentsController.AssignParams | careflow-backend/app/controllers/api/appointments_controller.rb:40-42 | each of `client_id`, `scheduled_at` and `notes` that is present sets its attribute, cast to the attribute's type (a number given for `notes` becomes its decimal text); the others keep their value |
| AppointmentsController.NumberNotesKeptAsText | careflow-backend/app/controllers/api/appointments_controller.rb:40-42 | a number given for `notes` is stored as text that reads back as that number, not as nil |
| AppointmentsController.ExtraParamsIgnored | careflow-backend/app/controllers/api/appointments_controller.rb:40-42 | only `client_id`, `scheduled_at` and `notes` can affect the record built from a request |
| AppointmentsController.ByTime | careflow-backend/app/controllers/api/appointments_controller.rb:5 | `order(:scheduled_at)` lists every stored appointment once, in ascending instant order |
| AppointmentsController.Index | careflow-backend/app/controllers/api/appointments_controller.rb:4-11 | the page is the window of the appointments in `scheduled_at` order that starts at the offset: empty past the end, otherwise exactly min(per_page, remaining) entries, entry i being the appointment at position offset + i rendered with its client; `meta` holds the clamped page and per_page and the count of all appointments |
| AppointmentsController.IndexSortedAndStored | careflow-backend/app/controllers/api/appointments_controller.rb:4-11 | every listed appointment is a stored row, the page is in ascending `scheduled_at` order, and `meta.total` is the count of all appointments |
| AppointmentsController.Create | careflow-backend/app/controllers/api/appointments_controller.rb:13-21 | 400 with the `ParameterMissing` message as `error` and no change without an `appointment` hash; 422 with all validation messages and no row added when invalid; otherwise 201 with exactly one new row, carrying the remote id when the push returned one |
| AppointmentsController.Update | careflow-backend/app/controllers/api/appointments_controller.rb:23-30 | 404 "Appointment not found" on an unknown id; 400 with the `ParameterMissing` message as `error` without parameters; 422 leaving the row unchanged when invalid; otherwise 200 with only that row's record replaced |
| AppointmentsController.Destroy | careflow-backend/app/controllers/api/appointments_controller.rb:32-36 | removes exactly the addressed appointment and answers 204, or answers 404 and changes nothing |
| ClientsController.AssignParams | careflow-backend/app/controllers/api/clients_controller.rb:22-24 | each of `name`, `email` and `phone` that is present sets its attribute, cast to a string (a number becomes its decimal text, nil becomes blank); the others keep their value |
| ClientsController.NumberParamPresent | careflow-backend/app/controllers/api/clients_controller.rb:10-24 | a number given for name, email or phone is cast to non-blank text, so that field passes its presence validation |
| ClientsController.ExtraParamsIgnored | careflow-backend/app/controllers/api/clients_controller.rb:22-24 | only `name`, `email` and `phone` can affect the client built from a request |
| ClientsController.ByName | careflow-backend/app/controllers/api/clients_controller.rb:5 | `order(:name)` lists every stored client once, in name order |
| ClientsController.Index | careflow-backend/app/controllers/api/clients_controller.rb:4-8 | the page is the window of the clients in name order that starts at the offset: empty past the end, otherwise exactly min(per_page, remaining) clients, entry i being the client at position offset + i; `meta` holds the clamped page and per_page and the count of all clients |
| ClientsController.IndexSortedAndStored | careflow-backend/app/controllers/api/clients_controller.rb:4-8 | every listed client is a stored row, the page is in name order, and `meta.total` is the count of all clients |
| ClientsController.Create | careflow-backend/app/controllers/api/clients_controller.rb:10-18 | 400 with the `ParameterMissing` message as `error` without a `client` hash; 422 with the messages and no client added when invalid; otherwise 201 with exactly one new client, carrying the remote id when the push returned one |
| ExternalSync.SyncClientsFrom | careflow-backend/app/services/external_sync_service.rb:16-22 | the client sync loop never removes a row |
| ExternalSync.ClientStepSaves | careflow-backend/app/services/external_sync_service.rb:17-21 | one iteration saves iff the client passes its validations; after a save the external id finds the payload's fields; a failed save changes nothing |
| ExternalSync.SyncClientsCompletes | careflow-backend/app/services/external_sync_service.rb:16-22 | the loop runs to the end iff every payload entry has a name, an email and a phone and a well-formed email |
| ExternalSync.SyncClientsResult | careflow-backend/app/services/external_sync_service.rb:14-15 | a payload that is not an array changes nothing |
| ExternalSync.SyncClientsAbort | careflow-backend/app/services/external_sync_service.rb:21 | an aborted run stopped at an invalid entry, and the table holds exactly what the entries before it wrote |
| ExternalSync.SyncClientsAbortFinal | careflow-backend/app/services/external_sync_service.rb:21 | once a prefix of the payload has aborted, the later entries change nothing |
| ExternalSync.SyncClientsFailsAt | careflow-backend/app/services/external_sync_service.rb:21 | an invalid entry reached with the table unchanged so far aborts the run with the table unchanged |
| ExternalSync.SyncClientsLastWins | careflow-backend/app/services/external_sync_service.rb:16-21 | after a completed run, the client found for a remote id holds the fields of that id's last occurrence in the payload |
| ExternalSync.SyncClientsUntouched | careflow-backend/app/services/external_sync_service.rb:17 | a client whose external id does not occur in the payload is unchanged |
| ExternalSync.SyncClientsInPlace | careflow-backend/app/services/external_sync_service.rb:17-21 | when every remote id already has a local client, the run adds no row, keeps every external id, and overwrites rows in place |
| ExternalSync.SyncClientsCompletedFixed | careflow-backend/app/services/external_sync_service.rb:16-21 | re-running a completed sync on its own result changes nothing |
| ExternalSync.SyncClientsIdempotent | careflow-backend/app/services/external_sync_service.rb:16-21 | running the client sync twice with the same payload gives the same table and outcome as running it once |
| ExternalSync.SyncClientsKeepsAtMostOne | careflow-backend/app/services/external_sync_service.rb:17 | the sync never creates a second client for an external id |
| ExternalSync.SyncClientsExactlyOne | careflow-backend/app/services/external_sync_service.rb:16-21 | after a completed run, each remote id has exactly one local client, carrying the last occurrence's name, email and phone |
| ExternalSync.SyncClientsKeepsStoreValid | careflow-backend/app/services/external_sync_service.rb:16-21 | the client sync keeps every stored client valid and every appointment's client present |
| ExternalSync.AppointmentOf | careflow-backend/app/services/external_sync_service.rb:32-34 | a synced appointment belongs to the resolved client, takes `time` when present and `scheduled_at` otherwise, and takes the notes |
| ExternalSync.AppointmentStepSaves | careflow-backend/app/services/external_sync_service.rb:29-35 | one iteration skips an entry with an unknown client; otherwise it saves iff the appointment passes its validations, after which the external id finds the new record; a failed save changes nothing |
| ExternalSync.SyncAppointmentsFrom | careflow-backend/app/services/external_sync_service.rb:28-36 | the appointment sync loop never removes a row |
| ExternalSync.SyncAppointmentsResult | careflow-backend/app/services/external_sync_service.rb:26-27 | a payload that is not an array changes nothing |
| ExternalSync.SyncAppointmentsAbort | careflow-backend/app/services/external_sync_service.rb:35 | an aborted run stopped at an entry whose save failed, and the table holds exactly what the entries before it wrote |
| ExternalSync.SyncAppointmentsAbortFinal | careflow-backend/app/services/external_sync_service.rb:35 | once a prefix of the payload has aborted, the later entries change nothing |
| ExternalSync.SyncAppointmentsFailsAt | careflow-backend/app/services/external_sync_service.rb:35 | an entry whose save fails, reached with the table unchanged so far, aborts the run with the table unchanged |
| ExternalSync.WithKnownClient | careflow-backend/app/services/external_sync_service.rb:29-30 | exactly the payload entries whose client is known, in payload order (an order-preserving subsequence) |
| ExternalSync.WithKnownClientCount | careflow-backend/app/services/external_sync_service.rb:29-30 | every occurrence of an entry with a known client is kept, as many times as the payload has it, and no other entry |
| ExternalSync.SyncAppointmentsSkipsOrphans | careflow-backend/app/services/external_sync_service.rb:29-30 | entries naming no local client have no effect: dropping them gives the same result |
| ExternalSync.SyncAppointmentsKeepsValid | careflow-backend/app/services/external_sync_service.rb:28-36 | the appointment sync keeps every stored appointment valid, so stored instants stay distinct |
| ExternalSync.SyncAppointmentsUntouched | careflow-backend/app/services/external_sync_service.rb:31 | an appointment whose external id does not occur in the payload is unchanged |
| ExternalSync.SyncAppointmentsSaved | careflow-backend/app/services/external_sync_service.rb:31-35 | after a completed run, the last entry for a remote id with a known client is stored under that id, with the resolved client and the entry's instant and notes |
| ExternalSync.SyncAppointmentsCompletedFixed | careflow-backend/app/services/external_sync_service.rb:28-36 | for a payload with distinct remote ids, in a valid store, re-running a completed sync on its own result changes nothing |
| ExternalSync.SyncAppointmentsAbortedFixed | careflow-backend/app/services/external_sync_service.rb:35 | for a payload with distinct remote ids, in a valid store, re-running an aborted sync on its own result aborts again with the table unchanged |
| ExternalSync.SyncAppointmentsIdempotent | careflow-backend/app/services/external_sync_service.rb:28-36 | for a payload with distinct remote ids, in a valid store, running the appointment sync twice with the same payload gives the same table and outcome as running it once |
| ExternalSync.SyncAppointmentsRepeatedIdNotFixed | careflow-backend/app/services/external_sync_service.rb:31-35 | a payload that repeats a remote id with moving instants completes once, and the second run on its result fails uniqueness at its first entry |
| ExternalSync.SyncClients | careflow-backend/app/services/external_sync_service.rb:13-23 | the loop leaves the client table and the outcome that the fold specifies, and keeps the store valid and the appointments unchanged |
| ExternalSync.SyncAppointments | careflow-backend/app/services/external_sync_service.rb:25-37 | the loop leaves the appointment table and the outcome that the fold specifies, and keeps the store valid and the clients unchanged |
| ExternalSync.SyncAll | careflow-backend/app/services/external_sync_service.rb:8-11 | the clients are synced first, then the appointments against the new clients; a client sync that raises stops before the appointments |
| ExternalSync.CreateClient | careflow-backend/app/services/external_sync_service.rb:39-48 | the client's external id is set to the returned id when the response has one; otherwise nothing changes |
| ExternalSync.CreateAppointment | careflow-backend/app/services/external_sync_service.rb:50-59 | the appointment's external id is set to the returned id when the response has one; otherwise nothing changes |
| ApiClient.NormaliseMessage | careflow-frontend/src/api.ts:11-15 | the message is `data.error` when that is non-empty, else the joined `errors` when non-empty, else `error.message`, else "Unexpected error"; it is never empty |
| ApiClient.EmptyErrorsFallThrough | careflow-frontend/src/api.ts:13 | an empty `errors` list joins to "" and falls through as if there were no data |
| ApiClient.NormalisedErrorsContainEach | careflow-frontend/src/api.ts:13 | without an `error` field, the message contains each non-empty validation message |
| ApiClient.Intercept | careflow-frontend/src/api.ts:7-18 | a 2xx response passes through unchanged; any other status becomes a rejection with the normalised message |
| ApiClient.ErrorBodyIsTheMessage | careflow-frontend/src/api.ts:12 | a failed response with a non-empty `error` body is rejected with exactly that text |
| ApiClient.FetchQuery | careflow-frontend/src/api.ts:35-47 | the fetchers send page 1 and per_page 100 unless given other values |
| ApiClient.FetchClients | careflow-frontend/src/api.ts:35-40 | the fetched clients are the backend's window for the sent query (page 1 and per_page 100 by default): exactly min(per_page, remaining) stored clients from the offset on, in name order, at most 100 |
| ApiClient.FetchAppointments | careflow-frontend/src/api.ts:42-47 | the fetched appointments are the backend's window for the sent query: exactly min(per_page, remaining) stored appointments from the offset on, each with its client, in `scheduled_at` order, at most 100 |
| ApiClient.DefaultQueryServedAsSent | careflow-frontend/src/api.ts:35-47 | the default query is within the backend's limits, and the backend serves page 1 with 100 per page, as asked |
| ClientsList.Filtered | careflow-frontend/src/components/ClientsList.tsx:66-71 | the filtered list is an order-preserving subsequence of the clients, holding exactly the clients whose lower-cased name, email or phone contains the lower-cased search |
| ClientsList.FilteredCount | careflow-frontend/src/components/ClientsList.tsx:66-71 | every occurrence of a matching client is kept, as many times as the list has it, and no other client |
| ClientsList.FilteredAllMatch | careflow-frontend/src/components/ClientsList.tsx:66-71 | when every client matches, the filter returns the list itself |
| ClientsList.EmptySearchKeepsAll | careflow-frontend/src/components/ClientsList.tsx:66-71 | an empty search keeps every client, in order |
| ClientsList.FilteredIdempotent | careflow-frontend/src/components/ClientsList.tsx:66-71 | filtering twice with the same search is filtering once |
| ClientsList.FilteredConcat | careflow-frontend/src/components/ClientsList.tsx:66-71 | filtering distributes over concatenation, so it keeps each client's relative order |
| ClientsList.SplitFrom | careflow-frontend/src/components/ClientsList.tsx:6 | splitting on a captured pattern gives an odd number of parts whose odd-indexed parts are the matches |
| ClientsList.SplitFromConcat | careflow-frontend/src/components/ClientsList.tsx:6 | the parts of the split put back together are the text |
| ClientsList.SplitFromMarks | careflow-frontend/src/components/ClientsList.tsx:6-8 | a part equals the query in lower case exactly when it is a match (an odd-indexed part) |
| ClientsList.SplitFromFinds | careflow-frontend/src/components/ClientsList.tsx:6 | if the query occurs in the text, the split has a match part |
| ClientsList.SplitFromFound | careflow-frontend/src/components/ClientsList.tsx:6 | if the split has a match part, the query occurs in the text |
| ClientsList.MatchAtIffContains | careflow-frontend/src/components/ClientsList.tsx:6-8 | the query occurs case-insensitively at some offset iff the lower-cased text contains the lower-cased query, which is the filter's test |
| ClientsList.Highlight | careflow-frontend/src/components/ClientsList.tsx:4-16 | an empty query gives back the text unchanged; otherwise the pieces are the parts of the split, with exactly the matches marked |
| ClientsList.HighlightKeepsText | careflow-frontend/src/components/ClientsList.tsx:6-15 | the highlighted pieces put back together are the text |
| ClientsList.HighlightMarksIffContains | careflow-frontend/src/components/ClientsList.tsx:6-16 | some piece is marked iff the query occurs in the text, case-insensitively |
| ClientsList.PreviousPage | careflow-frontend/src/components/ClientsList.tsx:184 | Previous never goes below page 1 and otherwise goes back one page |
| ClientsList.NextDisabledIffLastPage | careflow-frontend/src/components/ClientsList.tsx:193 | with the listing the backend serves, Next is disabled iff there are fewer clients than `page * 10` |
| ClientsList.FullLastPageThenEmpty | careflow-frontend/src/components/ClientsList.tsx:193 | when the client count is an exact multiple of 10, Next stays enabled on the last full page and leads to an empty page |
| ClientsList.ClientsListState.constructor | careflow-frontend/src/components/ClientsList.tsx:53-56 | the list starts on page 1 with an empty search and no clients |
| ClientsList.ClientsListState.Shown | careflow-frontend/src/components/ClientsList.tsx:66-71 | the shown clients are exactly the loaded clients that match the search |
| ClientsList.ClientsListState.Previous | careflow-frontend/src/components/ClientsList.tsx:183-189 | Previous moves back one page and does nothing on page 1; nothing else changes |
| ClientsList.ClientsListState.Next | careflow-frontend/src/components/ClientsList.tsx:191-197 | Next moves forward one page unless fewer than 10 clients were loaded; nothing else changes |
| ClientsList.ClientsListState.SetSearch | careflow-frontend/src/components/ClientsList.tsx:98 | typing replaces the search and keeps the page and the loaded clients |
| ClientsList.ClientsListState.Loaded | careflow-frontend/src/components/ClientsList.tsx:62-64 | a finished fetch replaces the loaded clients and keeps the page and the search |
| NewAppointmentForm.VisibleDay | careflow-frontend/src/components/NewAppointmentForm.tsx:72-73 | the day shown is the chosen instant's day, or today's when no instant is chosen |
| NewAppointmentForm.InstantOf | careflow-frontend/src/components/NewAppointmentForm.tsx:92 | `new Date(scheduled_at)` is the stored instant when there is one, and instant 0 for a missing one |
| NewAppointmentForm.BookedTimes | careflow-frontend/src/components/NewAppointmentForm.tsx:91-95 | the booked times are exactly the fetched appointments' instants that lie between the day's 00:00:00 and 23:59:59 |
| NewAppointmentForm.BookedTimesOnDay | careflow-frontend/src/components/NewAppointmentForm.tsx:74-95 | every booked time lies on the selected day |
| NewAppointmentForm.LastSecondNotBooked | careflow-frontend/src/components/NewAppointmentForm.tsx:82-93 | an instant in the last partial second of the day (after 23:59:59.000) is on that day but never booked |
| NewAppointmentForm.SomeSameMinute | careflow-frontend/src/components/NewAppointmentForm.tsx:218-222 | true iff some booked time has the same hour and minute |
| NewAppointmentForm.FilterTime | careflow-frontend/src/components/NewAppointmentForm.tsx:214-223 | any time is allowed with no day selected or on another day; on the selected day a time is refused iff some booked time has its hour and minute |
| NewAppointmentForm.FetchedInstantRefused | careflow-frontend/src/components/NewAppointmentForm.tsx:91-95 | a fetched appointment on the selected day makes its own time refused by `filterTime` |
| NewAppointmentForm.OtherDayIgnoresBooked | careflow-frontend/src/components/NewAppointmentForm.tsx:216-217 | `filterTime`'s answer on a day other than the selected one does not depend on the booked times |
| NewAppointmentForm.PickerOffersIffFree | careflow-frontend/src/components/NewAppointmentForm.tsx:213-223 | the picker offers a time iff no booked time, of any day, has the same hour and minute |
| NewAppointmentForm.BookedMinuteRefusedOnOtherDays | careflow-frontend/src/components/NewAppointmentForm.tsx:213-217 | on a day other than the selected one, `filterTime` allows a time whose hour and minute are booked, but `excludeTimes` still removes it |
| NewAppointmentForm.BookedFetchClamped | careflow-frontend/src/components/NewAppointmentForm.tsx:90 | asking for 500 per page returns the same appointments as asking for 100, and at most 100 of them |
| NewAppointmentForm.UnlistedTimeNotBooked | careflow-frontend/src/components/NewAppointmentForm.tsx:90 | in a valid store, the appointment at position 100 or later in `scheduled_at` order is never among the booked times |
| NewAppointmentForm.SubmitErrorMessage | careflow-frontend/src/components/NewAppointmentForm.tsx:118-122 | a message containing "has already been taken" becomes the slot-booked message; another non-empty message is shown as is; an empty one becomes "Failed to create appointment" |
| NewAppointmentForm.InterceptedMessageShown | careflow-frontend/src/components/NewAppointmentForm.tsx:118-122 | an intercepted error is always shown either as the slot-booked message or as itself |
| NewAppointmentForm.TakenMessageMentionsTaken | careflow-frontend/src/components/NewAppointmentForm.tsx:119 | the backend's uniqueness message contains the fragment the form looks for |
| NewAppointmentForm.DoubleBookingShownAsBooked | careflow-frontend/src/components/NewAppointmentForm.tsx:116-122 | creating an appointment at a taken instant is rejected, and the form shows the slot-booked message |
| NewAppointmentForm.FormState.constructor | careflow-frontend/src/components/NewAppointmentForm.tsx:52-63 | the form starts with no client, no time, empty notes, not loading, no error, no toast, no booked times and no selected day |
| NewAppointmentForm.FormState.Offered | careflow-frontend/src/components/NewAppointmentForm.tsx:213-223 | a time is offered iff no booked time has its hour and minute, on any day (`excludeTimes` and `filterTime` together) |
| NewAppointmentForm.FormState.LoadBookedTimes | careflow-frontend/src/components/NewAppointmentForm.tsx:70-101 | loading sets the booked times of the visible day and selects that day; the form fields are unchanged |
| NewAppointmentForm.FormState.Submit | careflow-frontend/src/components/NewAppointmentForm.tsx:103-132 | without a client or a time: sets "Client and date/time are required." and sends nothing; otherwise it sends the fields; on rejection it shows the mapped message and keeps the fields; on success it clears the error, resets client, time and notes and raises the toast |

## Left out

- HTTP transport, JSON parsing, the `"body"` unwrapping of the mock's client list, and error logging in `get`/`post` (careflow-backend/app/services/external_sync_service.rb:63-89). A fetched payload is an already-parsed `Option<seq<...>>`, where `None` is "not an array". A POST's result is an `Option<Option<ExternalId>>`.
- The payload's fields arrive already decoded. Casting strings to ids and instants, and `to_i` of non-numeric text, are not modelled beyond "absent or not an integer".
- JSON booleans, arrays and floating-point numbers as request parameter values: a parameter value is null, an integer, a string, or an instant with its text.
- ApplicationController.Require: the value under the required key is a hash or absent. A scalar there (`{client: "x"}`), which `require` returns and `permit` then rejects with a 500 answer, is not modelled.
- `URI::MailTo::EMAIL_REGEXP` is a library regular expression. It is the parameter `emailFormat` of the database.
- The SQL database. find_by without an order is modelled as choosing the least id. Races between concurrent requests on the uniqueness check are not modelled.
- The `ParameterMissing` message's suggestion suffix. The message is the fixed text naming the key.
- The contents of the POST bodies that `create_client`/`create_appointment` send. Only the answer is modelled.
- The difference between `''` and `nil` for the remote `time` field. An absent `time` is `None`; an empty string would count as present in Ruby.
- `Api::ClientsController#record_not_found`: no action of that controller looks a client up, so the handler is unreachable, and only its message is kept.
- JavaScript `Date`, time zones, daylight saving and `toLocaleString`. A "day" is 24 hours of an integer millisecond clock. `new Date(null)` for a missing instant reads as instant 0.
- `highlight` builds a regular expression from the query. The model treats the query as literal text, so a query with regular expression syntax is not modelled.
- Unicode case mapping (`toLowerCase` is modelled on ASCII), and the database's collation (names are compared by code point).
- React rendering, skeletons, the toast timer and `onCreated`. The `loading = true` interval while the create is awaited is not observable in the model.
- The asynchronous calls of the front end. The create outcome is a parameter of `FormState.Submit`, and the fetched lists are parameters of `ClientsListState.Loaded` and `FormState.LoadBookedTimes`.
- `updateAppointment` and `deleteAppointment` in api.ts are thin wrappers of the PATCH and DELETE routes. Those routes are modelled by `AppointmentsController.Update` and `Destroy`.
- ExternalSync.SyncAppointmentsIdempotent: proved only for payloads whose remote ids are distinct, in a valid store. A payload that repeats one remote id with moving instants can make the second run fail uniqueness where the first did not (`ExternalSync.SyncAppointmentsRepeatedIdNotFixed`).
- ExternalSync.SyncAppointmentsCompletedFixed: proved only for payloads whose remote ids are distinct, in a valid store; `ExternalSync.SyncAppointmentsRepeatedIdNotFixed` is a completed run that is not a fixed point.
- react-datepicker is not part of this model. Its `excludeTimes` is modelled as removing every time whose hour and minute match a booked time, on every date; a version that also compares seconds would remove fewer times on other days. The picker's 15-minute time list and its `minDate` are not modelled.
- careflow-frontend/src/components/AppointmentsList.tsx, App.tsx, DateTimePicker.tsx, tailwind.config.js, seeds, migrations, the Sidekiq initializer and the rufus scheduler task are not part of this model.
