/**
 * The frontend's HTTP client: the response interceptor that turns every failed
 * request into an `Error` with one normalised message, and the fetchers'
 * default query parameters.
 */
module ApiClient {
  import opened Wrappers
  import opened Strings
  import opened Tables
  import opened Schema
  import opened ApplicationController
  import ClientsController
  import AppointmentsController

  /**
   * The two fields of an error response's JSON body that the interceptor reads:
   * `error` (None when absent or null) and `errors` (None when it is not an
   * array, so that `errors?.join?.(', ')` is undefined).
   */
  datatype ErrorData = ErrorData(error: Option<string>, errors: Option<seq<string>>)

  const UnexpectedError := "Unexpected error"

  /** A string-or-undefined value as a string: both "" and undefined are falsy. */
  function TextOf(v: Option<string>): string {
    v.GetOr("")
  }

  /** `data?.error`, with undefined data read as "". */
  function ErrorField(data: Option<ErrorData>): string {
    if data.Some? then TextOf(data.value.error) else ""
  }

  /** `data?.errors?.join?.(', ')`, with undefined read as "". */
  function JoinedErrors(data: Option<ErrorData>): string {
    if data.Some? && data.value.errors.Some? then Join(data.value.errors.value, ", ") else ""
  }

  /**
   * `data.error || data.errors.join(', ') || error.message || 'Unexpected error'`:
   * the first truthy candidate, so the message is never empty.
   */
  function NormaliseMessage(data: Option<ErrorData>, message: string): (m: string)
    ensures m != ""
    ensures ErrorField(data) != "" ==> m == ErrorField(data)
    ensures ErrorField(data) == "" && JoinedErrors(data) != "" ==> m == JoinedErrors(data)
    ensures ErrorField(data) == "" && JoinedErrors(data) == "" && message != "" ==> m == message
    ensures ErrorField(data) == "" && JoinedErrors(data) == "" && message == "" ==> m == UnexpectedError
  {
    if ErrorField(data) != "" then ErrorField(data)
    else if JoinedErrors(data) != "" then JoinedErrors(data)
    else if message != "" then message
    else UnexpectedError
  }

  /** An empty `errors` list joins to "" and falls through to the next candidate. */
  lemma EmptyErrorsFallThrough(message: string)
    ensures NormaliseMessage(Some(ErrorData(None, Some([]))), message) == NormaliseMessage(None, message)
  {
  }

  /** Without `error`, the message names every non-empty validation message of `errors`. */
  lemma NormalisedErrorsContainEach(errs: seq<string>, message: string, i: int)
    requires 0 <= i < |errs| && errs[i] != ""
    ensures Contains(NormaliseMessage(Some(ErrorData(None, Some(errs))), message), errs[i])
  {
    ContainsAt(errs[i], errs[i], 0);
    JoinContains(errs, ", ", i, errs[i]);
  }

  /** The JSON body the backend renders, as the interceptor sees it. */
  function DataOf<T>(b: Body<T>): ErrorData {
    match b
    case Errors(ms) => ErrorData(None, Some(ms))
    case Error(m) => ErrorData(Some(m), None)
    case _ => ErrorData(None, None)
  }

  /** A request's outcome: the response, or the rejected `Error`'s message. */
  datatype Outcome<T> = Resolved(response: Response<T>) | Rejected(message: string)

  /**
   * The interceptor on a response: a 2xx answer passes through unchanged (`(r) => r`);
   * any other status rejects with the normalised message. `message` is axios's own
   * message for the failure.
   */
  function Intercept<T>(resp: Response<T>, message: string): (o: Outcome<T>)
    ensures 200 <= resp.status < 300 ==> o == Resolved(resp)
    ensures !(200 <= resp.status < 300) ==> o == Rejected(NormaliseMessage(Some(DataOf(resp.body)), message))
  {
    if 200 <= resp.status < 300 then Resolved(resp)
    else Rejected(NormaliseMessage(Some(DataOf(resp.body)), message))
  }

  /** A `{ error: message }` answer with a non-empty message rejects with exactly that message. */
  lemma ErrorBodyIsTheMessage<T>(resp: Response<T>, message: string)
    requires !(200 <= resp.status < 300) && resp.body.Error? && resp.body.message != ""
    ensures Intercept(resp, message) == Rejected(resp.body.message)
  {
  }

  /** The query `fetchClients(page = 1, perPage = 100)` and `fetchAppointments` send. */
  datatype Query = Query(page: int, perPage: int)

  const FetchDefaultPage: int := 1
  const FetchDefaultPerPage: int := 100

  function FetchQuery(page: Option<int>, perPage: Option<int>): (q: Query)
    ensures q.page == (if page.Some? then page.value else FetchDefaultPage)
    ensures q.perPage == (if perPage.Some? then perPage.value else FetchDefaultPerPage)
  {
    Query(page.GetOr(FetchDefaultPage), perPage.GetOr(FetchDefaultPerPage))
  }

  /** The defaults are within the backend's bounds, so the backend serves exactly page 1 of 100. */
  lemma DefaultQueryServedAsSent()
    ensures var q := FetchQuery(None, None);
            PaginationParams(Some(q.page), Some(q.perPage)) == PageParams(1, 100)
  {
  }

  /** `fetchClients(page, perPage)` against the backend: the `data` of the clients index. */
  ghost function FetchClients(clients: Table<Client>, page: Option<int>, perPage: Option<int>): (r: seq<ClientsController.ClientJson>)
    ensures |r| <= MaxPerPage
    ensures var q := FetchQuery(page, perPage);
            var p := PaginationParams(Some(q.page), Some(q.perPage));
            && |r| == (if Offset(p) >= |clients.rows| then 0 else Min(p.perPage, |clients.rows| - Offset(p)))
            && (forall i :: 0 <= i < |r| ==>
                  0 <= Offset(p) + i < |clients.rows| && r[i] == ClientsController.AsJson(ClientsController.ByName(clients)[Offset(p) + i]))
    ensures forall i :: 0 <= i < |r| ==>
              var c := r[i]; c.id in clients.rows && ClientsController.AsJson((c.id, clients.rows[c.id])) == c
    ensures forall i, j :: 0 <= i < j < |r| ==> LexLe(r[i].name, r[j].name)
  {
    var q := FetchQuery(page, perPage);
    var listing := ClientsController.Index(clients, Some(q.page), Some(q.perPage));
    ClientsController.IndexSortedAndStored(clients, Some(q.page), Some(q.perPage));
    assert |ClientsController.ByName(clients)| == |clients.rows|;
    listing.data
  }

  /** `fetchAppointments(page, perPage)` against the backend: the `data` of the appointments index. */
  ghost function FetchAppointments(clients: Table<Client>, appts: Table<Appointment>, page: Option<int>, perPage: Option<int>)
    : (r: seq<AppointmentsController.IndexEntry>)
    ensures |r| <= MaxPerPage
    ensures var q := FetchQuery(page, perPage);
            var p := PaginationParams(Some(q.page), Some(q.perPage));
            && |r| == (if Offset(p) >= |appts.rows| then 0 else Min(p.perPage, |appts.rows| - Offset(p)))
            && (forall i :: 0 <= i < |r| ==>
                  0 <= Offset(p) + i < |appts.rows|
                  && r[i] == AppointmentsController.Entry(clients, AppointmentsController.ByTime(appts)[Offset(p) + i]))
    ensures forall i :: 0 <= i < |r| ==>
              var a := r[i].appointment; a.id in appts.rows && AppointmentsController.AsJson(a.id, appts.rows[a.id]) == a
    ensures forall i, j :: 0 <= i < j < |r| ==>
              AppointmentsController.AtOrBefore(r[i].appointment.scheduledAt, r[j].appointment.scheduledAt)
  {
    var q := FetchQuery(page, perPage);
    var listing := AppointmentsController.Index(clients, appts, Some(q.page), Some(q.perPage));
    AppointmentsController.IndexSortedAndStored(clients, appts, Some(q.page), Some(q.perPage));
    assert |AppointmentsController.ByTime(appts)| == |appts.rows|;
    listing.data
  }
}
