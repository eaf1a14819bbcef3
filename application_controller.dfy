/**
 * The shared controller behaviour: offset/limit pagination with clamped
 * parameters, strong parameters (`require`/`permit`) and the 400 answer to a
 * missing parameter.
 */
module ApplicationController {
  import opened Wrappers
  import opened Strings
  import opened Time

  const DefaultPerPage: int := 20
  const MaxPerPage: int := 100

  // HTTP statuses the controllers answer with.
  const StatusOk: int := 200
  const StatusCreated: int := 201
  const StatusNoContent: int := 204
  const StatusBadRequest: int := 400
  const StatusNotFound: int := 404
  const StatusUnprocessable: int := 422

  /** A rendered answer: its status and its JSON body. */
  datatype Response<T> = Response(status: int, body: Body<T>)

  datatype Body<T> =
    | Json(value: T)                 // the serialized record or listing
    | Errors(messages: seq<string>)  // `{ errors: [...] }`
    | Error(message: string)         // `{ error: "..." }`
    | NoContent                      // `head :no_content`

  /**
   * One request parameter value: JSON null, an integer, a string, or a string
   * that denotes an instant, kept with its text.
   */
  datatype Scalar = Null | Number(n: int) | Str(s: string) | Stamp(t: Instant, text: string)

  /** `params[:page].to_i`: an absent parameter reads as 0. */
  function ToI(param: Option<int>): int {
    param.GetOr(0)
  }

  function ClampPage(raw: int): (page: int)
    ensures page >= 1
    ensures raw <= 0 ==> page == 1
    ensures raw >= 1 ==> page == raw
  {
    if raw <= 0 then 1 else raw
  }

  function ClampPerPage(raw: int): (perPage: int)
    ensures 1 <= perPage <= MaxPerPage
    ensures raw <= 0 ==> perPage == DefaultPerPage
    ensures raw > MaxPerPage ==> perPage == MaxPerPage
    ensures 1 <= raw <= MaxPerPage ==> perPage == raw
  {
    var perPage := if raw <= 0 then DefaultPerPage else raw;
    if perPage > MaxPerPage then MaxPerPage else perPage
  }

  datatype PageParams = PageParams(page: int, perPage: int)

  /** `pagination_params`. */
  function PaginationParams(page: Option<int>, perPage: Option<int>): (r: PageParams)
    ensures r.page >= 1 && 1 <= r.perPage <= MaxPerPage
    ensures page.None? ==> r.page == 1
    ensures perPage.None? ==> r.perPage == DefaultPerPage
  {
    PageParams(ClampPage(ToI(page)), ClampPerPage(ToI(perPage)))
  }

  /** Clamping is idempotent: parameters that are already in range come back unchanged. */
  lemma PaginationParamsIdempotent(page: Option<int>, perPage: Option<int>)
    ensures var p := PaginationParams(page, perPage);
            PaginationParams(Some(p.page), Some(p.perPage)) == p
  {
  }

  /** `(page - 1) * per_page`: the number of records skipped before the requested page. */
  function Offset(p: PageParams): (r: int)
    ensures p.page >= 1 && p.perPage >= 0 ==> r >= 0
  {
    (p.page - 1) * p.perPage
  }

  lemma OffsetNonNegative(p: PageParams)
    requires p.page >= 1 && p.perPage >= 1
    ensures Offset(p) >= 0
  {
  }

  function Min(a: int, b: int): int {
    if a <= b then a else b
  }

  /**
   * `paginate`: `scope.limit(per_page).offset((page - 1) * per_page)` together
   * with the page and per_page it used.
   */
  function Paginate<T>(scope: seq<T>, page: Option<int>, perPage: Option<int>): (r: (seq<T>, PageParams))
    ensures r.1 == PaginationParams(page, perPage)
    ensures |r.0| <= r.1.perPage
    ensures Offset(r.1) >= |scope| ==> r.0 == []
    ensures Offset(r.1) < |scope| ==> |r.0| == Min(r.1.perPage, |scope| - Offset(r.1))
    ensures forall i :: 0 <= i < |r.0| ==> 0 <= Offset(r.1) + i < |scope| && r.0[i] == scope[Offset(r.1) + i]
  {
    var p := PaginationParams(page, perPage);
    OffsetNonNegative(p);
    var offset := Offset(p);
    if offset >= |scope| then ([], p)
    else (scope[offset..Min(offset + p.perPage, |scope|)], p)
  }

  /**
   * A page is short (fewer than `per_page` records) exactly when it reaches past
   * the last record, that is when `page * per_page` exceeds the count.
   */
  lemma ShortPageIff<T>(scope: seq<T>, page: Option<int>, perPage: Option<int>)
    ensures var (collection, p) := Paginate(scope, page, perPage);
            |collection| < p.perPage <==> |scope| < Offset(p) + p.perPage
  {
  }

  /** `meta: { page:, per_page:, total: }` of an index answer. */
  datatype Meta = Meta(page: int, perPage: int, total: int)

  /** An index answer: `{ data: [...], meta: {...} }`. */
  datatype Listing<T> = Listing(data: seq<T>, meta: Meta)

  /**
   * `{ data: collection, meta: { page:, per_page:, total: scope.count } }`: the
   * page of the ordered `scope`, each element as `render` shows it.
   */
  function ListingOf<V, J>(scope: seq<V>, page: Option<int>, perPage: Option<int>, render: V -> J): (r: Listing<J>)
    ensures var p := PaginationParams(page, perPage);
            && r.meta == Meta(p.page, p.perPage, |scope|)
            && |r.data| <= p.perPage
            && (Offset(p) >= |scope| ==> r.data == [])
            && (Offset(p) < |scope| ==> |r.data| == Min(p.perPage, |scope| - Offset(p)))
            && (forall i :: 0 <= i < |r.data| ==>
                  0 <= Offset(p) + i < |scope| && r.data[i] == render(scope[Offset(p) + i]))
  {
    var pg := Paginate(scope, page, perPage);
    Listing(seq(|pg.0|, i requires 0 <= i < |pg.0| => render(pg.0[i])), Meta(pg.1.page, pg.1.perPage, |scope|))
  }

  /**
   * The message of `ActionController::ParameterMissing`. `rescue_from` answers
   * it with `render_bad_request`: status 400 and the message as `error`.
   */
  function MissingParamMessage(key: string): string {
    "param is missing or the value is empty: " + key
  }

  /**
   * `params.require(key)` applied to the value found under `key`: absent, or an
   * empty hash (which is blank), raises `ParameterMissing`.
   */
  function Require(key: string, value: Option<map<string, Scalar>>): (r: Result<map<string, Scalar>>)
    ensures r.Missing? <==> value.None? || value.value == map[]
    ensures r.Missing? ==> r.message == MissingParamMessage(key)
    ensures r.Found? ==> value == Some(r.fields)
  {
    if value.None? || value.value == map[] then Missing(MissingParamMessage(key))
    else Found(value.value)
  }

  datatype Result<T> = Found(fields: T) | Missing(message: string)

  /** `permit(*allowed)`: only the allowed keys survive, with their values. */
  function Permit(fields: map<string, Scalar>, allowed: set<string>): (r: map<string, Scalar>)
    ensures r.Keys == fields.Keys * allowed
    ensures forall k :: k in r ==> r[k] == fields[k]
  {
    map k | k in fields && k in allowed :: fields[k]
  }
}
