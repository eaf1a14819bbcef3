/** `Api::ClientsController`: the listing in name order, and create. */
module ClientsController {
  import opened Wrappers
  import opened Strings
  import opened Tables
  import opened Schema
  import opened ClientModel
  import opened Store
  import opened Ordering
  import opened ApplicationController
  import opened ExternalSync

  /** `permit(:name, :email, :phone)`. */
  const Permitted: set<string> := {"name", "email", "phone"}

  /**
   * `record_not_found`. No action of this controller looks a client up by id,
   * so the handler never runs.
   */
  const NotFoundMessage := "Client not found"

  /**
   * A string attribute's cast: a string is kept, a number becomes its decimal
   * text (`to_s`), and nil reads as "".
   */
  function CastString(v: Scalar): string {
    match v
    case Null => ""
    case Number(n) => IntText(n)
    case Str(s) => s
    case Stamp(_, text) => text
  }

  /**
   * `Client.new(client_params)`: each permitted key that is present sets its
   * attribute, and the request's other keys are ignored.
   */
  function AssignParams(c: Client, body: map<string, Scalar>): (r: Client)
    ensures "name" in body ==> r.name == CastString(body["name"])
    ensures "name" !in body ==> r.name == c.name
    ensures "email" in body ==> r.email == CastString(body["email"])
    ensures "email" !in body ==> r.email == c.email
    ensures "phone" in body ==> r.phone == CastString(body["phone"])
    ensures "phone" !in body ==> r.phone == c.phone
  {
    var attrs := Permit(body, Permitted);
    Client(
      if "name" in attrs then CastString(attrs["name"]) else c.name,
      if "email" in attrs then CastString(attrs["email"]) else c.email,
      if "phone" in attrs then CastString(attrs["phone"]) else c.phone)
  }

  /**
   * A number given for name, email or phone is cast to its text, which is never
   * blank: that field passes its presence validation.
   */
  lemma NumberParamPresent(c: Client, body: map<string, Scalar>, emailFormat: string -> bool)
    ensures "name" in body && body["name"].Number? ==> NameBlank !in ClientErrors(AssignParams(c, body), emailFormat)
    ensures "email" in body && body["email"].Number? ==> EmailBlank !in ClientErrors(AssignParams(c, body), emailFormat)
    ensures "phone" in body && body["phone"].Number? ==> PhoneBlank !in ClientErrors(AssignParams(c, body), emailFormat)
  {
    if "name" in body && body["name"].Number? { IntTextPresent(body["name"].n); }
    if "email" in body && body["email"].Number? { IntTextPresent(body["email"].n); }
    if "phone" in body && body["phone"].Number? { IntTextPresent(body["phone"].n); }
  }

  /** Two requests that agree on the permitted keys build the same client. */
  lemma ExtraParamsIgnored(c: Client, b1: map<string, Scalar>, b2: map<string, Scalar>)
    requires Permit(b1, Permitted) == Permit(b2, Permitted)
    ensures AssignParams(c, b1) == AssignParams(c, b2)
  {
    assert forall k :: k in Permitted ==> (k in b1 <==> k in Permit(b1, Permitted));
    assert forall k :: k in Permitted ==> (k in b2 <==> k in Permit(b2, Permitted));
  }

  /** `render json: client`: the record's columns. */
  datatype ClientJson = ClientJson(id: Id, name: string, email: string, phone: string, externalId: Option<ExternalId>)

  function AsJson(e: (Id, Row<Client>)): ClientJson {
    ClientJson(e.0, e.1.record.name, e.1.record.email, e.1.record.phone, e.1.externalId)
  }

  predicate NameLe(a: Row<Client>, b: Row<Client>) {
    LexLe(a.record.name, b.record.name)
  }

  lemma NameLePreorder()
    ensures Preorder(NameLe)
  {
    forall a: Row<Client>, b: Row<Client>
      ensures NameLe(a, b) || NameLe(b, a)
    {
      LexLeTotal(a.record.name, b.record.name);
    }
    forall a: Row<Client>, b: Row<Client>, c: Row<Client> | NameLe(a, b) && NameLe(b, c)
      ensures NameLe(a, c)
    {
      LexLeTransitive(a.record.name, b.record.name, c.record.name);
    }
  }

  /** `Client.order(:name)`: every stored client once, in name order. */
  ghost function ByName(clients: Table<Client>): (r: seq<(Id, Row<Client>)>)
    ensures Lists(r, clients.rows) && |r| == |clients.rows|
    ensures forall i, j :: 0 <= i < j < |r| ==> LexLe(r[i].1.record.name, r[j].1.record.name)
  {
    NameLePreorder();
    OrderBy(clients.rows, NameLe)
  }

  /** `index`: the page of clients in name order; `meta` carries the clamped page and per_page and the total count. */
  ghost function Index(clients: Table<Client>, page: Option<int>, perPage: Option<int>): (r: Listing<ClientJson>)
    ensures var p := PaginationParams(page, perPage);
            && r.meta == Meta(p.page, p.perPage, |clients.rows|)
            && |r.data| <= p.perPage
            && (Offset(p) >= |clients.rows| ==> r.data == [])
            && (Offset(p) < |clients.rows| ==> |r.data| == Min(p.perPage, |clients.rows| - Offset(p)))
            && (forall i :: 0 <= i < |r.data| ==>
                  0 <= Offset(p) + i < |clients.rows| && r.data[i] == AsJson(ByName(clients)[Offset(p) + i]))
  {
    ListingOf(ByName(clients), page, perPage, AsJson)
  }

  /** The clients of a window of a listing keep the listing's name order. */
  lemma WindowSorted(sorted: seq<(Id, Row<Client>)>, data: seq<ClientJson>, offset: int)
    requires forall i, j :: 0 <= i < j < |sorted| ==> LexLe(sorted[i].1.record.name, sorted[j].1.record.name)
    requires forall i {:trigger data[i]} :: 0 <= i < |data| ==> 0 <= offset + i < |sorted| && data[i] == AsJson(sorted[offset + i])
    ensures forall i, j :: 0 <= i < j < |data| ==> LexLe(data[i].name, data[j].name)
  {
    forall i, j | 0 <= i < j < |data|
      ensures LexLe(data[i].name, data[j].name)
    {
      var ci, cj := data[i], data[j];
      assert ci == AsJson(sorted[offset + i]);
      assert cj == AsJson(sorted[offset + j]);
    }
  }

  /** The clients of a window of a listing of `m` are rows of `m`. */
  lemma WindowStored(sorted: seq<(Id, Row<Client>)>, m: map<Id, Row<Client>>, data: seq<ClientJson>, offset: int)
    requires forall i :: 0 <= i < |sorted| ==> sorted[i].0 in m && m[sorted[i].0] == sorted[i].1
    requires forall i {:trigger data[i]} :: 0 <= i < |data| ==> 0 <= offset + i < |sorted| && data[i] == AsJson(sorted[offset + i])
    ensures forall i :: 0 <= i < |data| ==> var c := data[i]; c.id in m && AsJson((c.id, m[c.id])) == c
  {
    forall i | 0 <= i < |data|
      ensures var c := data[i]; c.id in m && AsJson((c.id, m[c.id])) == c
    {
      var ci := data[i];
      assert ci == AsJson(sorted[offset + i]);
    }
  }

  /** Every listed client is a stored row, and the page is in name order. */
  lemma IndexSortedAndStored(clients: Table<Client>, page: Option<int>, perPage: Option<int>)
    ensures var r := Index(clients, page, perPage);
            && r.meta.total == |clients.rows|
            && (forall i :: 0 <= i < |r.data| ==>
                  var c := r.data[i];
                  c.id in clients.rows && AsJson((c.id, clients.rows[c.id])) == c)
            && (forall i, j :: 0 <= i < j < |r.data| ==> LexLe(r.data[i].name, r.data[j].name))
  {
    var sorted := ByName(clients);
    var r := Index(clients, page, perPage);
    var offset := Offset(PaginationParams(page, perPage));
    WindowSorted(sorted, r.data, offset);
    WindowStored(sorted, clients.rows, r.data, offset);
  }

  /**
   * `create`: 400 without a `client` hash; 422 with the validation messages
   * and no client added; otherwise 201 with the one new row, whose
   * `external_id` is the id the external API answered with, if any.
   */
  method Create(db: Database, body: Option<map<string, Scalar>>, pushed: Option<Option<ExternalId>>)
    returns (resp: Response<ClientJson>)
    requires db.Valid()
    modifies db
    ensures db.Valid()
    ensures db.appointments == old(db.appointments)
    ensures var req := Require("client", body);
            && (req.Missing? ==> resp == Response(StatusBadRequest, Error(req.message)) && db.clients == old(db.clients))
            && (req.Found? ==>
                  var c := AssignParams(NewClient, req.fields);
                  var errs := ClientErrors(c, db.emailFormat);
                  && (errs != [] ==> resp == Response(StatusUnprocessable, Errors(errs)) && db.clients == old(db.clients))
                  && (errs == [] ==>
                        var ext := if pushed.Some? && pushed.value.Some? then pushed.value else None;
                        var id := old(db.clients.nextId);
                        && id !in old(db.clients.rows)
                        && db.clients == Table(old(db.clients.rows)[id := Row(c, ext)], id + 1)
                        && resp == Response(StatusCreated, Json(AsJson((id, Row(c, ext)))))))
  {
    var req := Require("client", body);
    if req.Missing? {
      return Response(StatusBadRequest, Error(req.message));
    }
    var c := AssignParams(NewClient, req.fields);
    var errs := ClientErrors(c, db.emailFormat);
    if errs != [] {
      return Response(StatusUnprocessable, Errors(errs));
    }
    var id := db.clients.nextId;
    db.clients := Insert(db.clients, Row(c, None));
    CreateClient(db, id, pushed);
    resp := Response(StatusCreated, Json(AsJson((id, db.clients.rows[id]))));
  }
}
