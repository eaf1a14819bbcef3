/**
 * `Api::AppointmentsController`: the listing in `scheduled_at` order, and
 * create, update and destroy on the database, each answering with the status
 * the controller renders.
 */
module AppointmentsController {
  import opened Wrappers
  import opened Strings
  import opened Tables
  import opened Time
  import opened Schema
  import opened AppointmentModel
  import opened Store
  import opened Ordering
  import opened ApplicationController
  import opened ExternalSync

  /** `permit(:client_id, :scheduled_at, :notes)`. */
  const Permitted: set<string> := {"client_id", "scheduled_at", "notes"}

  /** `record_not_found`. */
  const NotFoundMessage := "Appointment not found"

  /** Id and instant casting: a value of another kind casts to nil. */
  function CastId(v: Scalar): Option<Id> {
    if v.Number? then Some(v.n) else None
  }

  function CastInstant(v: Scalar): Option<Instant> {
    if v.Stamp? then Some(v.t) else None
  }

  /** A text attribute's cast: a string is kept, a number becomes its decimal text (`to_s`), and nil stays nil. */
  function CastText(v: Scalar): Option<string> {
    match v
    case Null => None
    case Number(n) => Some(IntText(n))
    case Str(s) => Some(s)
    case Stamp(_, text) => Some(text)
  }

  /**
   * `assign_attributes(appointment_params)`: each permitted key that is present
   * overwrites its attribute, and the request's other keys are ignored.
   */
  function AssignParams(a: Appointment, body: map<string, Scalar>): (r: Appointment)
    ensures "client_id" in body ==> r.clientId == CastId(body["client_id"])
    ensures "client_id" !in body ==> r.clientId == a.clientId
    ensures "scheduled_at" in body ==> r.scheduledAt == CastInstant(body["scheduled_at"])
    ensures "scheduled_at" !in body ==> r.scheduledAt == a.scheduledAt
    ensures "notes" in body ==> r.notes == CastText(body["notes"])
    ensures "notes" !in body ==> r.notes == a.notes
  {
    var attrs := Permit(body, Permitted);
    Appointment(
      if "client_id" in attrs then CastId(attrs["client_id"]) else a.clientId,
      if "scheduled_at" in attrs then CastInstant(attrs["scheduled_at"]) else a.scheduledAt,
      if "notes" in attrs then CastText(attrs["notes"]) else a.notes)
  }

  /** A number given for `notes` is stored as text that reads back as that number. */
  lemma NumberNotesKeptAsText(a: Appointment, body: map<string, Scalar>, n: int)
    requires "notes" in body && body["notes"] == Number(n)
    ensures var notes := AssignParams(a, body).notes;
            notes.Some? && IsIntText(notes.value) && IntValue(notes.value) == n
  {
    IntTextValue(n);
  }

  /** Two requests that agree on the permitted keys assign the same record. */
  lemma ExtraParamsIgnored(a: Appointment, b1: map<string, Scalar>, b2: map<string, Scalar>)
    requires Permit(b1, Permitted) == Permit(b2, Permitted)
    ensures AssignParams(a, b1) == AssignParams(a, b2)
  {
    assert forall k :: k in Permitted ==> (k in b1 <==> k in Permit(b1, Permitted));
    assert forall k :: k in Permitted ==> (k in b2 <==> k in Permit(b2, Permitted));
  }

  /** `render json: appointment`: the record's columns. */
  datatype AppointmentJson = AppointmentJson(
    id: Id,
    clientId: Option<Id>,
    scheduledAt: Option<Instant>,
    notes: Option<string>,
    externalId: Option<ExternalId>)

  function AsJson(id: Id, row: Row<Appointment>): AppointmentJson {
    AppointmentJson(id, row.record.clientId, row.record.scheduledAt, row.record.notes, row.externalId)
  }

  /** An element of the index: the appointment with its client's `name`, `email` and `phone` (`include: :client`). */
  datatype IndexEntry = IndexEntry(appointment: AppointmentJson, client: Option<Client>)

  function Entry(clients: Table<Client>, e: (Id, Row<Appointment>)): IndexEntry {
    var cid := e.1.record.clientId;
    IndexEntry(AsJson(e.0, e.1), if cid.Some? && cid.value in clients.rows then Some(clients.rows[cid.value].record) else None)
  }

  /** Ascending instants; a nil `scheduled_at` sorts last in this model (a valid store holds none). */
  predicate AtOrBefore(x: Option<Instant>, y: Option<Instant>) {
    match (x, y)
    case (Some(s), Some(t)) => s <= t
    case (Some(_), None) => true
    case (None, Some(_)) => false
    case (None, None) => true
  }

  predicate TimeLe(a: Row<Appointment>, b: Row<Appointment>) {
    AtOrBefore(a.record.scheduledAt, b.record.scheduledAt)
  }

  lemma TimeLePreorder()
    ensures Preorder(TimeLe)
  {
  }

  /** `Appointment.order(:scheduled_at)`: every stored appointment once, in time order. */
  ghost function ByTime(appts: Table<Appointment>): (r: seq<(Id, Row<Appointment>)>)
    ensures Lists(r, appts.rows) && |r| == |appts.rows|
    ensures forall i, j :: 0 <= i < j < |r| ==> AtOrBefore(r[i].1.record.scheduledAt, r[j].1.record.scheduledAt)
  {
    TimeLePreorder();
    OrderBy(appts.rows, TimeLe)
  }

  /**
   * `index`: the page of appointments in time order, each with its client;
   * `meta` carries the clamped page and per_page and the total count.
   */
  ghost function Index(clients: Table<Client>, appts: Table<Appointment>, page: Option<int>, perPage: Option<int>)
    : (r: Listing<IndexEntry>)
    ensures var p := PaginationParams(page, perPage);
            && r.meta == Meta(p.page, p.perPage, |appts.rows|)
            && |r.data| <= p.perPage
            && (Offset(p) >= |appts.rows| ==> r.data == [])
            && (Offset(p) < |appts.rows| ==> |r.data| == Min(p.perPage, |appts.rows| - Offset(p)))
            && (forall i :: 0 <= i < |r.data| ==>
                  0 <= Offset(p) + i < |appts.rows| && r.data[i] == Entry(clients, ByTime(appts)[Offset(p) + i]))
  {
    ListingOf(ByTime(appts), page, perPage, e => Entry(clients, e))
  }

  /** The entries of a window of a listing keep the listing's order. */
  lemma WindowSorted(clients: Table<Client>, sorted: seq<(Id, Row<Appointment>)>, data: seq<IndexEntry>, offset: int)
    requires forall i, j :: 0 <= i < j < |sorted| ==> AtOrBefore(sorted[i].1.record.scheduledAt, sorted[j].1.record.scheduledAt)
    requires forall i {:trigger data[i]} :: 0 <= i < |data| ==> 0 <= offset + i < |sorted| && data[i] == Entry(clients, sorted[offset + i])
    ensures forall i, j :: 0 <= i < j < |data| ==> AtOrBefore(data[i].appointment.scheduledAt, data[j].appointment.scheduledAt)
  {
    forall i, j | 0 <= i < j < |data|
      ensures AtOrBefore(data[i].appointment.scheduledAt, data[j].appointment.scheduledAt)
    {
      var di, dj := data[i], data[j];
      assert di == Entry(clients, sorted[offset + i]);
      assert dj == Entry(clients, sorted[offset + j]);
    }
  }

  /** The entries of a window of a listing of `m` show rows of `m`. */
  lemma WindowStored(clients: Table<Client>, sorted: seq<(Id, Row<Appointment>)>, m: map<Id, Row<Appointment>>, data: seq<IndexEntry>, offset: int)
    requires forall i :: 0 <= i < |sorted| ==> sorted[i].0 in m && m[sorted[i].0] == sorted[i].1
    requires forall i {:trigger data[i]} :: 0 <= i < |data| ==> 0 <= offset + i < |sorted| && data[i] == Entry(clients, sorted[offset + i])
    ensures forall i :: 0 <= i < |data| ==> var a := data[i].appointment; a.id in m && AsJson(a.id, m[a.id]) == a
  {
    forall i | 0 <= i < |data|
      ensures var a := data[i].appointment; a.id in m && AsJson(a.id, m[a.id]) == a
    {
      var di := data[i];
      assert di == Entry(clients, sorted[offset + i]);
    }
  }

  /** Every listed appointment is a stored row, and the page is in ascending `scheduled_at` order. */
  lemma IndexSortedAndStored(clients: Table<Client>, appts: Table<Appointment>, page: Option<int>, perPage: Option<int>)
    ensures var r := Index(clients, appts, page, perPage);
            && r.meta.total == |appts.rows|
            && (forall i :: 0 <= i < |r.data| ==>
                  var a := r.data[i].appointment;
                  a.id in appts.rows && AsJson(a.id, appts.rows[a.id]) == a)
            && (forall i, j :: 0 <= i < j < |r.data| ==>
                  AtOrBefore(r.data[i].appointment.scheduledAt, r.data[j].appointment.scheduledAt))
  {
    var sorted := ByTime(appts);
    var r := Index(clients, appts, page, perPage);
    var offset := Offset(PaginationParams(page, perPage));
    WindowSorted(clients, sorted, r.data, offset);
    WindowStored(clients, sorted, appts.rows, r.data, offset);
  }

  /**
   * `create`: 400 without an `appointment` hash; 422 with the validation
   * messages and nothing saved; otherwise 201 with the one new row, whose
   * `external_id` is the id the external API answered with, if any.
   */
  method Create(db: Database, body: Option<map<string, Scalar>>, pushed: Option<Option<ExternalId>>)
    returns (resp: Response<AppointmentJson>)
    requires db.Valid()
    modifies db
    ensures db.Valid()
    ensures db.clients == old(db.clients)
    ensures var req := Require("appointment", body);
            && (req.Missing? ==> resp == Response(StatusBadRequest, Error(req.message)) && db.appointments == old(db.appointments))
            && (req.Found? ==>
                  var a := AssignParams(NewAppointment, req.fields);
                  var errs := AppointmentErrors(old(db.clients), old(db.appointments), None, a);
                  && (errs != [] ==> resp == Response(StatusUnprocessable, Errors(errs)) && db.appointments == old(db.appointments))
                  && (errs == [] ==>
                        var ext := if pushed.Some? && pushed.value.Some? then pushed.value else None;
                        var id := old(db.appointments.nextId);
                        && id !in old(db.appointments.rows)
                        && db.appointments == Table(old(db.appointments.rows)[id := Row(a, ext)], id + 1)
                        && resp == Response(StatusCreated, Json(AsJson(id, Row(a, ext))))))
  {
    var req := Require("appointment", body);
    if req.Missing? {
      return Response(StatusBadRequest, Error(req.message));
    }
    var a := AssignParams(NewAppointment, req.fields);
    var errs := AppointmentErrors(db.clients, db.appointments, None, a);
    if errs != [] {
      return Response(StatusUnprocessable, Errors(errs));
    }
    var id := db.appointments.nextId;
    SaveKeepsTimesDistinct(db.clients, db.appointments, None, id, a, None);
    db.appointments := Insert(db.appointments, Row(a, None));
    CreateAppointment(db, id, pushed);
    resp := Response(StatusCreated, Json(AsJson(id, db.appointments.rows[id])));
  }

  /**
   * `update`: 404 for an unknown id (the lookup comes before the parameters);
   * 400 without an `appointment` hash; 422 with the messages and the stored row
   * unchanged; otherwise 200 with the row as assigned.
   */
  method Update(db: Database, id: Id, body: Option<map<string, Scalar>>) returns (resp: Response<AppointmentJson>)
    requires db.Valid()
    modifies db
    ensures db.Valid()
    ensures db.clients == old(db.clients)
    ensures id !in old(db.appointments.rows) ==>
              resp == Response(StatusNotFound, Error(NotFoundMessage)) && db.appointments == old(db.appointments)
    ensures id in old(db.appointments.rows) ==>
              var req := Require("appointment", body);
              var row := old(db.appointments.rows[id]);
              && (req.Missing? ==> resp == Response(StatusBadRequest, Error(req.message)) && db.appointments == old(db.appointments))
              && (req.Found? ==>
                    var a := AssignParams(row.record, req.fields);
                    var errs := AppointmentErrors(old(db.clients), old(db.appointments), Some(id), a);
                    && (errs != [] ==> resp == Response(StatusUnprocessable, Errors(errs)) && db.appointments == old(db.appointments))
                    && (errs == [] ==>
                          && db.appointments == old(db.appointments).(rows := old(db.appointments.rows)[id := row.(record := a)])
                          && resp == Response(StatusOk, Json(AsJson(id, row.(record := a))))))
  {
    if id !in db.appointments.rows {
      return Response(StatusNotFound, Error(NotFoundMessage));
    }
    var req := Require("appointment", body);
    if req.Missing? {
      return Response(StatusBadRequest, Error(req.message));
    }
    var row := db.appointments.rows[id];
    var a := AssignParams(row.record, req.fields);
    var errs := AppointmentErrors(db.clients, db.appointments, Some(id), a);
    if errs != [] {
      return Response(StatusUnprocessable, Errors(errs));
    }
    SaveKeepsTimesDistinct(db.clients, db.appointments, Some(id), id, a, row.externalId);
    db.appointments := db.appointments.(rows := db.appointments.rows[id := row.(record := a)]);
    resp := Response(StatusOk, Json(AsJson(id, row.(record := a))));
  }

  /** `destroy`: 204 after removing exactly the addressed row, or 404 for an unknown id. */
  method Destroy(db: Database, id: Id) returns (resp: Response<AppointmentJson>)
    requires db.Valid()
    modifies db
    ensures db.Valid()
    ensures db.clients == old(db.clients)
    ensures id in old(db.appointments.rows) ==>
              resp == Response(StatusNoContent, NoContent)
              && db.appointments == old(db.appointments).(rows := old(db.appointments.rows) - {id})
    ensures id !in old(db.appointments.rows) ==>
              resp == Response(StatusNotFound, Error(NotFoundMessage)) && db.appointments == old(db.appointments)
  {
    if id !in db.appointments.rows {
      return Response(StatusNotFound, Error(NotFoundMessage));
    }
    db.appointments := db.appointments.(rows := db.appointments.rows - {id});
    resp := Response(StatusNoContent, NoContent);
  }
}
