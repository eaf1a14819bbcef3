/**
 * `ExternalSyncService`: pulls the external API's clients and appointments and
 * upserts them by `external_id`, and pushes a new local record, storing the id
 * the API assigns to it.
 *
 * Each `response.each` loop is specified by a fold over the payload, defined
 * from its last element so that it matches the loop's invariant over the
 * prefix `P[..i]`. The fold's flag is false once a `save!` has raised: the rows
 * saved before stay, and nothing after the failing element runs.
 */
module ExternalSync {
  import opened Wrappers
  import opened Strings
  import opened Tables
  import opened Time
  import opened Schema
  import opened ClientModel
  import opened AppointmentModel
  import opened Store
  import opened Sequences

  /** One element of the `/clients` payload. */
  datatype RemoteClient = RemoteClient(id: Option<ExternalId>, name: string, email: string, phone: string)

  /** One element of the `/appointments` payload; `time` and `scheduled_at` are alternative keys for its instant. */
  datatype RemoteAppointment = RemoteAppointment(
    id: Option<ExternalId>,
    clientId: Option<ExternalId>,
    time: Option<Instant>,
    scheduledAt: Option<Instant>,
    notes: Option<string>)

  // ---------------------------------------------------------------- sync_clients

  /** The client record once `name`, `email` and `phone` are overwritten from the payload. */
  function ClientOf(e: RemoteClient): Client {
    Client(e.name, e.email, e.phone)
  }

  /** The element's client passes its validations: `ClientErrors` is empty exactly then. */
  predicate ClientEntryValid(e: RemoteClient, emailFormat: string -> bool) {
    Present(e.name) && Present(e.email) && Present(e.phone) && emailFormat(e.email)
  }

  /** One iteration: `find_or_initialize_by`, assign, `save!`; the flag is false when `save!` raises. */
  function ClientStep(t: Table<Client>, e: RemoteClient, emailFormat: string -> bool): (r: (Table<Client>, bool))
    requires WellFormed(t)
    ensures WellFormed(r.0)
  {
    if ClientEntryValid(e, emailFormat) then (Upsert(t, e.id, ClientOf(e)), true) else (t, false)
  }

  /**
   * An iteration saves exactly when the client passes its validations; then
   * looking its external id up finds the payload's fields, and otherwise the
   * table is unchanged.
   */
  lemma ClientStepSaves(t: Table<Client>, e: RemoteClient, emailFormat: string -> bool)
    requires WellFormed(t)
    ensures var r := ClientStep(t, e, emailFormat);
            && (r.1 <==> ClientErrors(ClientOf(e), emailFormat) == [])
            && (r.1 ==> FindByExternalId(r.0, e.id).Some? && r.0.rows[FindByExternalId(r.0, e.id).value] == Row(ClientOf(e), e.id))
            && (!r.1 ==> r.0 == t)
  {
    if ClientEntryValid(e, emailFormat) {
      UpsertHit(t, e.id, ClientOf(e));
    }
  }

  /**
   * The clients table after the loop over `P`, and whether it ran to the end.
   * The sync never deletes a client.
   */
  function SyncClientsFrom(t: Table<Client>, P: seq<RemoteClient>, emailFormat: string -> bool): (r: (Table<Client>, bool))
    requires WellFormed(t)
    ensures WellFormed(r.0)
    ensures t.rows.Keys <= r.0.rows.Keys
    decreases |P|
  {
    if P == [] then (t, true)
    else
      var s := SyncClientsFrom(t, P[..|P| - 1], emailFormat);
      if !s.1 then s else ClientStep(s.0, P[|P| - 1], emailFormat)
  }

  /** The sync completes exactly when every element of the payload is a valid client. */
  lemma {:induction false} SyncClientsCompletes(t: Table<Client>, P: seq<RemoteClient>, emailFormat: string -> bool)
    requires WellFormed(t)
    ensures SyncClientsFrom(t, P, emailFormat).1 <==> forall j :: 0 <= j < |P| ==> ClientEntryValid(P[j], emailFormat)
    decreases |P|
  {
    if P != [] {
      var Q := P[..|P| - 1];
      SyncClientsCompletes(t, Q, emailFormat);
      assert forall j :: 0 <= j < |Q| ==> Q[j] == P[j];
    }
  }

  /** `sync_clients`: a response that is not an array (`get` returned nil or an object) changes nothing. */
  function SyncClientsResult(t: Table<Client>, payload: Option<seq<RemoteClient>>, emailFormat: string -> bool): (r: (Table<Client>, bool))
    requires WellFormed(t)
    ensures payload.None? ==> r == (t, true)
    ensures payload.Some? ==> r == SyncClientsFrom(t, payload.value, emailFormat)
  {
    match payload
    case None => (t, true)
    case Some(P) => SyncClientsFrom(t, P, emailFormat)
  }

  /** The position of the last payload element with external id `x`, or -1. */
  function LastClientWith(P: seq<RemoteClient>, x: Option<ExternalId>): (k: int)
    ensures -1 <= k < |P|
    ensures k >= 0 ==> P[k].id == x && forall j :: k < j < |P| ==> P[j].id != x
    ensures k == -1 ==> forall j :: 0 <= j < |P| ==> P[j].id != x
    decreases |P|
  {
    if P == [] then -1
    else if P[|P| - 1].id == x then |P| - 1
    else LastClientWith(P[..|P| - 1], x)
  }

  /** The loop over one more element is one more step, unless the run has already stopped. */
  lemma SyncClientsPrefixStep(t: Table<Client>, P: seq<RemoteClient>, i: int, emailFormat: string -> bool)
    requires WellFormed(t) && 0 <= i < |P|
    ensures var s := SyncClientsFrom(t, P[..i], emailFormat);
            SyncClientsFrom(t, P[..i + 1], emailFormat) == if s.1 then ClientStep(s.0, P[i], emailFormat) else s
  {
    assert P[..i + 1][..i] == P[..i];
  }

  /** A failed run stopped at an invalid element `P[k]`, after saving `P[..k]`. */
  lemma {:induction false} SyncClientsAbort(t: Table<Client>, P: seq<RemoteClient>, emailFormat: string -> bool)
    requires WellFormed(t)
    ensures var r := SyncClientsFrom(t, P, emailFormat);
            !r.1 ==> exists k :: 0 <= k < |P| && SyncClientsFrom(t, P[..k], emailFormat) == (r.0, true)
                                 && !ClientEntryValid(P[k], emailFormat)
    decreases |P|
  {
    if P != [] {
      var Q := P[..|P| - 1];
      var s := SyncClientsFrom(t, Q, emailFormat);
      if !s.1 {
        SyncClientsAbort(t, Q, emailFormat);
        var k :| 0 <= k < |Q| && SyncClientsFrom(t, Q[..k], emailFormat) == (s.0, true)
                 && !ClientEntryValid(Q[k], emailFormat);
        assert Q[..k] == P[..k];
      } else {
        assert P[..|Q|] == Q;
      }
    }
  }

  /** Once a prefix has failed, the rest of the payload is never looked at. */
  lemma {:induction false} SyncClientsAbortFinal(t: Table<Client>, P: seq<RemoteClient>, i: nat, emailFormat: string -> bool)
    requires WellFormed(t) && i <= |P|
    requires !SyncClientsFrom(t, P[..i], emailFormat).1
    ensures SyncClientsFrom(t, P, emailFormat) == SyncClientsFrom(t, P[..i], emailFormat)
    decreases |P|
  {
    if i < |P| {
      var Q := P[..|P| - 1];
      assert Q[..i] == P[..i];
      SyncClientsAbortFinal(t, Q, i, emailFormat);
    } else {
      assert P[..i] == P;
    }
  }

  /**
   * After a completed run, the row found for a remote id holds the fields of
   * the LAST payload element with that id.
   */
  lemma {:induction false} SyncClientsLastWins(t: Table<Client>, P: seq<RemoteClient>, emailFormat: string -> bool, x: Option<ExternalId>)
    requires WellFormed(t)
    requires SyncClientsFrom(t, P, emailFormat).1 && LastClientWith(P, x) >= 0
    ensures var r := SyncClientsFrom(t, P, emailFormat).0;
            && FindByExternalId(r, x).Some?
            && r.rows[FindByExternalId(r, x).value] == Row(ClientOf(P[LastClientWith(P, x)]), x)
    decreases |P|
  {
    var Q := P[..|P| - 1];
    var e := P[|P| - 1];
    var s := SyncClientsFrom(t, Q, emailFormat);
    if e.id == x {
      UpsertHit(s.0, x, ClientOf(e));
    } else {
      assert LastClientWith(P, x) == LastClientWith(Q, x);
      SyncClientsLastWins(t, Q, emailFormat, x);
      UpsertFrame(s.0, e.id, ClientOf(e), x);
      assert FindByExternalId(s.0, x).value != UpsertTarget(s.0, e.id);
    }
  }

  /** A local client whose external id no payload element carries keeps its row. */
  lemma {:induction false} SyncClientsUntouched(t: Table<Client>, P: seq<RemoteClient>, emailFormat: string -> bool, id: Id)
    requires WellFormed(t) && id in t.rows
    requires forall j :: 0 <= j < |P| ==> P[j].id != t.rows[id].externalId
    ensures var r := SyncClientsFrom(t, P, emailFormat).0;
            id in r.rows && r.rows[id] == t.rows[id]
    decreases |P|
  {
    if P != [] {
      var Q := P[..|P| - 1];
      var e := P[|P| - 1];
      SyncClientsUntouched(t, Q, emailFormat, id);
      var s := SyncClientsFrom(t, Q, emailFormat);
      if s.1 && ClientEntryValid(e, emailFormat) {
        assert UpsertTarget(s.0, e.id) != id;
      }
    }
  }

  /** The row `id` of `t` once the payload has overwritten the row each of its remote ids finds. */
  function InPlaceRow(t: Table<Client>, P: seq<RemoteClient>, id: Id): Row<Client>
    requires id in t.rows
  {
    var x := t.rows[id].externalId;
    var k := LastClientWith(P, x);
    if k >= 0 && IsFirstWith(t, x, id) then Row(ClientOf(P[k]), x) else t.rows[id]
  }

  /** On a table where every payload element finds its row, a valid payload only overwrites rows. */
  lemma {:induction false} SyncClientsInPlace(t: Table<Client>, P: seq<RemoteClient>, emailFormat: string -> bool)
    requires WellFormed(t)
    requires forall j :: 0 <= j < |P| ==> FindByExternalId(t, P[j].id).Some?
    requires forall j :: 0 <= j < |P| ==> ClientEntryValid(P[j], emailFormat)
    ensures var r := SyncClientsFrom(t, P, emailFormat).0;
            && r.nextId == t.nextId && r.rows.Keys == t.rows.Keys
            && (forall id :: id in t.rows ==> r.rows[id].externalId == t.rows[id].externalId)
            && (forall id :: id in t.rows ==> r.rows[id] == InPlaceRow(t, P, id))
    decreases |P|
  {
    if P != [] {
      var Q := P[..|P| - 1];
      var e := P[|P| - 1];
      SyncClientsInPlace(t, Q, emailFormat);
      SyncClientsCompletes(t, Q, emailFormat);
      var s := SyncClientsFrom(t, Q, emailFormat).0;
      FindSameExternalIds(t, s, e.id);
      var id0 := FindByExternalId(t, e.id).value;
      var r := SyncClientsFrom(t, P, emailFormat).0;
      assert r.rows == s.rows[id0 := Row(ClientOf(e), e.id)];
      forall id | id in t.rows
        ensures r.rows[id] == InPlaceRow(t, P, id)
      {
        var y := t.rows[id].externalId;
        if id != id0 {
          if y == e.id {
            assert id < id0 || id0 < id;
            assert !IsFirstWith(t, y, id);
          } else {
            assert LastClientWith(P, y) == LastClientWith(Q, y);
          }
        }
      }
    }
  }

  /** A completed run leaves a table the same payload does not change. */
  lemma SyncClientsCompletedFixed(t: Table<Client>, P: seq<RemoteClient>, emailFormat: string -> bool)
    requires WellFormed(t) && SyncClientsFrom(t, P, emailFormat).1
    ensures var r := SyncClientsFrom(t, P, emailFormat);
            SyncClientsFrom(r.0, P, emailFormat) == r
  {
    var r := SyncClientsFrom(t, P, emailFormat);
    var s := r.0;
    forall j | 0 <= j < |P|
      ensures FindByExternalId(s, P[j].id).Some?
    {
      SyncClientsLastWins(t, P, emailFormat, P[j].id);
    }
    SyncClientsCompletes(t, P, emailFormat);
    SyncClientsInPlace(s, P, emailFormat);
    SyncClientsCompletes(s, P, emailFormat);
    var r2 := SyncClientsFrom(s, P, emailFormat);
    forall id | id in s.rows
      ensures r2.0.rows[id] == s.rows[id]
    {
      var x := s.rows[id].externalId;
      if LastClientWith(P, x) >= 0 && IsFirstWith(s, x, id) {
        SyncClientsLastWins(t, P, emailFormat, x);
        FindDetermined(s, x, Some(id));
      }
    }
    assert r2.0.rows == s.rows;
  }

  /** A run whose prefix `P[..k]` changes nothing and whose element `P[k]` is invalid ends where it started. */
  lemma SyncClientsFailsAt(s: Table<Client>, P: seq<RemoteClient>, k: int, emailFormat: string -> bool)
    requires WellFormed(s) && 0 <= k < |P|
    requires SyncClientsFrom(s, P[..k], emailFormat) == (s, true)
    requires !ClientEntryValid(P[k], emailFormat)
    ensures SyncClientsFrom(s, P, emailFormat) == (s, false)
  {
    var failed := P[..k + 1];
    assert failed[..k] == P[..k] && failed[k] == P[k];
    SyncClientsAbortFinal(s, P, k + 1, emailFormat);
  }

  /** Running `sync_clients` twice on the same payload leaves the store as running it once, failed or not. */
  lemma SyncClientsIdempotent(t: Table<Client>, P: seq<RemoteClient>, emailFormat: string -> bool)
    requires WellFormed(t)
    ensures var r := SyncClientsFrom(t, P, emailFormat);
            SyncClientsFrom(r.0, P, emailFormat) == r
  {
    var r := SyncClientsFrom(t, P, emailFormat);
    if r.1 {
      SyncClientsCompletedFixed(t, P, emailFormat);
    } else {
      SyncClientsAbort(t, P, emailFormat);
      var k :| 0 <= k < |P| && SyncClientsFrom(t, P[..k], emailFormat) == (r.0, true)
               && !ClientEntryValid(P[k], emailFormat);
      SyncClientsCompletedFixed(t, P[..k], emailFormat);
      SyncClientsFailsAt(r.0, P, k, emailFormat);
    }
  }

  /** The sync never gives two local clients the same external id. */
  lemma {:induction false} SyncClientsKeepsAtMostOne(t: Table<Client>, P: seq<RemoteClient>, emailFormat: string -> bool, x: Option<ExternalId>)
    requires WellFormed(t) && AtMostOneWith(t, x)
    ensures AtMostOneWith(SyncClientsFrom(t, P, emailFormat).0, x)
    decreases |P|
  {
    if P != [] {
      var Q := P[..|P| - 1];
      var e := P[|P| - 1];
      SyncClientsKeepsAtMostOne(t, Q, emailFormat, x);
      var s := SyncClientsFrom(t, Q, emailFormat);
      if s.1 && ClientEntryValid(e, emailFormat) {
        UpsertKeepsAtMostOne(s.0, e.id, ClientOf(e), x);
      }
    }
  }

  /**
   * After a completed run, each remote id of the payload has exactly one local
   * client (when it had at most one before), holding that id's last fields.
   */
  lemma SyncClientsExactlyOne(t: Table<Client>, P: seq<RemoteClient>, emailFormat: string -> bool, j: int)
    requires WellFormed(t) && 0 <= j < |P| && AtMostOneWith(t, P[j].id)
    requires SyncClientsFrom(t, P, emailFormat).1
    ensures var r := SyncClientsFrom(t, P, emailFormat).0;
            && AtMostOneWith(r, P[j].id)
            && FindByExternalId(r, P[j].id).Some?
            && r.rows[FindByExternalId(r, P[j].id).value] == Row(ClientOf(P[LastClientWith(P, P[j].id)]), P[j].id)
  {
    SyncClientsKeepsAtMostOne(t, P, emailFormat, P[j].id);
    SyncClientsLastWins(t, P, emailFormat, P[j].id);
  }

  /** The sync keeps the store valid: it saves only valid clients and deletes none. */
  lemma {:induction false} SyncClientsKeepsStoreValid(t: Table<Client>, appts: Table<Appointment>, P: seq<RemoteClient>, emailFormat: string -> bool)
    requires StoreValid(t, appts, emailFormat)
    ensures StoreValid(SyncClientsFrom(t, P, emailFormat).0, appts, emailFormat)
    decreases |P|
  {
    if P != [] {
      SyncClientsKeepsStoreValid(t, appts, P[..|P| - 1], emailFormat);
    }
  }

  // ----------------------------------------------------------- sync_appointments

  /**
   * The record after `appt.client = client`, `scheduled_at = time || scheduled_at`
   * and `notes = notes`: a `time` key takes precedence over `scheduled_at`.
   */
  function AppointmentOf(clientId: Id, e: RemoteAppointment): (a: Appointment)
    ensures a.clientId == Some(clientId) && a.notes == e.notes
    ensures e.time.Some? ==> a.scheduledAt == e.time
    ensures e.time.None? ==> a.scheduledAt == e.scheduledAt
  {
    Appointment(Some(clientId), if e.time.Some? then e.time else e.scheduledAt, e.notes)
  }

  /** The element's client is known locally (`Client.find_by(external_id: client_id)`). */
  predicate KnownClient(clients: Table<Client>, e: RemoteAppointment)
    requires WellFormed(clients)
  {
    FindByExternalId(clients, e.clientId).Some?
  }

  /**
   * One iteration: skip an element whose client is unknown; otherwise
   * `find_or_initialize_by`, assign, `save!`, validating against the record's
   * own row when it was found and as a new record when it was not.
   */
  function AppointmentStep(clients: Table<Client>, t: Table<Appointment>, e: RemoteAppointment): (r: (Table<Appointment>, bool))
    requires WellFormed(clients) && WellFormed(t)
    ensures WellFormed(r.0)
  {
    match FindByExternalId(clients, e.clientId)
    case None => (t, true)
    case Some(cid) =>
      var a := AppointmentOf(cid, e);
      if AppointmentErrors(clients, t, FindByExternalId(t, e.id), a) == [] then (Upsert(t, e.id, a), true) else (t, false)
  }

  /**
   * An iteration skips an element with an unknown client; otherwise it saves
   * exactly when the appointment passes its validations, and then looking its
   * external id up finds the new record; a failed save changes nothing.
   */
  lemma AppointmentStepSaves(clients: Table<Client>, t: Table<Appointment>, e: RemoteAppointment)
    requires WellFormed(clients) && WellFormed(t)
    ensures var r := AppointmentStep(clients, t, e);
            && (!KnownClient(clients, e) ==> r == (t, true))
            && (KnownClient(clients, e) ==>
                  var a := AppointmentOf(FindByExternalId(clients, e.clientId).value, e);
                  && (r.1 <==> AppointmentErrors(clients, t, FindByExternalId(t, e.id), a) == [])
                  && (r.1 ==> FindByExternalId(r.0, e.id).Some? && r.0.rows[FindByExternalId(r.0, e.id).value] == Row(a, e.id)))
            && (!r.1 ==> r.0 == t)
  {
    if KnownClient(clients, e) {
      UpsertHit(t, e.id, AppointmentOf(FindByExternalId(clients, e.clientId).value, e));
    }
  }

  /** The appointments table after the loop over `P`, and whether it ran to the end; no appointment is deleted. */
  function SyncAppointmentsFrom(clients: Table<Client>, t: Table<Appointment>, P: seq<RemoteAppointment>): (r: (Table<Appointment>, bool))
    requires WellFormed(clients) && WellFormed(t)
    ensures WellFormed(r.0)
    ensures t.rows.Keys <= r.0.rows.Keys
    decreases |P|
  {
    if P == [] then (t, true)
    else
      var s := SyncAppointmentsFrom(clients, t, P[..|P| - 1]);
      if !s.1 then s else AppointmentStep(clients, s.0, P[|P| - 1])
  }

  /** `sync_appointments`: a response that is not an array changes nothing. */
  function SyncAppointmentsResult(clients: Table<Client>, t: Table<Appointment>, payload: Option<seq<RemoteAppointment>>): (r: (Table<Appointment>, bool))
    requires WellFormed(clients) && WellFormed(t)
    ensures payload.None? ==> r == (t, true)
    ensures payload.Some? ==> r == SyncAppointmentsFrom(clients, t, payload.value)
  {
    match payload
    case None => (t, true)
    case Some(P) => SyncAppointmentsFrom(clients, t, P)
  }

  /** The loop over one more element is one more step, unless the run has already stopped. */
  lemma SyncAppointmentsPrefixStep(clients: Table<Client>, t: Table<Appointment>, P: seq<RemoteAppointment>, i: int)
    requires WellFormed(clients) && WellFormed(t) && 0 <= i < |P|
    ensures var s := SyncAppointmentsFrom(clients, t, P[..i]);
            SyncAppointmentsFrom(clients, t, P[..i + 1]) == if s.1 then AppointmentStep(clients, s.0, P[i]) else s
  {
    assert P[..i + 1][..i] == P[..i];
  }

  /** A failed run stopped at an element `P[k]` that failed its validations, after saving `P[..k]`. */
  lemma {:induction false} SyncAppointmentsAbort(clients: Table<Client>, t: Table<Appointment>, P: seq<RemoteAppointment>)
    requires WellFormed(clients) && WellFormed(t)
    ensures var r := SyncAppointmentsFrom(clients, t, P);
            !r.1 ==> exists k :: 0 <= k < |P| && SyncAppointmentsFrom(clients, t, P[..k]) == (r.0, true)
                                 && !AppointmentStep(clients, r.0, P[k]).1
    decreases |P|
  {
    if P != [] {
      var Q := P[..|P| - 1];
      var s := SyncAppointmentsFrom(clients, t, Q);
      if !s.1 {
        SyncAppointmentsAbort(clients, t, Q);
        var k :| 0 <= k < |Q| && SyncAppointmentsFrom(clients, t, Q[..k]) == (s.0, true)
                 && !AppointmentStep(clients, s.0, Q[k]).1;
        assert Q[..k] == P[..k];
      } else {
        assert P[..|Q|] == Q;
      }
    }
  }

  /** Once a prefix has failed, the rest of the payload is never looked at. */
  lemma {:induction false} SyncAppointmentsAbortFinal(clients: Table<Client>, t: Table<Appointment>, P: seq<RemoteAppointment>, i: nat)
    requires WellFormed(clients) && WellFormed(t) && i <= |P|
    requires !SyncAppointmentsFrom(clients, t, P[..i]).1
    ensures SyncAppointmentsFrom(clients, t, P) == SyncAppointmentsFrom(clients, t, P[..i])
    decreases |P|
  {
    if i < |P| {
      var Q := P[..|P| - 1];
      assert Q[..i] == P[..i];
      SyncAppointmentsAbortFinal(clients, t, Q, i);
    } else {
      assert P[..i] == P;
    }
  }

  /** The payload's elements whose client is known locally, in order. */
  function WithKnownClient(clients: Table<Client>, P: seq<RemoteAppointment>): (r: seq<RemoteAppointment>)
    requires WellFormed(clients)
    ensures Subsequence(r, P)
    ensures forall e :: e in r <==> e in P && KnownClient(clients, e)
    decreases |P|
  {
    if P == [] then []
    else
      var e := P[|P| - 1];
      var front := WithKnownClient(clients, P[..|P| - 1]);
      assert P == P[..|P| - 1] + [e];
      SubsequenceSnoc(front, P[..|P| - 1], e);
      if KnownClient(clients, e) then front + [e]
      else front
  }

  /** Every occurrence of an element with a known client is kept, and none of the others. */
  lemma {:induction false} WithKnownClientCount(clients: Table<Client>, P: seq<RemoteAppointment>)
    requires WellFormed(clients)
    ensures forall e :: multiset(WithKnownClient(clients, P))[e] == if KnownClient(clients, e) then multiset(P)[e] else 0
    decreases |P|
  {
    if P != [] {
      WithKnownClientCount(clients, P[..|P| - 1]);
      assert P == P[..|P| - 1] + [P[|P| - 1]];
    }
  }

  /** Elements whose client is unknown are skipped: dropping them from the payload changes nothing. */
  lemma {:induction false} SyncAppointmentsSkipsOrphans(clients: Table<Client>, t: Table<Appointment>, P: seq<RemoteAppointment>)
    requires WellFormed(clients) && WellFormed(t)
    ensures SyncAppointmentsFrom(clients, t, P) == SyncAppointmentsFrom(clients, t, WithKnownClient(clients, P))
    decreases |P|
  {
    if P != [] {
      var Q := P[..|P| - 1];
      var e := P[|P| - 1];
      SyncAppointmentsSkipsOrphans(clients, t, Q);
      var K := WithKnownClient(clients, Q);
      if KnownClient(clients, e) {
        assert WithKnownClient(clients, P) == K + [e];
        assert (K + [e])[..|K|] == K;
      } else {
        assert WithKnownClient(clients, P) == K;
      }
    }
  }

  /** The sync keeps every stored appointment valid: it saves only records whose validations passed. */
  lemma {:induction false} SyncAppointmentsKeepsValid(clients: Table<Client>, t: Table<Appointment>, P: seq<RemoteAppointment>)
    requires AppointmentsValid(clients, t)
    ensures AppointmentsValid(clients, SyncAppointmentsFrom(clients, t, P).0)
    decreases |P|
  {
    if P != [] {
      var Q := P[..|P| - 1];
      var e := P[|P| - 1];
      SyncAppointmentsKeepsValid(clients, t, Q);
      var s := SyncAppointmentsFrom(clients, t, Q);
      if s.1 && KnownClient(clients, e) {
        var a := AppointmentOf(FindByExternalId(clients, e.clientId).value, e);
        var self := FindByExternalId(s.0, e.id);
        if AppointmentErrors(clients, s.0, self, a) == [] {
          SaveKeepsTimesDistinct(clients, s.0, self, UpsertTarget(s.0, e.id), a, e.id);
        }
      }
    }
  }

  /** A local appointment whose external id no payload element carries keeps its row. */
  lemma {:induction false} SyncAppointmentsUntouched(clients: Table<Client>, t: Table<Appointment>, P: seq<RemoteAppointment>, id: Id)
    requires WellFormed(clients) && WellFormed(t) && id in t.rows
    requires forall j :: 0 <= j < |P| ==> P[j].id != t.rows[id].externalId
    ensures var r := SyncAppointmentsFrom(clients, t, P).0;
            id in r.rows && r.rows[id] == t.rows[id]
    decreases |P|
  {
    if P != [] {
      var Q := P[..|P| - 1];
      var e := P[|P| - 1];
      SyncAppointmentsUntouched(clients, t, Q, id);
      var s := SyncAppointmentsFrom(clients, t, Q);
      if s.1 && KnownClient(clients, e) {
        assert UpsertTarget(s.0, e.id) != id;
      }
    }
  }

  /**
   * After a completed run, an element with a known client whose remote id no
   * later element repeats is the row that id finds.
   */
  lemma {:induction false} SyncAppointmentsSaved(clients: Table<Client>, t: Table<Appointment>, P: seq<RemoteAppointment>, j: int)
    requires WellFormed(clients) && WellFormed(t)
    requires SyncAppointmentsFrom(clients, t, P).1
    requires 0 <= j < |P| && KnownClient(clients, P[j])
    requires forall i :: j < i < |P| ==> P[i].id != P[j].id
    ensures var r := SyncAppointmentsFrom(clients, t, P).0;
            && FindByExternalId(r, P[j].id).Some?
            && r.rows[FindByExternalId(r, P[j].id).value]
               == Row(AppointmentOf(FindByExternalId(clients, P[j].clientId).value, P[j]), P[j].id)
    decreases |P|
  {
    var Q := P[..|P| - 1];
    var e := P[|P| - 1];
    var s := SyncAppointmentsFrom(clients, t, Q);
    assert s.1 && SyncAppointmentsFrom(clients, t, P) == AppointmentStep(clients, s.0, e);
    if j == |P| - 1 {
      AppointmentStepSaves(clients, s.0, e);
    } else {
      assert Q[j] == P[j];
      SyncAppointmentsSaved(clients, t, Q, j);
      if KnownClient(clients, e) {
        var a := AppointmentOf(FindByExternalId(clients, e.clientId).value, e);
        UpsertFrame(s.0, e.id, a, P[j].id);
        assert FindByExternalId(s.0, P[j].id).value != UpsertTarget(s.0, e.id);
      }
    }
  }

  /** A table on which every element's step changes nothing is a fixed point of the whole loop. */
  lemma {:induction false} SyncAppointmentsNoOp(clients: Table<Client>, s: Table<Appointment>, P: seq<RemoteAppointment>)
    requires WellFormed(clients) && WellFormed(s)
    requires forall j :: 0 <= j < |P| ==> AppointmentStep(clients, s, P[j]) == (s, true)
    ensures SyncAppointmentsFrom(clients, s, P) == (s, true)
    decreases |P|
  {
    if P != [] {
      SyncAppointmentsNoOp(clients, s, P[..|P| - 1]);
    }
  }

  /** No two payload elements carry the same remote id. */
  predicate DistinctRemoteIds(P: seq<RemoteAppointment>) {
    forall i, j :: 0 <= i < j < |P| ==> P[i].id != P[j].id
  }

  /** A completed run on a valid store leaves a table the same payload does not change. */
  lemma SyncAppointmentsCompletedFixed(clients: Table<Client>, t: Table<Appointment>, P: seq<RemoteAppointment>)
    requires AppointmentsValid(clients, t) && DistinctRemoteIds(P)
    requires SyncAppointmentsFrom(clients, t, P).1
    ensures var r := SyncAppointmentsFrom(clients, t, P);
            SyncAppointmentsFrom(clients, r.0, P) == r
  {
    var s := SyncAppointmentsFrom(clients, t, P).0;
    SyncAppointmentsKeepsValid(clients, t, P);
    forall j | 0 <= j < |P|
      ensures AppointmentStep(clients, s, P[j]) == (s, true)
    {
      if KnownClient(clients, P[j]) {
        SyncAppointmentsSaved(clients, t, P, j);
        var id := FindByExternalId(s, P[j].id).value;
        StoredAppointmentValid(clients, s, id);
        UpsertSame(s, P[j].id, s.rows[id].record);
      }
    }
    SyncAppointmentsNoOp(clients, s, P);
  }

  /** A run whose prefix `P[..k]` changes nothing and whose element `P[k]` fails ends where it started. */
  lemma SyncAppointmentsFailsAt(clients: Table<Client>, s: Table<Appointment>, P: seq<RemoteAppointment>, k: int)
    requires WellFormed(clients) && WellFormed(s) && 0 <= k < |P|
    requires SyncAppointmentsFrom(clients, s, P[..k]) == (s, true)
    requires !AppointmentStep(clients, s, P[k]).1
    ensures SyncAppointmentsFrom(clients, s, P) == (s, false)
  {
    var failed := P[..k + 1];
    assert failed[..k] == P[..k] && failed[k] == P[k];
    SyncAppointmentsAbortFinal(clients, s, P, k + 1);
  }

  /**
   * Running `sync_appointments` twice on the same payload leaves the store as
   * running it once, when the payload repeats no remote id.
   */
  lemma SyncAppointmentsIdempotent(clients: Table<Client>, t: Table<Appointment>, P: seq<RemoteAppointment>)
    requires AppointmentsValid(clients, t) && DistinctRemoteIds(P)
    ensures var r := SyncAppointmentsFrom(clients, t, P);
            SyncAppointmentsFrom(clients, r.0, P) == r
  {
    var r := SyncAppointmentsFrom(clients, t, P);
    if r.1 {
      SyncAppointmentsCompletedFixed(clients, t, P);
    } else {
      SyncAppointmentsAbort(clients, t, P);
      var k :| 0 <= k < |P| && SyncAppointmentsFrom(clients, t, P[..k]) == (r.0, true)
               && !AppointmentStep(clients, r.0, P[k]).1;
      SyncAppointmentsAbortedFixed(clients, t, P, k);
    }
  }

  /** One local client, known remotely as "c". */
  const RepeatClients: Table<Client> := Table(map[1 := Row(Client("n", "e", "p"), Some("c"))], 2)

  /** Remote appointment "x" at instant 1, then "x" moved to 2, then "y" at 1. */
  const RepeatPayload: seq<RemoteAppointment> := [
    RemoteAppointment(Some("x"), Some("c"), Some(1), None, None),
    RemoteAppointment(Some("x"), Some("c"), Some(2), None, None),
    RemoteAppointment(Some("y"), Some("c"), Some(1), None, None)]

  const RepeatFirst: Appointment := Appointment(Some(1), Some(1), None)
  const RepeatMoved: Appointment := Appointment(Some(1), Some(2), None)

  /** The appointments after each element of the first run. */
  const RepeatAfterOne: Table<Appointment> := Table(map[1 := Row(RepeatFirst, Some("x"))], 2)
  const RepeatAfterTwo: Table<Appointment> := Table(map[1 := Row(RepeatMoved, Some("x"))], 2)
  const RepeatAfterAll: Table<Appointment> :=
    Table(map[1 := Row(RepeatMoved, Some("x")), 2 := Row(RepeatFirst, Some("y"))], 3)

  lemma RepeatClientKnown()
    ensures FindByExternalId(RepeatClients, Some("c")) == Some(1)
  {
    assert FindFrom(RepeatClients, Some("c"), 1) == Some(1);
  }

  lemma RepeatStepOne()
    ensures AppointmentStep(RepeatClients, Empty(), RepeatPayload[0]) == (RepeatAfterOne, true)
  {
    RepeatClientKnown();
    var t0: Table<Appointment> := Empty();
    assert FindByExternalId(t0, Some("x")) == None;
    assert !TimeTaken(t0, None, Some(1));
  }

  lemma RepeatStepTwo()
    ensures AppointmentStep(RepeatClients, RepeatAfterOne, RepeatPayload[1]) == (RepeatAfterTwo, true)
  {
    RepeatClientKnown();
    var t1 := RepeatAfterOne;
    assert FindFrom(t1, Some("x"), 1) == Some(1);
    assert !TimeTaken(t1, Some(1), Some(2));
    assert AppointmentErrors(RepeatClients, t1, Some(1), RepeatMoved) == [];
    assert t1.rows[1 := Row(RepeatMoved, Some("x"))] == RepeatAfterTwo.rows;
  }

  lemma RepeatStepThree()
    ensures AppointmentStep(RepeatClients, RepeatAfterTwo, RepeatPayload[2]) == (RepeatAfterAll, true)
  {
    RepeatClientKnown();
    var t2 := RepeatAfterTwo;
    assert FindFrom(t2, Some("y"), 2) == None;
    assert FindByExternalId(t2, Some("y")) == None;
    assert !TimeTaken(t2, None, Some(1));
  }

  lemma RepeatStepAgain()
    ensures !AppointmentStep(RepeatClients, RepeatAfterAll, RepeatPayload[0]).1
  {
    RepeatClientKnown();
    var t3 := RepeatAfterAll;
    assert FindFrom(t3, Some("x"), 1) == Some(1);
    assert 2 in t3.rows && t3.rows[2].record.scheduledAt == Some(1);
    assert TimeTaken(t3, Some(1), Some(1));
  }

  /** One saving iteration extends a completed prefix run. */
  lemma SyncAppointmentsExtend(clients: Table<Client>, t: Table<Appointment>, P: seq<RemoteAppointment>, i: int, s: Table<Appointment>, s': Table<Appointment>)
    requires WellFormed(clients) && WellFormed(t) && WellFormed(s) && 0 <= i < |P|
    requires SyncAppointmentsFrom(clients, t, P[..i]) == (s, true)
    requires AppointmentStep(clients, s, P[i]) == (s', true)
    ensures SyncAppointmentsFrom(clients, t, P[..i + 1]) == (s', true)
  {
    SyncAppointmentsPrefixStep(clients, t, P, i);
  }

  lemma RepeatPrefixOne()
    ensures SyncAppointmentsFrom(RepeatClients, Empty(), RepeatPayload[..1]) == (RepeatAfterOne, true)
  {
    var t0: Table<Appointment> := Empty();
    assert RepeatPayload[..0] == [];
    RepeatStepOne();
    SyncAppointmentsExtend(RepeatClients, t0, RepeatPayload, 0, t0, RepeatAfterOne);
  }

  lemma RepeatPrefixTwo()
    ensures SyncAppointmentsFrom(RepeatClients, Empty(), RepeatPayload[..2]) == (RepeatAfterTwo, true)
  {
    RepeatPrefixOne();
    RepeatStepTwo();
    SyncAppointmentsExtend(RepeatClients, Empty(), RepeatPayload, 1, RepeatAfterOne, RepeatAfterTwo);
  }

  lemma RepeatPrefixThree()
    ensures SyncAppointmentsFrom(RepeatClients, Empty(), RepeatPayload[..3]) == (RepeatAfterAll, true)
  {
    RepeatPrefixTwo();
    RepeatStepThree();
    SyncAppointmentsExtend(RepeatClients, Empty(), RepeatPayload, 2, RepeatAfterTwo, RepeatAfterAll);
  }

  lemma RepeatFirstRun()
    ensures SyncAppointmentsFrom(RepeatClients, Empty(), RepeatPayload) == (RepeatAfterAll, true)
  {
    RepeatPrefixThree();
    assert RepeatPayload[..3] == RepeatPayload;
  }

  lemma RepeatSecondRun()
    ensures SyncAppointmentsFrom(RepeatClients, RepeatAfterAll, RepeatPayload) == (RepeatAfterAll, false)
  {
    RepeatStepAgain();
    assert RepeatPayload[..0] == [];
    SyncAppointmentsFailsAt(RepeatClients, RepeatAfterAll, RepeatPayload, 0);
  }

  /**
   * Without distinct remote ids the sync is not idempotent: the first run
   * completes, and the second moves "x" back to instant 1, which "y" now holds,
   * so its first `save!` fails and the run aborts.
   */
  lemma SyncAppointmentsRepeatedIdNotFixed()
    ensures var r := SyncAppointmentsFrom(RepeatClients, Empty(), RepeatPayload);
            && r.1
            && SyncAppointmentsFrom(RepeatClients, r.0, RepeatPayload) == (r.0, false)
  {
    RepeatFirstRun();
    RepeatSecondRun();
  }

  /** A run that aborted at `P[k]` aborts there again, without change, when re-run on its own result. */
  lemma SyncAppointmentsAbortedFixed(clients: Table<Client>, t: Table<Appointment>, P: seq<RemoteAppointment>, k: int)
    requires AppointmentsValid(clients, t) && DistinctRemoteIds(P) && 0 <= k < |P|
    requires SyncAppointmentsFrom(clients, t, P[..k]).1
    requires !AppointmentStep(clients, SyncAppointmentsFrom(clients, t, P[..k]).0, P[k]).1
    ensures var s := SyncAppointmentsFrom(clients, t, P[..k]).0;
            SyncAppointmentsFrom(clients, s, P) == (s, false)
  {
    var prefix := P[..k];
    assert DistinctRemoteIds(prefix);
    SyncAppointmentsCompletedFixed(clients, t, prefix);
    SyncAppointmentsFailsAt(clients, SyncAppointmentsFrom(clients, t, prefix).0, P, k);
  }

  // ------------------------------------------------------------------ the service

  /**
   * `sync_clients` on the database, given the parsed `/clients` response
   * (`None` when it is not an array). `completed` is false when a `save!`
   * raised and ended the loop.
   */
  method SyncClients(db: Database, payload: Option<seq<RemoteClient>>) returns (completed: bool)
    requires db.Valid()
    modifies db
    ensures db.Valid()
    ensures (db.clients, completed) == SyncClientsResult(old(db.clients), payload, db.emailFormat)
    ensures db.appointments == old(db.appointments)
  {
    if payload.None? {
      return true;
    }
    var P := payload.value;
    ghost var t0 := db.clients;
    var i := 0;
    while i < |P|
      invariant 0 <= i <= |P|
      invariant db.appointments == old(db.appointments)
      invariant WellFormed(db.clients)
      invariant SyncClientsFrom(t0, P[..i], db.emailFormat) == (db.clients, true)
    {
      var e := P[i];
      SyncClientsPrefixStep(t0, P, i, db.emailFormat);
      var client := ClientOf(e);
      if ClientErrors(client, db.emailFormat) != [] {
        SyncClientsAbortFinal(t0, P, i + 1, db.emailFormat);
        SyncClientsKeepsStoreValid(t0, db.appointments, P[..i + 1], db.emailFormat);
        return false;
      }
      var found := FindByExternalId(db.clients, e.id);
      match found {
        case Some(id) =>
          db.clients := db.clients.(rows := db.clients.rows[id := Row(client, e.id)]);
        case None =>
          db.clients := Insert(db.clients, Row(client, e.id));
      }
      i := i + 1;
    }
    assert P[..i] == P;
    SyncClientsKeepsStoreValid(t0, db.appointments, P, db.emailFormat);
    return true;
  }

  /** `sync_appointments` on the database, given the parsed `/appointments` response. */
  method SyncAppointments(db: Database, payload: Option<seq<RemoteAppointment>>) returns (completed: bool)
    requires db.Valid()
    modifies db
    ensures db.Valid()
    ensures db.clients == old(db.clients)
    ensures (db.appointments, completed) == SyncAppointmentsResult(old(db.clients), old(db.appointments), payload)
  {
    if payload.None? {
      return true;
    }
    var P := payload.value;
    ghost var t0 := db.appointments;
    var i := 0;
    while i < |P|
      invariant 0 <= i <= |P|
      invariant db.clients == old(db.clients)
      invariant WellFormed(db.appointments)
      invariant SyncAppointmentsFrom(db.clients, t0, P[..i]) == (db.appointments, true)
    {
      var e := P[i];
      SyncAppointmentsPrefixStep(db.clients, t0, P, i);
      var client := FindByExternalId(db.clients, e.clientId);
      if client.None? {
        i := i + 1;
        continue;
      }
      var found := FindByExternalId(db.appointments, e.id);
      var appt := AppointmentOf(client.value, e);
      if AppointmentErrors(db.clients, db.appointments, found, appt) != [] {
        SyncAppointmentsAbortFinal(db.clients, t0, P, i + 1);
        SyncAppointmentsKeepsValid(db.clients, t0, P[..i + 1]);
        return false;
      }
      match found {
        case Some(id) =>
          db.appointments := db.appointments.(rows := db.appointments.rows[id := Row(appt, e.id)]);
        case None =>
          db.appointments := Insert(db.appointments, Row(appt, e.id));
      }
      i := i + 1;
    }
    assert P[..i] == P;
    SyncAppointmentsKeepsValid(db.clients, t0, P);
    return true;
  }

  /**
   * `sync_all`: clients first, then appointments. A `save!` that raises in
   * `sync_clients` leaves `sync_all` before the appointments are fetched.
   */
  method SyncAll(db: Database, clientsPayload: Option<seq<RemoteClient>>, appointmentsPayload: Option<seq<RemoteAppointment>>)
    returns (completed: bool)
    requires db.Valid()
    modifies db
    ensures db.Valid()
    ensures var c := SyncClientsResult(old(db.clients), clientsPayload, db.emailFormat);
            && db.clients == c.0
            && (c.1 ==> (db.appointments, completed) == SyncAppointmentsResult(c.0, old(db.appointments), appointmentsPayload))
            && (!c.1 ==> !completed && db.appointments == old(db.appointments))
  {
    completed := SyncClients(db, clientsPayload);
    if !completed {
      return;
    }
    completed := SyncAppointments(db, appointmentsPayload);
  }

  /**
   * `create_client`, given the parsed POST response: `None` when the request
   * failed, `Some(None)` when the answer has no `id`. Only an id is stored.
   */
  method CreateClient(db: Database, id: Id, response: Option<Option<ExternalId>>)
    requires db.Valid() && id in db.clients.rows
    modifies db
    ensures db.Valid()
    ensures db.appointments == old(db.appointments)
    ensures response.Some? && response.value.Some? ==>
              db.clients == old(db.clients).(rows := old(db.clients.rows)[id := old(db.clients.rows[id]).(externalId := response.value)])
    ensures !(response.Some? && response.value.Some?) ==> db.clients == old(db.clients)
  {
    if response.Some? && response.value.Some? {
      // `update!` validates the client again; its fields are unchanged, so it passes.
      db.clients := db.clients.(rows := db.clients.rows[id := db.clients.rows[id].(externalId := response.value)]);
    }
  }

  /** `create_appointment`, given the parsed POST response. */
  method CreateAppointment(db: Database, id: Id, response: Option<Option<ExternalId>>)
    requires db.Valid() && id in db.appointments.rows
    modifies db
    ensures db.Valid()
    ensures db.clients == old(db.clients)
    ensures response.Some? && response.value.Some? ==>
              db.appointments == old(db.appointments).(rows := old(db.appointments.rows)[id := old(db.appointments.rows[id]).(externalId := response.value)])
    ensures !(response.Some? && response.value.Some?) ==> db.appointments == old(db.appointments)
  {
    if response.Some? && response.value.Some? {
      // `update!` validates the record again: the uniqueness query skips the record itself.
      StoredAppointmentValid(db.clients, db.appointments, id);
      db.appointments := db.appointments.(rows := db.appointments.rows[id := db.appointments.rows[id].(externalId := response.value)]);
    }
  }
}
