/** `Appointment`: `belongs_to :client`, presence, and uniqueness of `scheduled_at`. */
module AppointmentModel {
  import opened Wrappers
  import opened Tables
  import opened Time
  import opened Schema

  const ClientMustExist := "Client must exist"
  const ClientBlank := "Client can't be blank"
  const ScheduledAtBlank := "Scheduled at can't be blank"
  const ScheduledAtTaken := "Scheduled at has already been taken"

  /** `belongs_to :client` (required by default): the referenced client row exists. */
  predicate ClientExists(clients: Table<Client>, a: Appointment) {
    a.clientId.Some? && a.clientId.value in clients.rows
  }

  /**
   * The uniqueness query: another stored appointment (not `self`, the record's
   * own id when it is persisted) has exactly the same `scheduled_at`.
   */
  predicate TimeTaken(appts: Table<Appointment>, self: Option<Id>, t: Option<Instant>) {
    exists id :: id in appts.rows && Some(id) != self && appts.rows[id].record.scheduledAt == t
  }

  /** `errors.full_messages` after `valid?`, in declaration order. */
  function AppointmentErrors(clients: Table<Client>, appts: Table<Appointment>, self: Option<Id>, a: Appointment): (errs: seq<string>)
    ensures errs == [] <==> ClientExists(clients, a) && a.scheduledAt.Some? && !TimeTaken(appts, self, a.scheduledAt)
    ensures ClientMustExist in errs <==> !ClientExists(clients, a)
    ensures ClientBlank in errs <==> a.clientId.None?
    ensures ScheduledAtBlank in errs <==> a.scheduledAt.None?
    ensures ScheduledAtTaken in errs <==> TimeTaken(appts, self, a.scheduledAt)
    ensures forall m :: m in errs ==> m in [ClientMustExist, ClientBlank, ScheduledAtBlank, ScheduledAtTaken]
    ensures forall i, j :: 0 <= i < j < |errs| ==> errs[i] != errs[j]
  {
    (if !ClientExists(clients, a) then [ClientMustExist] else [])
    + (if a.clientId.None? then [ClientBlank] else [])
    + (if a.scheduledAt.None? then [ScheduledAtBlank] else [])
    + (if TimeTaken(appts, self, a.scheduledAt) then [ScheduledAtTaken] else [])
  }

  /** No two stored appointments share a `scheduled_at`. */
  predicate DistinctTimes(appts: Table<Appointment>) {
    forall i, j :: i in appts.rows && j in appts.rows && i != j ==>
      appts.rows[i].record.scheduledAt != appts.rows[j].record.scheduledAt
  }

  /** Saving a record whose validations passed keeps the stored times distinct. */
  lemma SaveKeepsTimesDistinct(clients: Table<Client>, appts: Table<Appointment>, self: Option<Id>, id: Id, a: Appointment, ext: Option<ExternalId>)
    requires DistinctTimes(appts)
    requires self == Some(id) || (self.None? && id !in appts.rows)
    requires AppointmentErrors(clients, appts, self, a) == []
    ensures DistinctTimes(appts.(rows := appts.rows[id := Row(a, ext)]))
  {
    var u := appts.(rows := appts.rows[id := Row(a, ext)]);
    forall i, j | i in u.rows && j in u.rows && i != j
      ensures u.rows[i].record.scheduledAt != u.rows[j].record.scheduledAt
    {
      if i == id {
        assert j in appts.rows && Some(j) != self;
      } else if j == id {
        assert i in appts.rows && Some(i) != self;
      }
    }
  }

  /** A stored appointment saved again with its own `scheduled_at` is still valid: uniqueness skips the record itself. */
  lemma ResaveOwnTimeValid(clients: Table<Client>, appts: Table<Appointment>, id: Id)
    requires DistinctTimes(appts) && id in appts.rows
    requires ClientExists(clients, appts.rows[id].record) && appts.rows[id].record.scheduledAt.Some?
    ensures AppointmentErrors(clients, appts, Some(id), appts.rows[id].record) == []
  {
  }

  /** Only the exact instant counts: an appointment one millisecond from every stored one is accepted. */
  lemma AdjacentInstantAllowed(clients: Table<Client>, appts: Table<Appointment>, t: Instant, a: Appointment)
    requires ClientExists(clients, a) && a.scheduledAt == Some(t + 1)
    requires forall id :: id in appts.rows ==> appts.rows[id].record.scheduledAt == Some(t)
    ensures AppointmentErrors(clients, appts, None, a) == []
  {
  }
}
