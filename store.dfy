/** The database: the clients and appointments tables and the invariant every successful save keeps. */
module Store {
  import opened Wrappers
  import opened Tables
  import opened Schema
  import opened ClientModel
  import opened AppointmentModel

  /**
   * Every stored appointment passed its validations: it references an existing
   * client and has a `scheduled_at`, and no two appointments share a `scheduled_at`.
   */
  predicate AppointmentsValid(clients: Table<Client>, appts: Table<Appointment>) {
    && WellFormed(clients) && WellFormed(appts)
    && (forall id :: id in appts.rows ==>
          ClientExists(clients, appts.rows[id].record) && appts.rows[id].record.scheduledAt.Some?)
    && DistinctTimes(appts)
  }

  /** Every stored row passed its model's validations. */
  ghost predicate StoreValid(clients: Table<Client>, appts: Table<Appointment>, emailFormat: string -> bool) {
    && AppointmentsValid(clients, appts)
    && (forall id :: id in clients.rows ==> ClientErrors(clients.rows[id].record, emailFormat) == [])
  }

  /** A stored appointment passes its validations again, whatever else is saved later. */
  lemma StoredAppointmentValid(clients: Table<Client>, appts: Table<Appointment>, id: Id)
    requires AppointmentsValid(clients, appts) && id in appts.rows
    ensures AppointmentErrors(clients, appts, Some(id), appts.rows[id].record) == []
  {
    ResaveOwnTimeValid(clients, appts, id);
  }

  class Database {
    /** Matching `URI::MailTo::EMAIL_REGEXP`. */
    const emailFormat: string -> bool
    var clients: Table<Client>
    var appointments: Table<Appointment>

    ghost predicate Valid()
      reads this
    {
      StoreValid(clients, appointments, emailFormat)
    }

    constructor (emailFormat: string -> bool)
      ensures Valid() && this.emailFormat == emailFormat
      ensures clients == Empty() && appointments == Empty()
    {
      this.emailFormat := emailFormat;
      clients := Empty();
      appointments := Empty();
    }

    /** `client.destroy`: the client's appointments are destroyed with it (`dependent: :destroy`). */
    method DestroyClient(id: Id) returns (destroyed: bool)
      requires Valid()
      modifies this
      ensures Valid()
      ensures destroyed <==> id in old(clients.rows)
      ensures destroyed ==> clients == old(clients).(rows := old(clients.rows) - {id})
      ensures destroyed ==> appointments == DestroyDependents(old(appointments), id)
      ensures !destroyed ==> clients == old(clients) && appointments == old(appointments)
    {
      if id !in clients.rows {
        return false;
      }
      appointments := DestroyDependents(appointments, id);
      clients := clients.(rows := clients.rows - {id});
      destroyed := true;
    }
  }
}
