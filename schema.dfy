/** The two tables' records (the columns other than id and external_id). */
module Schema {
  import opened Wrappers
  import opened Tables
  import opened Time

  /** A client; a nil string column reaches the model as "". */
  datatype Client = Client(name: string, email: string, phone: string)

  /** An appointment; `client_id` and `scheduled_at` may be nil on a record that is not yet valid. */
  datatype Appointment = Appointment(clientId: Option<Id>, scheduledAt: Option<Instant>, notes: Option<string>)

  const NewAppointment: Appointment := Appointment(None, None, None)
  const NewClient: Client := Client("", "", "")
}
