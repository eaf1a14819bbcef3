/** `Client`: presence and email-format validations, and `dependent: :destroy`. */
module ClientModel {
  import opened Wrappers
  import opened Strings
  import opened Tables
  import opened Schema

  const NameBlank := "Name can't be blank"
  const EmailBlank := "Email can't be blank"
  const PhoneBlank := "Phone can't be blank"
  const EmailInvalid := "Email is invalid"

  /**
   * `errors.full_messages` after `valid?`, in declaration order. `emailFormat`
   * stands for matching `URI::MailTo::EMAIL_REGEXP`.
   */
  function ClientErrors(c: Client, emailFormat: string -> bool): (errs: seq<string>)
    ensures errs == [] <==> Present(c.name) && Present(c.email) && Present(c.phone) && emailFormat(c.email)
    ensures NameBlank in errs <==> Blank(c.name)
    ensures EmailBlank in errs <==> Blank(c.email)
    ensures PhoneBlank in errs <==> Blank(c.phone)
    ensures EmailInvalid in errs <==> Present(c.email) && !emailFormat(c.email)
    ensures forall m :: m in errs ==> m in [NameBlank, EmailBlank, PhoneBlank, EmailInvalid]
    ensures forall i, j :: 0 <= i < j < |errs| ==> errs[i] != errs[j]
  {
    (if Blank(c.name) then [NameBlank] else [])
    + (if Blank(c.email) then [EmailBlank] else [])
    + (if Blank(c.phone) then [PhoneBlank] else [])
    + (if Present(c.email) && !emailFormat(c.email) then [EmailInvalid] else [])
  }

  /** The format is only checked on a non-blank email: a blank one is reported once, as blank. */
  lemma BlankEmailNotFormatChecked(c: Client, emailFormat: string -> bool)
    requires Blank(c.email)
    ensures ClientErrors(c, emailFormat) == ClientErrors(c, s => true)
  {
  }

  /** `dependent: :destroy`: the appointments left once client `id`'s are destroyed. */
  function DestroyDependents(appts: Table<Appointment>, id: Id): (r: Table<Appointment>)
    requires WellFormed(appts)
    ensures WellFormed(r) && r.nextId == appts.nextId
    ensures forall a :: a in r.rows ==> a in appts.rows && r.rows[a] == appts.rows[a]
    ensures forall a :: a in appts.rows ==> (a in r.rows <==> appts.rows[a].record.clientId != Some(id))
  {
    appts.(rows := map a | a in appts.rows && appts.rows[a].record.clientId != Some(id) :: appts.rows[a])
  }
}
