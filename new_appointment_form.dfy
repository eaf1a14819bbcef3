/**
 * The `NewAppointmentForm` component: the booked times of the visible day,
 * the picker's `excludeTimes` and `filterTime`, and the submit handler with
 * its guard and its error messages.
 */
module NewAppointmentForm {
  import opened Wrappers
  import opened Strings
  import opened Tables
  import opened Time
  import opened Schema
  import opened Ordering
  import opened AppointmentModel
  import opened Store
  import opened ApplicationController
  import opened AppointmentsController
  import opened ApiClient

  /** `fetchAppointments(1, 500)`: the form asks for one page of 500 appointments. */
  const BookedFetchPage: int := 1
  const BookedFetchPerPage: int := 500

  const RequiredMessage := "Client and date/time are required."
  const SlotBooked := "This time slot is already booked. Please choose a different time."
  const CreateFailed := "Failed to create appointment"
  const TakenFragment := "has already been taken"
  const CreatedToast := "Appointment created!"

  // ------------------------------------------------------------ booked times

  /** `new Date(a.scheduled_at)`: a null `scheduled_at` reads as instant 0. */
  function InstantOf(t: Option<Instant>): (r: Instant)
    ensures t.Some? ==> r == t.value
    ensures t.None? ==> r == 0
  {
    t.GetOr(0)
  }

  /** The day whose slots are loaded: the picked time's day, or today's when none is picked. */
  function VisibleDay(scheduledAt: Option<Instant>, now: Instant): (day: int)
    ensures scheduledAt.Some? ==> day == Day(scheduledAt.value)
    ensures scheduledAt.None? ==> day == Day(now)
  {
    Day(scheduledAt.GetOr(now))
  }

  /** `d >= start && d <= end` for the day's 00:00:00 and 23:59:59. */
  predicate WithinDay(t: Instant, day: int) {
    DayStart(day) <= t <= DayEnd(day)
  }

  /**
   * `sameDay.map((a) => new Date(a.scheduled_at))`: the instants of the fetched
   * appointments that fall between the day's bounds, in the order fetched.
   */
  function BookedTimes(appts: seq<IndexEntry>, day: int): (r: seq<Instant>)
    ensures |r| <= |appts|
    ensures forall t :: t in r <==> exists i :: 0 <= i < |appts| && InstantOf(appts[i].appointment.scheduledAt) == t && WithinDay(t, day)
    decreases |appts|
  {
    if appts == [] then []
    else
      var t := InstantOf(appts[0].appointment.scheduledAt);
      var rest := BookedTimes(appts[1..], day);
      assert forall i :: 1 <= i < |appts| ==> appts[i] == appts[1..][i - 1];
      if WithinDay(t, day) then [t] + rest else rest
  }

  /** Every booked time lies on the day it was loaded for. */
  lemma BookedTimesOnDay(appts: seq<IndexEntry>, day: int)
    ensures forall t :: t in BookedTimes(appts, day) ==> Day(t) == day
  {
    forall t | t in BookedTimes(appts, day)
      ensures Day(t) == day
    {
      WithinDayIsSameDay(day, t);
    }
  }

  /** The upper bound is 23:59:59.000: an appointment later in that last second is not booked. */
  lemma LastSecondNotBooked(appts: seq<IndexEntry>, day: int, t: Instant)
    requires DayEnd(day) < t < DayStart(day + 1)
    ensures Day(t) == day
    ensures t !in BookedTimes(appts, day)
  {
  }

  // -------------------------------------------------------------- filterTime

  /** `t.getHours() === d.getHours() && t.getMinutes() === d.getMinutes()`. */
  predicate SameMinute(t: Instant, d: Instant) {
    Hour(t) == Hour(d) && Minute(t) == Minute(d)
  }

  /** `bookedTimes.some(...)`. */
  function SomeSameMinute(booked: seq<Instant>, d: Instant): (b: bool)
    ensures b <==> exists i :: 0 <= i < |booked| && SameMinute(booked[i], d)
    decreases |booked|
  {
    if booked == [] then false
    else
      var rest := SomeSameMinute(booked[1..], d);
      assert forall i :: 1 <= i < |booked| ==> booked[i] == booked[1..][i - 1];
      SameMinute(booked[0], d) || rest
  }

  /**
   * `filterTime(d)`: true when no day has been loaded yet or `d` is on another
   * day; on the loaded day, false exactly when a booked time has `d`'s hour and
   * minute.
   */
  function FilterTime(selectedDay: Option<int>, booked: seq<Instant>, d: Instant): (ok: bool)
    ensures selectedDay.None? ==> ok
    ensures selectedDay.Some? && Day(d) != selectedDay.value ==> ok
    ensures selectedDay.Some? && Day(d) == selectedDay.value ==>
              (!ok <==> exists i :: 0 <= i < |booked| && SameMinute(booked[i], d))
  {
    if selectedDay.None? then true
    else if Day(d) != selectedDay.value then true
    else !SomeSameMinute(booked, d)
  }

  /** Every instant of a fetched appointment on the loaded day is refused by `filterTime`. */
  lemma FetchedInstantRefused(appts: seq<IndexEntry>, day: int, i: int)
    requires 0 <= i < |appts| && WithinDay(InstantOf(appts[i].appointment.scheduledAt), day)
    ensures var t := InstantOf(appts[i].appointment.scheduledAt);
            !FilterTime(Some(day), BookedTimes(appts, day), t)
  {
    var t := InstantOf(appts[i].appointment.scheduledAt);
    var booked := BookedTimes(appts, day);
    WithinDayIsSameDay(day, t);
    assert t in booked;
    var j :| 0 <= j < |booked| && booked[j] == t;
    assert SameMinute(booked[j], t);
  }

  /** `filterTime`'s answer for a day other than the loaded one ignores the booked times. */
  lemma OtherDayIgnoresBooked(day: int, b1: seq<Instant>, b2: seq<Instant>, d: Instant)
    requires Day(d) != day
    ensures FilterTime(Some(day), b1, d) == FilterTime(Some(day), b2, d)
  {
  }

  // ------------------------------------------------------ what the picker offers

  /**
   * A time the date picker lets the user choose. `excludeTimes={bookedTimes}`
   * refuses a time whose hour and minute equal a booked time's, whatever its
   * date, and `filterTime` must accept it as well.
   */
  predicate PickerOffers(selectedDay: Option<int>, booked: seq<Instant>, d: Instant) {
    !SomeSameMinute(booked, d) && FilterTime(selectedDay, booked, d)
  }

  /**
   * `filterTime` refuses nothing that `excludeTimes` lets through: the picker
   * offers a time iff no booked time has its hour and minute, on every day.
   */
  lemma PickerOffersIffFree(selectedDay: Option<int>, booked: seq<Instant>, d: Instant)
    ensures PickerOffers(selectedDay, booked, d) <==> !exists i :: 0 <= i < |booked| && SameMinute(booked[i], d)
  {
  }

  /**
   * On another day than the loaded one `filterTime` accepts every time, yet
   * the picker still refuses the hours and minutes booked on the loaded day.
   */
  lemma BookedMinuteRefusedOnOtherDays(day: int, booked: seq<Instant>, i: int, d: Instant)
    requires Day(d) != day && 0 <= i < |booked| && SameMinute(booked[i], d)
    ensures FilterTime(Some(day), booked, d)
    ensures !PickerOffers(Some(day), booked, d)
  {
  }

  // --------------------------------------------- what the backend sends back

  /** The backend caps `per_page` at 100: asking for 500 fetches the same page as asking for 100. */
  lemma BookedFetchClamped(clients: Table<Client>, appts: Table<Appointment>)
    ensures var data := FetchAppointments(clients, appts, Some(BookedFetchPage), Some(BookedFetchPerPage));
            && data == FetchAppointments(clients, appts, Some(1), Some(MaxPerPage))
            && |data| == Min(MaxPerPage, |appts.rows|)
  {
    var p := PaginationParams(Some(BookedFetchPage), Some(BookedFetchPerPage));
    assert p == PaginationParams(Some(1), Some(MaxPerPage)) == PageParams(1, MaxPerPage);
    assert Offset(p) == 0;
  }

  /**
   * In a valid store, an appointment after the first 100 in time order is not
   * among the booked times of any day: only a booked time in the same minute
   * can make its slot unavailable.
   */
  lemma UnlistedTimeNotBooked(clients: Table<Client>, appts: Table<Appointment>, k: int, day: int)
    requires AppointmentsValid(clients, appts)
    requires MaxPerPage <= k < |appts.rows|
    ensures var t := ByTime(appts)[k].1.record.scheduledAt;
            && t.Some?
            && t.value !in BookedTimes(FetchAppointments(clients, appts, Some(BookedFetchPage), Some(BookedFetchPerPage)), day)
  {
    var sorted := ByTime(appts);
    var data := FetchAppointments(clients, appts, Some(BookedFetchPage), Some(BookedFetchPerPage));
    var p := PaginationParams(Some(BookedFetchPage), Some(BookedFetchPerPage));
    assert p == PageParams(1, MaxPerPage);
    assert Offset(p) == 0;
    assert |data| <= MaxPerPage;
    var idk := sorted[k].0;
    assert idk in appts.rows && appts.rows[idk] == sorted[k].1;
    var t := sorted[k].1.record.scheduledAt;
    forall i | 0 <= i < |data|
      ensures InstantOf(data[i].appointment.scheduledAt) != t.value
    {
      var di := data[i];
      assert di == Entry(clients, sorted[i]);
      var idi := sorted[i].0;
      assert idi in appts.rows && appts.rows[idi] == sorted[i].1;
      assert idi != idk;
    }
  }

  // -------------------------------------------------------------- submitting

  /**
   * The message `handleSubmit` shows for a rejected create: the slot-booked text
   * when the message mentions "has already been taken", else the message
   * itself, else the fallback.
   */
  function SubmitErrorMessage(m: string): (r: string)
    ensures Contains(m, TakenFragment) ==> r == SlotBooked
    ensures !Contains(m, TakenFragment) && m != "" ==> r == m
    ensures !Contains(m, TakenFragment) && m == "" ==> r == CreateFailed
  {
    if Contains(m, TakenFragment) then SlotBooked
    else if m != "" then m
    else CreateFailed
  }

  /** A rejection from the interceptor always has a message, so the form never shows its own fallback for one. */
  lemma InterceptedMessageShown(data: Option<ErrorData>, message: string)
    ensures var m := NormaliseMessage(data, message);
            SubmitErrorMessage(m) == SlotBooked || SubmitErrorMessage(m) == m
  {
  }

  /** The uniqueness message for the time mentions "has already been taken". */
  lemma TakenMessageMentionsTaken()
    ensures Contains(ScheduledAtTaken, TakenFragment)
  {
    assert ScheduledAtTaken == "Scheduled at " + TakenFragment;
    ContainsAt(TakenFragment, TakenFragment, 0);
    ContainsInRight("Scheduled at ", TakenFragment, TakenFragment);
  }

  /**
   * Booking a time another appointment holds: the backend answers 422 with its
   * validation messages, the interceptor joins them, and the form shows the
   * slot-booked message.
   */
  lemma DoubleBookingShownAsBooked(clients: Table<Client>, appts: Table<Appointment>, a: Appointment, message: string)
    requires TimeTaken(appts, None, a.scheduledAt)
    ensures var errs := AppointmentErrors(clients, appts, None, a);
            var o := Intercept<AppointmentJson>(Response(StatusUnprocessable, Errors(errs)), message);
            o.Rejected? && SubmitErrorMessage(o.message) == SlotBooked
  {
    var errs := AppointmentErrors(clients, appts, None, a);
    var i :| 0 <= i < |errs| && errs[i] == ScheduledAtTaken;
    NormalisedErrorsContainEach(errs, message, i);
    TakenMessageMentionsTaken();
    var m := NormaliseMessage(Some(ErrorData(None, Some(errs))), message);
    ContainsTransitive(m, ScheduledAtTaken, TakenFragment);
  }

  /** `!clientId || !scheduledAt`: no client chosen (undefined, or 0) or no time picked. */
  predicate MissingFields(clientId: Option<int>, scheduledAt: Option<Instant>) {
    clientId.None? || clientId == Some(0) || scheduledAt.None?
  }

  /** The body `createAppointment` posts. */
  datatype Request = Request(clientId: int, scheduledAt: Instant, notes: string)

  /** The form's state; a field that is `''` or undefined in the component is `None` here. */
  class FormState {
    var clientId: Option<int>
    var scheduledAt: Option<Instant>
    var notes: string
    var loading: bool
    var errors: Option<string>
    var toast: Option<string>
    var bookedTimes: seq<Instant>
    var selectedDay: Option<int>

    /** The booked times are all on the day they were loaded for. */
    ghost predicate Valid()
      reads this
    {
      selectedDay.Some? ==> forall t :: t in bookedTimes ==> Day(t) == selectedDay.value
    }

    constructor ()
      ensures Valid()
      ensures clientId == None && scheduledAt == None && notes == "" && !loading
      ensures errors == None && toast == None && bookedTimes == [] && selectedDay == None
    {
      clientId := None;
      scheduledAt := None;
      notes := "";
      loading := false;
      errors := None;
      toast := None;
      bookedTimes := [];
      selectedDay := None;
    }

    /** Whether the picker, given `excludeTimes` and `filterTime`, offers `d`. */
    function Offered(d: Instant): (ok: bool)
      reads this
      ensures ok <==> !exists i :: 0 <= i < |bookedTimes| && SameMinute(bookedTimes[i], d)
    {
      PickerOffersIffFree(selectedDay, bookedTimes, d);
      PickerOffers(selectedDay, bookedTimes, d)
    }

    /**
     * `loadBookedTimes`, given the current time and what
     * `fetchAppointments(1, 500)` resolved with.
     */
    method LoadBookedTimes(now: Instant, appts: seq<IndexEntry>)
      requires Valid()
      modifies this
      ensures Valid()
      ensures var day := VisibleDay(old(scheduledAt), now);
              bookedTimes == BookedTimes(appts, day) && selectedDay == Some(day)
      ensures clientId == old(clientId) && scheduledAt == old(scheduledAt) && notes == old(notes)
      ensures loading == old(loading) && errors == old(errors) && toast == old(toast)
    {
      var day := VisibleDay(scheduledAt, now);
      BookedTimesOnDay(appts, day);
      bookedTimes := BookedTimes(appts, day);
      selectedDay := Some(day);
    }

    /**
     * `handleSubmit`, given the outcome of the `createAppointment` call it makes.
     * `sent` is the request posted, if any; `created` says whether `onCreated` ran.
     */
    method Submit(outcome: Outcome<AppointmentJson>) returns (sent: Option<Request>, created: bool)
      requires Valid()
      modifies this
      ensures Valid()
      ensures bookedTimes == old(bookedTimes) && selectedDay == old(selectedDay)
      ensures MissingFields(old(clientId), old(scheduledAt)) ==>
                && sent == None && !created && errors == Some(RequiredMessage)
                && clientId == old(clientId) && scheduledAt == old(scheduledAt) && notes == old(notes)
                && loading == old(loading) && toast == old(toast)
      ensures !MissingFields(old(clientId), old(scheduledAt)) ==>
                && sent == Some(Request(old(clientId).value, old(scheduledAt).value, old(notes)))
                && !loading
      ensures !MissingFields(old(clientId), old(scheduledAt)) && outcome.Rejected? ==>
                && !created && errors == Some(SubmitErrorMessage(outcome.message))
                && clientId == old(clientId) && scheduledAt == old(scheduledAt) && notes == old(notes)
                && toast == old(toast)
      ensures !MissingFields(old(clientId), old(scheduledAt)) && outcome.Resolved? ==>
                && created && errors == None && toast == Some(CreatedToast)
                && clientId == None && scheduledAt == None && notes == ""
    {
      if MissingFields(clientId, scheduledAt) {
        errors := Some(RequiredMessage);
        return None, false;
      }
      loading := true;
      sent := Some(Request(clientId.value, scheduledAt.value, notes));
      match outcome {
        case Rejected(m) =>
          loading := false;
          errors := Some(SubmitErrorMessage(m));
          return sent, false;
        case Resolved(_) =>
      }
      errors := None;
      clientId := None;
      scheduledAt := None;
      notes := "";
      loading := false;
      toast := Some(CreatedToast);
      created := true;
    }
  }
}
