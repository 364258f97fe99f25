/** The appointment document (`Appointment` model). */
module AppointmentSchema {
  import opened Common

  datatype AppointmentStatus = Pending | Confirmed | Completed | Cancelled

  function StatusName(s: AppointmentStatus): string {
    match s
    case Pending => "pending"
    case Confirmed => "confirmed"
    case Completed => "completed"
    case Cancelled => "cancelled"
  }

  /** Membership in `['pending', 'confirmed', 'completed', 'cancelled']`,
      returning the status named. */
  function ParseStatus(x: string): (r: Option<AppointmentStatus>)
    ensures r.Some? <==> x in {"pending", "confirmed", "completed", "cancelled"}
    ensures r.Some? ==> StatusName(r.value) == x
  {
    if x == "pending" then Some(Pending)
    else if x == "confirmed" then Some(Confirmed)
    else if x == "completed" then Some(Completed)
    else if x == "cancelled" then Some(Cancelled)
    else None
  }

  lemma ParseStatusName(s: AppointmentStatus)
    ensures ParseStatus(StatusName(s)) == Some(s)
  {
  }

  /** `preferredDate` is a `Date`, held as milliseconds since the epoch. */
  datatype Appointment = Appointment(
    id: Id,
    userId: Id,
    fullName: Option<string>,
    mobile: Option<string>,
    age: Option<int>,
    problem: Option<string>,
    preferredDate: Option<int>,
    preferredTime: Option<string>,
    status: AppointmentStatus,
    createdAt: int)

  /** `Appointment.create(...)` as the intake flow calls it: `status` defaults
      to pending and `createdAt` comes from the timestamps option. */
  function NewAppointment(
    id: Id, userId: Id, fullName: Option<string>, mobile: Option<string>, age: Option<int>,
    problem: Option<string>, preferredDate: Option<int>, preferredTime: Option<string>,
    status: Option<AppointmentStatus>, now: int): (a: Appointment)
    ensures a.id == id && a.userId == userId && a.createdAt == now
    ensures status.None? ==> a.status == Pending
    ensures status.Some? ==> a.status == status.value
  {
    Appointment(id, userId, fullName, mobile, age, problem, preferredDate, preferredTime,
      if status.Some? then status.value else Pending, now)
  }
}
