/** Shared record types of the clinic screens: the appointment as the health-history
    endpoint returns it, and an Option for the fields that may be null. */
module Types {

  /** A value that may be absent (`null` / `undefined` in the source). */
  datatype Option<+T> = None | Some(value: T)

  /** What the screens read from `new Date(appointment.date)`. Date parsing, time zones
      and the getters themselves are not modelled: each getter's result is a field, so the
      year, the timestamp and the clock fields are arbitrary functions of the date. */
  datatype DateFields = DateFields(
    time: int,        // getTime(): milliseconds since the epoch
    fullYear: int,    // getFullYear()
    monthIndex: nat,  // getMonth(): 0 for January
    day: nat,         // getDate(): day of the month
    hours: nat,       // getHours()
    minutes: nat      // getMinutes()
  )

  datatype Doctor = Doctor(name: Option<string>, avatarLink: string)

  /** One visit of a pet to the clinic. */
  datatype Appointment = Appointment(
    date: DateFields,
    report: Option<string>,
    place: Option<string>,
    doctor: Doctor
  )
}
