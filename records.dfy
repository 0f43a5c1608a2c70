/** The persisted records the appointment controller reads and writes, and
    the shape of its HTTP responses. Identifiers are integers; timestamps are
    milliseconds (see module Hours). */
module Records {

  datatype Option<+T> = None | Some(value: T)

  /** A row of the user table. `provider` marks users who may be booked. */
  datatype User = User(name: string, provider: bool)

  /** A row of the appointment table. `canceledAt` is null until some other
      part of the system cancels the appointment; rows are never deleted. */
  datatype Appointment = Appointment(
    id: nat,
    userId: int,
    providerId: int,
    date: int,
    canceledAt: Option<int>)

  /** Text of an in-app notification: "New appointment scheduled for <name>
      on <hour>". Only its two inputs are kept; the English rendering of the
      hour is not part of this model. */
  datatype Content = Scheduled(userName: string, hourStart: int)

  /** An in-app notification addressed to the user `user` (the provider). */
  datatype Notification = Notification(user: int, content: Content)

  /** What a controller action answers: a JSON body, an error status with its
      `error` message, or an exception that escapes the action and is left to
      the framework's generic handler. */
  datatype Response<+T> = Ok(value: T) | Err(status: nat, message: string) | Thrown

  /** An appointment that has not been canceled. */
  predicate Live(a: Appointment) {
    a.canceledAt.None?
  }
}
