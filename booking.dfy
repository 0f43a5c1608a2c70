/** `store`: the guarded steps that book an appointment with a provider and
    notify the provider, as a pure transition over the persisted tables. The
    wall clock is the parameter `now`. */
module Booking {
  import opened Records
  import opened Hours

  /** The request body after the schema's coercion: a field is absent when it
      is missing or cannot be read as a number (`provider_id`) or as a date
      (`date`, already parsed to a timestamp). */
  datatype Body = Body(providerId: Option<int>, date: Option<int>)

  /** The four ways `store` refuses a request, in the order it checks them. */
  datatype Rejection = ValidationFails | InvalidProvider | PastDate | Unavailable

  function Status(reason: Rejection): nat {
    match reason
    case InvalidProvider => 401
    case _ => 400
  }

  function Message(reason: Rejection): string {
    match reason
    case ValidationFails => "Validation fails"
    case InvalidProvider => "You can only create appointments with a valid provider"
    case PastDate => "Past dates are not allowed"
    case Unavailable => "Appointment date is not available"
  }

  /** The persisted tables. `nextId` is the identifier the appointment table
      hands out next. */
  datatype Db = Db(
    users: map<int, User>,
    appointments: seq<Appointment>,
    notifications: seq<Notification>,
    nextId: nat)

  /** Appointment identifiers are distinct and all below `nextId`. */
  predicate WellKeyed(db: Db) {
    && (forall i :: 0 <= i < |db.appointments| ==> db.appointments[i].id < db.nextId)
    && (forall i, j :: 0 <= i < j < |db.appointments| ==> db.appointments[i].id != db.appointments[j].id)
  }

  /** Step 1: both fields are present. */
  predicate WellFormed(body: Body) {
    body.providerId.Some? && body.date.Some?
  }

  /** Step 2: a user with that id exists and has the provider flag. */
  predicate IsProvider(users: map<int, User>, id: int) {
    id in users && users[id].provider
  }

  /** An appointment that holds provider `providerId` at instant `hourStart`. */
  predicate Blocks(a: Appointment, providerId: int, hourStart: int) {
    a.providerId == providerId && Live(a) && a.date == hourStart
  }

  /** Step 4: some live appointment already holds that provider at that instant. */
  predicate SlotTaken(table: seq<Appointment>, providerId: int, hourStart: int) {
    exists a :: a in table && Blocks(a, providerId, hourStart)
  }

  /** The outcome of the four checks. */
  datatype Screening = Admitted(providerId: int, date: int, hourStart: int) | Rejected(reason: Rejection)

  /** Runs the checks in order; the first that fails decides the rejection. */
  function Screen(db: Db, body: Body, now: int): (s: Screening)
    ensures s.Admitted? ==>
              && body == Body(Some(s.providerId), Some(s.date))
              && s.hourStart == StartOfHour(s.date)
              && IsProvider(db.users, s.providerId)
              && !IsBefore(s.hourStart, now)
              && !SlotTaken(db.appointments, s.providerId, s.hourStart)
    ensures s.Rejected? ==> (s.reason == ValidationFails <==> !WellFormed(body))
  {
    if !WellFormed(body) then Rejected(ValidationFails)
    else
      var providerId, date := body.providerId.value, body.date.value;
      var hourStart := StartOfHour(date);
      if !IsProvider(db.users, providerId) then Rejected(InvalidProvider)
      else if IsBefore(hourStart, now) then Rejected(PastDate)
      else if SlotTaken(db.appointments, providerId, hourStart) then Rejected(Unavailable)
      else Admitted(providerId, date, hourStart)
  }

  /** Creates the appointment with date `stored`, then looks up the requester's
      name for the notification. A requester missing from the user table makes
      that lookup yield nothing and reading its name throw, after the
      appointment was written and before the notification is. */
  function Commit(db: Db, requester: int, providerId: int, stored: int, hourStart: int): (out: (Response<Appointment>, Db))
    ensures var a := Appointment(db.nextId, requester, providerId, stored, None);
            && out.1.appointments == db.appointments + [a]
            && out.1.nextId == db.nextId + 1
            && out.1.users == db.users
            && (out.0.Thrown? <==> requester !in db.users)
            && (out.0.Thrown? ==> out.1.notifications == db.notifications)
            && (!out.0.Thrown? ==>
                  && out.0 == Ok(a)
                  && out.1.notifications == db.notifications + [Notification(providerId, Scheduled(db.users[requester].name, hourStart))])
  {
    var appointment := Appointment(db.nextId, requester, providerId, stored, None);
    var booked := db.(appointments := db.appointments + [appointment], nextId := db.nextId + 1);
    if requester !in db.users then (Thrown, booked)
    else
      var notice := Notification(providerId, Scheduled(db.users[requester].name, hourStart));
      (Ok(appointment), booked.(notifications := db.notifications + [notice]))
  }

  /** `store` as written: the checks run against the truncated hour, and the
      appointment is stored with the raw requested date. */
  function Apply(db: Db, body: Body, requester: int, now: int): (out: (Response<Appointment>, Db))
    ensures out.0.Err? <==> Screen(db, body, now).Rejected?
    ensures out.0.Err? ==> out.1 == db
    ensures out.1.users == db.users
    ensures out.0.Thrown? ==>
              && requester !in db.users
              && WellFormed(body)
              && out.1.appointments == db.appointments + [Appointment(db.nextId, requester, body.providerId.value, body.date.value, None)]
              && out.1.nextId == db.nextId + 1
              && out.1.notifications == db.notifications
    ensures out.0.Ok? ==>
              var a := out.0.value;
              && requester in db.users
              && body == Body(Some(a.providerId), Some(a.date))
              && a.userId == requester && Live(a)
              && out.1.appointments == db.appointments + [a]
              && out.1.notifications == db.notifications + [Notification(a.providerId, Scheduled(db.users[requester].name, StartOfHour(a.date)))]
    ensures out.0.Ok? && WellKeyed(db) ==> forall b :: b in db.appointments ==> b.id != out.0.value.id
  {
    match Screen(db, body, now)
    case Rejected(reason) => (Err(Status(reason), Message(reason)), db)
    case Admitted(providerId, date, hourStart) => Commit(db, requester, providerId, date, hourStart)
  }

  /** Booking never reuses an appointment identifier. */
  lemma ApplyKeepsWellKeyed(db: Db, body: Body, requester: int, now: int)
    requires WellKeyed(db)
    ensures WellKeyed(Apply(db, body, requester, now).1)
  {
  }

  /** A body missing either field is answered 400 "Validation fails", and only such a body. */
  lemma RejectsMalformedBody(db: Db, body: Body, requester: int, now: int)
    ensures Apply(db, body, requester, now).0 == Err(400, "Validation fails") <==> !WellFormed(body)
  {
  }

  /** A provider id naming no user, or a user without the provider flag, is
      answered 401, and only once the body is well formed. */
  lemma RejectsInvalidProvider(db: Db, body: Body, requester: int, now: int)
    ensures Apply(db, body, requester, now).0 == Err(401, "You can only create appointments with a valid provider")
            <==> WellFormed(body) && !IsProvider(db.users, body.providerId.value)
  {
  }

  /** A date whose hour started strictly before `now` is refused; the current
      hour itself is still bookable. */
  lemma RejectsPastHour(db: Db, body: Body, requester: int, now: int)
    ensures Apply(db, body, requester, now).0 == Err(400, "Past dates are not allowed")
            <==> && WellFormed(body) && IsProvider(db.users, body.providerId.value)
                 && StartOfHour(body.date.value) < now
  {
  }

  /** A live appointment of the same provider at the truncated hour makes the
      slot unavailable; the earlier checks take precedence. */
  lemma RejectsTakenSlot(db: Db, body: Body, requester: int, now: int)
    ensures Apply(db, body, requester, now).0 == Err(400, "Appointment date is not available")
            <==> && WellFormed(body) && IsProvider(db.users, body.providerId.value)
                 && now <= StartOfHour(body.date.value)
                 && SlotTaken(db.appointments, body.providerId.value, StartOfHour(body.date.value))
  {
  }

  /** A request passing all four checks is booked when the requester is a user. */
  lemma AcceptsFreeSlot(db: Db, body: Body, requester: int, now: int)
    ensures Apply(db, body, requester, now).0.Ok?
            <==> && WellFormed(body) && IsProvider(db.users, body.providerId.value)
                 && now <= StartOfHour(body.date.value)
                 && !SlotTaken(db.appointments, body.providerId.value, StartOfHour(body.date.value))
                 && requester in db.users
  {
  }

  /** A canceled row never makes a slot unavailable: adding one to the table
      changes no availability answer. */
  lemma CanceledRowNeverBlocks(table: seq<Appointment>, c: Appointment, providerId: int, hourStart: int)
    requires !Live(c)
    ensures SlotTaken(table + [c], providerId, hourStart) <==> SlotTaken(table, providerId, hourStart)
  {
  }

  /** Canceling a row never makes a free slot taken, and canceling the only
      row that holds a slot frees it. */
  lemma {:induction false} CancelingNeverTakesASlot(table: seq<Appointment>, k: nat, when: int, providerId: int, hourStart: int)
    requires k < |table|
    ensures var after := table[k := table[k].(canceledAt := Some(when))];
            && (SlotTaken(after, providerId, hourStart) ==> SlotTaken(table, providerId, hourStart))
            && ((SlotTaken(table, providerId, hourStart) && !SlotTaken(after, providerId, hourStart))
                ==> Blocks(table[k], providerId, hourStart))
  {
    var after := table[k := table[k].(canceledAt := Some(when))];
    if SlotTaken(after, providerId, hourStart) {
      var i :| 0 <= i < |after| && Blocks(after[i], providerId, hourStart);
      assert i != k;
      assert table[i] == after[i];
    }
    if SlotTaken(table, providerId, hourStart) && !Blocks(table[k], providerId, hourStart) {
      var i :| 0 <= i < |table| && Blocks(table[i], providerId, hourStart);
      assert after[i] == table[i];
    }
  }

  // Same hour, same provider: the slot rule and where the code as written breaks it.

  /** Two appointments for one provider within one hour. */
  predicate SameSlot(a: Appointment, b: Appointment) {
    a.providerId == b.providerId && StartOfHour(a.date) == StartOfHour(b.date)
  }

  /** At most one live appointment per provider per hour. */
  predicate SlotsUnique(table: seq<Appointment>) {
    forall i, j :: 0 <= i < j < |table| && Live(table[i]) && Live(table[j]) ==> !SameSlot(table[i], table[j])
  }

  /** Every stored date is a whole hour. */
  predicate AllOnTheHour(table: seq<Appointment>) {
    forall i :: 0 <= i < |table| ==> OnTheHour(table[i].date)
  }

  /** As written, repeating a request that was just booked is refused exactly
      when its date is a whole hour: otherwise the stored raw date never equals
      the truncated hour the availability check looks for. */
  lemma {:induction false} RepeatRefusedExactlyOnTheHour(db: Db, body: Body, requester: int, now: int)
    requires Apply(db, body, requester, now).0.Ok?
    ensures Apply(Apply(db, body, requester, now).1, body, requester, now).0 == Err(400, "Appointment date is not available")
            <==> OnTheHour(body.date.value)
  {
    var first := Apply(db, body, requester, now);
    var a := first.0.value;
    var h := StartOfHour(a.date);
    StartOfHourFixesWholeHours(a.date);
    assert first.1.appointments == db.appointments + [a];
    assert !SlotTaken(db.appointments, a.providerId, h);
    if OnTheHour(a.date) {
      assert Blocks(a, a.providerId, h);
      assert SlotTaken(first.1.appointments, a.providerId, h);
    } else {
      assert !SlotTaken(first.1.appointments, a.providerId, h);
    }
  }

  /** The same off-the-hour request, sent twice by the same user, books the
      same provider twice at the same instant. */
  lemma RepeatedOffHourRequestDoubleBooks()
    ensures var db := Db(map[1 := User("Ana", false), 7 := User("Bia", true)], [], [], 1);
            var body := Body(Some(7), Some(10 * HourMs + 30 * 60_000));
            var first := Apply(db, body, 1, 0);
            var second := Apply(first.1, body, 1, 0);
            && first.0.Ok? && second.0.Ok?
            && first.0.value.date == second.0.value.date
            && !SlotsUnique(second.1.appointments)
  {
    var db := Db(map[1 := User("Ana", false), 7 := User("Bia", true)], [], [], 1);
    var body := Body(Some(7), Some(10 * HourMs + 30 * 60_000));
    var first := Apply(db, body, 1, 0);
    RepeatRefusedExactlyOnTheHour(db, body, 1, 0);
    var second := Apply(first.1, body, 1, 0);
    var table := second.1.appointments;
    assert table == [first.0.value, second.0.value];
    assert Live(table[0]) && Live(table[1]) && SameSlot(table[0], table[1]);
  }

  /** `store` storing the truncated hour instead of the raw date, so that the
      availability check compares like with like. */
  function ApplyOnTheHour(db: Db, body: Body, requester: int, now: int): (out: (Response<Appointment>, Db))
    ensures out.0.Err? ==> out.1 == db
    ensures out.0.Ok? ==>
              && body.date.Some? && out.0.value.date == StartOfHour(body.date.value)
              && out.1.appointments == db.appointments + [out.0.value]
  {
    match Screen(db, body, now)
    case Rejected(reason) => (Err(Status(reason), Message(reason)), db)
    case Admitted(providerId, date, hourStart) => Commit(db, requester, providerId, hourStart, hourStart)
  }

  /** Storing the truncated hour keeps at most one live appointment per
      provider per hour. */
  lemma {:induction false} OnTheHourKeepsSlotsUnique(db: Db, body: Body, requester: int, now: int)
    requires AllOnTheHour(db.appointments) && SlotsUnique(db.appointments)
    ensures var after := ApplyOnTheHour(db, body, requester, now).1.appointments;
            AllOnTheHour(after) && SlotsUnique(after)
  {
    var s := Screen(db, body, now);
    if s.Admitted? {
      var table := db.appointments;
      var a := Appointment(db.nextId, requester, s.providerId, s.hourStart, None);
      var after := ApplyOnTheHour(db, body, requester, now).1.appointments;
      assert after == table + [a];
      StartOfHourFixesWholeHours(s.hourStart);
      forall i | 0 <= i < |table| && Live(table[i])
        ensures !SameSlot(table[i], a)
      {
        StartOfHourFixesWholeHours(table[i].date);
        if SameSlot(table[i], a) {
          assert Blocks(table[i], s.providerId, s.hourStart);
          assert false;
        }
      }
    }
  }

  /** Storing the truncated hour, a booked request sent again is always refused. */
  lemma {:induction false} OnTheHourRepeatRefused(db: Db, body: Body, requester: int, now: int)
    requires ApplyOnTheHour(db, body, requester, now).0.Ok?
    ensures ApplyOnTheHour(ApplyOnTheHour(db, body, requester, now).1, body, requester, now).0
            == Err(400, "Appointment date is not available")
  {
    var first := ApplyOnTheHour(db, body, requester, now);
    var a := first.0.value;
    assert Blocks(a, a.providerId, a.date);
    assert a in first.1.appointments;
  }
}
