/** The appointment controller over in-memory tables: `index` reads them,
    `store` appends to the appointment and notification tables. */
module Controller {
  import opened Records
  import opened Hours
  import Listing
  import opened Booking

  class AppointmentController {
    var users: map<int, User>
    var appointments: seq<Appointment>
    var notifications: seq<Notification>
    var nextId: nat

    /** The tables as one value. */
    function State(): Db
      reads this
    {
      Db(users, appointments, notifications, nextId)
    }

    ghost predicate Valid()
      reads this
    {
      WellKeyed(State())
    }

    constructor (users: map<int, User>, appointments: seq<Appointment>, notifications: seq<Notification>, nextId: nat)
      requires WellKeyed(Db(users, appointments, notifications, nextId))
      ensures Valid()
      ensures State() == Db(users, appointments, notifications, nextId)
    {
      this.users := users;
      this.appointments := appointments;
      this.notifications := notifications;
      this.nextId := nextId;
    }

    /** `index`: reads the appointment table and changes nothing. */
    method Index(requester: int, page: Option<int>) returns (r: Response<seq<Appointment>>)
      ensures r == Listing.Index(appointments, requester, page)
      ensures r.Ok? ==> |r.value| <= Listing.PageSize && Listing.SortedByDate(r.value)
      ensures r.Ok? ==> forall a :: a in r.value ==> a in appointments && Listing.Selected(a, requester)
    {
      r := Listing.Index(appointments, requester, page);
    }

    /** `store`: the four checks in order, then the appointment, then the
        requester lookup, then the notification. */
    method Store(body: Body, requester: int, now: int) returns (r: Response<Appointment>)
      requires Valid()
      modifies this
      ensures Valid()
      ensures (r, State()) == Apply(old(State()), body, requester, now)
      ensures users == old(users)
      ensures r.Err? ==> appointments == old(appointments) && notifications == old(notifications)
      ensures r.Ok? ==>
                && r.value.userId == requester && Live(r.value)
                && body == Body(Some(r.value.providerId), Some(r.value.date))
                && (forall a :: a in old(appointments) ==> a.id != r.value.id)
                && appointments == old(appointments) + [r.value]
                && notifications == old(notifications)
                     + [Notification(r.value.providerId, Scheduled(users[requester].name, StartOfHour(r.value.date)))]
      ensures r.Thrown? ==>
                && requester !in users
                && |appointments| == |old(appointments)| + 1
                && appointments[..|old(appointments)|] == old(appointments)
                && notifications == old(notifications)
    {
      ghost var before := State();
      ApplyKeepsWellKeyed(before, body, requester, now);
      // Screen, step 1: structural validation.
      if !WellFormed(body) {
        return Err(400, "Validation fails");
      }
      var providerId, date := body.providerId.value, body.date.value;
      // Screen, step 2: the provider exists and has the provider flag.
      if !IsProvider(users, providerId) {
        return Err(401, "You can only create appointments with a valid provider");
      }
      // Screen, step 3: the truncated hour has not started before now.
      var hourStart := StartOfHour(date);
      if IsBefore(hourStart, now) {
        return Err(400, "Past dates are not allowed");
      }
      // Screen, step 4: no live appointment holds the provider at that hour.
      if SlotTaken(appointments, providerId, hourStart) {
        return Err(400, "Appointment date is not available");
      }
      // Commit: the appointment is written with the raw date.
      var appointment := Appointment(nextId, requester, providerId, date, None);
      appointments := appointments + [appointment];
      nextId := nextId + 1;
      // Commit: the requester's name is read; a missing requester throws here.
      if requester !in users {
        return Thrown;
      }
      // Commit: the notification for the provider.
      var user := users[requester];
      notifications := notifications + [Notification(providerId, Scheduled(user.name, hourStart))];
      return Ok(appointment);
    }
  }
}
