/** What the workflow engine guarantees: when a transition succeeds, which
    failure wins when several checks fail, where the room ends up, and the
    invariants every transition keeps — rooms for the room statuses, one patient
    at a time with the doctor, and the database's own integrity. */
module WorkflowProps {
  import opened Base
  import opened AccountModels
  import opened AppointmentModels
  import opened Permissions
  import opened Workflow

  /** The acceptance condition of a request, stated as a plain conjunction of
      the engine's checks, in no particular order. */
  predicate Admissible(s: Store, req: Request, clock: Clock) {
    match ParseAction(req.action)
    case None => false
    case Some(action) =>
      && MayPerform(req.user, action)
      && req.appointmentId in s.appointments
      && var a := s.appointments[req.appointmentId];
      && a.status in RuleOf(action).sources
      && !(req.enforceCapacity && action.CapacityGated() && DoctorIsBusy(s.appointments, clock.today, req.appointmentId))
      && (RuleOf(action).requiresRoom ==>
            req.roomId.Some? && req.roomId.value != 0 && IsActiveRoom(s.rooms, req.roomId.value))
      && (action == RoomTransfer ==> a.room != req.roomId)
      && (action == RoomAccept ==> a.room.Some?)
  }

  /** A request succeeds exactly when it passes every check; the order in which
      the engine makes them only decides which error a failing request gets. */
  lemma TransitionSucceedsIff(s: Store, req: Request, clock: Clock)
    requires WellFormed(s)
    ensures Transition(s, req, clock).Ok? <==> Admissible(s, req, clock)
  {
    if ParseAction(req.action).Some? && req.appointmentId in s.appointments {
      assert s.appointments[req.appointmentId].id == req.appointmentId;
    }
  }

  /** An action outside the rule table is refused before anything else. */
  lemma UnknownActionRejected(s: Store, req: Request, clock: Clock)
    requires WellFormed(s)
    requires forall a: Action :: a.Code() != req.action
    ensures Transition(s, req, clock) == Err(ValidationError(MSG_UNKNOWN_ACTION))
    ensures Apply(s, req, clock) == s
  {
  }

  /** The permission check comes before the appointment is even looked up: an
      actor without the role gets the same refusal from any two stores. */
  lemma PermissionCheckedFirst(s1: Store, s2: Store, req: Request, c1: Clock, c2: Clock)
    requires WellFormed(s1) && WellFormed(s2)
    requires ParseAction(req.action).Some?
    requires GetUserRole(Some(req.user)) !in RuleOf(ParseAction(req.action).value).roles
    ensures Transition(s1, req, c1) == Transition(s2, req, c2) == Err(PermissionDenied(MSG_NO_PERMISSION))
  {
  }

  /** A permitted request for an unknown appointment fails with "not found". */
  lemma UnknownAppointmentNotFound(s: Store, req: Request, clock: Clock)
    requires WellFormed(s)
    requires ParseAction(req.action).Some? && MayPerform(req.user, ParseAction(req.action).value)
    requires req.appointmentId !in s.appointments
    ensures Transition(s, req, clock) == Err(NotFound)
  {
  }

  /** With capacity enforced, checking in or accepting a patient while another
      of today's appointments is with the doctor fails with the capacity
      message, whatever the status of the target. */
  lemma CapacityCheckedBeforeStatus(s: Store, req: Request, clock: Clock, other: nat)
    requires WellFormed(s)
    requires ParseAction(req.action) == Some(CheckIn) || ParseAction(req.action) == Some(DoctorAccept)
    requires MayPerform(req.user, ParseAction(req.action).value)
    requires req.appointmentId in s.appointments && req.enforceCapacity
    requires other in s.appointments && other != req.appointmentId && WithDoctorOn(s.appointments[other], clock.today)
    ensures Transition(s, req, clock) == Err(ValidationError(MSG_DOCTOR_BUSY))
  {
    assert s.appointments[req.appointmentId].id == req.appointmentId;
  }

  /** The target itself never makes the doctor busy: with a truthy id and no
      other appointment of today with the doctor, the capacity check passes. */
  lemma TargetNotCountedAsBusy(appts: map<nat, Appointment>, today: int, id: nat)
    requires id != 0
    requires forall k :: k in appts && k != id ==> !WithDoctorOn(appts[k], today)
    ensures !DoctorIsBusy(appts, today, id)
  {
  }

  /** A permitted request whose appointment is in the wrong status fails with
      the state message once the capacity check has passed. */
  lemma WrongStatusRejected(s: Store, req: Request, clock: Clock)
    requires WellFormed(s)
    requires ParseAction(req.action).Some? && MayPerform(req.user, ParseAction(req.action).value)
    requires req.appointmentId in s.appointments
    requires s.appointments[req.appointmentId].status !in RuleOf(ParseAction(req.action).value).sources
    requires !(req.enforceCapacity && ParseAction(req.action).value.CapacityGated()
               && DoctorIsBusy(s.appointments, clock.today, req.appointmentId))
    ensures Transition(s, req, clock) == Err(ValidationError(MSG_WRONG_STATE))
  {
    assert s.appointments[req.appointmentId].id == req.appointmentId;
  }

  /** Completed and cancelled appointments are final, and no transition ever
      cancels an appointment. */
  lemma FinalStatuses(s: Store, req: Request, clock: Clock)
    requires WellFormed(s)
    ensures req.appointmentId in s.appointments && s.appointments[req.appointmentId].status in {Completed, Cancelled} ==>
              Transition(s, req, clock).Err?
    ensures Transition(s, req, clock).Ok? ==> Transition(s, req, clock).value.appointment.status != Cancelled
  {
    ActionTables();
  }

  /** The validation errors of the room step, for a request that has passed
      every earlier check. */
  lemma RoomErrors(s: Store, req: Request, clock: Clock)
    requires WellFormed(s)
    requires ParseAction(req.action) == Some(TransferToRoom) || ParseAction(req.action) == Some(RoomTransfer)
    requires MayPerform(req.user, ParseAction(req.action).value)
    requires req.appointmentId in s.appointments
    requires s.appointments[req.appointmentId].status in RuleOf(ParseAction(req.action).value).sources
    ensures req.roomId.None? || req.roomId == Some(0) ==>
              Transition(s, req, clock) == Err(ValidationError(MSG_CHOOSE_ROOM))
    ensures req.roomId.Some? && req.roomId.value != 0 && !IsActiveRoom(s.rooms, req.roomId.value) ==>
              Transition(s, req, clock) == Err(ValidationError(MSG_ROOM_UNAVAILABLE))
    ensures req.roomId.Some? && req.roomId.value != 0 && IsActiveRoom(s.rooms, req.roomId.value)
            && ParseAction(req.action) == Some(RoomTransfer) && s.appointments[req.appointmentId].room == req.roomId ==>
              Transition(s, req, clock) == Err(ValidationError(MSG_SAME_ROOM))
  {
  }

  /** Accepting a patient into a room fails when the appointment holds none. */
  lemma RoomAcceptNeedsRoom(s: Store, req: Request, clock: Clock)
    requires WellFormed(s)
    requires ParseAction(req.action) == Some(RoomAccept) && MayPerform(req.user, RoomAccept)
    requires req.appointmentId in s.appointments
    requires s.appointments[req.appointmentId].status == WaitingRoom
    requires s.appointments[req.appointmentId].room.None?
    ensures Transition(s, req, clock) == Err(ValidationError(MSG_NO_ROOM))
  {
  }

  /** Where the room ends up after a successful transition: a transfer puts the
      appointment in the chosen active room (a different one for a room
      transfer), the doctor-bound actions clear it, and the others keep it. */
  lemma RoomOutcome(s: Store, req: Request, clock: Clock)
    requires WellFormed(s)
    requires Transition(s, req, clock).Ok?
    ensures var action := ParseAction(req.action).value;
            var before := s.appointments[req.appointmentId].room;
            var after := Transition(s, req, clock).value.appointment.room;
            && (RuleOf(action).requiresRoom ==> after == req.roomId && after.Some? && IsActiveRoom(s.rooms, after.value))
            && (action == RoomTransfer ==> after != before)
            && (action.CapacityGated() ==> after == None)
            && (action == RoomAccept ==> after == before && after.Some?)
            && (action == Complete ==> after == before)
  {
  }

  /** What an admissible request does to the store: its appointment moves to
      the rule's target status and to the room the rule prescribes, one journal
      entry is added, and nothing else changes. */
  lemma AdmissibleEffect(s: Store, req: Request, clock: Clock)
    requires WellFormed(s) && Admissible(s, req, clock)
    ensures var t := Apply(s, req, clock);
            var action := ParseAction(req.action).value;
            var rule := RuleOf(action);
            var a := s.appointments[req.appointmentId];
            var room := if rule.requiresRoom then req.roomId else if action.CapacityGated() then None else a.room;
            && WellFormed(t)
            && t.appointments == s.appointments[req.appointmentId := a.(status := rule.target, room := room)]
            && t.rooms == s.rooms && t.patients == s.patients
            && |t.events| == |s.events| + 1
  {
    TransitionSucceedsIff(s, req, clock);
    RoomOutcome(s, req, clock);
    TransitionKeepsWellFormed(s, req, clock);
  }

  /** The journal entry of a success records the action's event type and the
      status before and after, and the activity-log entry the action's code. */
  lemma EventRecordsTransition(s: Store, req: Request, clock: Clock)
    requires WellFormed(s)
    requires Transition(s, req, clock).Ok?
    ensures var o := Transition(s, req, clock).value;
            var action := ParseAction(req.action).value;
            && o.event.eventType == EventTypeOf(action)
            && o.event.fromStatus in RuleOf(action).sources
            && o.event.toStatus == RuleOf(action).target == o.appointment.status
            && o.event.room == o.appointment.room
            && o.store.audit[|s.audit|].action == o.event.eventType.Code()
            && o.event.id == s.nextEventId && o.store.nextEventId == s.nextEventId + 1
  {
    ActionTables();
  }

  /** Appointments in a room status hold a room. */
  predicate RoomRule(appts: map<nat, Appointment>) {
    forall k :: k in appts && (appts[k].status == WaitingRoom || appts[k].status == WithRoom) ==> appts[k].room.Some?
  }

  /** At most one of `today`'s appointments is with the doctor. */
  predicate SingleDoctorToday(appts: map<nat, Appointment>, today: int) {
    forall i, j :: i in appts && j in appts && WithDoctorOn(appts[i], today) && WithDoctorOn(appts[j], today) ==> i == j
  }

  /** The three invariants the engine keeps for a given day. */
  predicate Invariant(s: Store, today: int) {
    WellFormed(s) && RoomRule(s.appointments) && SingleDoctorToday(s.appointments, today)
  }

  /** Every transition keeps the database consistent: the room it assigns
      exists, and the new event takes the next id of the journal's sequence. */
  lemma TransitionKeepsWellFormed(s: Store, req: Request, clock: Clock)
    requires WellFormed(s)
    ensures WellFormed(Apply(s, req, clock))
  {
    if Transition(s, req, clock).Ok? {
      RoomOutcome(s, req, clock);
      var t := Apply(s, req, clock);
      forall i, j | 0 <= i < j < |t.events|
        ensures t.events[i].id < t.events[j].id
      {
        assert t.events[i] == s.events[i];
      }
      forall i | 0 <= i < |t.events|
        ensures t.events[i].id < t.nextEventId
      {
        if i < |s.events| {
          assert t.events[i] == s.events[i];
        }
      }
    }
  }

  /** Every successful transition leaves its appointment obeying the room
      rule, whatever state it started from; so the rule is never broken. */
  lemma TransitionKeepsRoomRule(s: Store, req: Request, clock: Clock)
    requires WellFormed(s) && RoomRule(s.appointments)
    ensures RoomRule(Apply(s, req, clock).appointments)
  {
    if Transition(s, req, clock).Ok? {
      RoomOutcome(s, req, clock);
    }
  }

  /** With capacity enforced, a transition never puts a second appointment of
      the day with the doctor. */
  lemma TransitionKeepsSingleDoctor(s: Store, req: Request, clock: Clock)
    requires WellFormed(s) && SingleDoctorToday(s.appointments, clock.today)
    requires req.enforceCapacity
    ensures SingleDoctorToday(Apply(s, req, clock).appointments, clock.today)
  {
    if Transition(s, req, clock).Ok? {
      var action := ParseAction(req.action).value;
      var id := req.appointmentId;
      var t := Apply(s, req, clock).appointments;
      if action == DoctorAccept && WithDoctorOn(t[id], clock.today) {
        assert s.appointments[id].id == id;
        assert !DoctorIsBusy(s.appointments, clock.today, id);
      }
    }
  }

  lemma TransitionKeepsInvariant(s: Store, req: Request, clock: Clock)
    requires Invariant(s, clock.today) && req.enforceCapacity
    ensures Invariant(Apply(s, req, clock), clock.today)
  {
    TransitionKeepsWellFormed(s, req, clock);
    TransitionKeepsRoomRule(s, req, clock);
    TransitionKeepsSingleDoctor(s, req, clock);
  }

  /** A day's requests applied one after another on the same day; refused
      requests leave the store as it was. */
  function Replay(s: Store, reqs: seq<Request>, clock: Clock): (t: Store)
    requires WellFormed(s)
    ensures WellFormed(t)
    ensures |s.events| <= |t.events| <= |s.events| + |reqs|
    ensures t.events[..|s.events|] == s.events
    ensures t.patients == s.patients && t.rooms == s.rooms
    decreases |reqs|
  {
    if reqs == [] then s
    else
      TransitionKeepsWellFormed(s, reqs[0], clock);
      var next := Apply(s, reqs[0], clock);
      var t := Replay(next, reqs[1..], clock);
      assert next.events[..|s.events|] == s.events;
      assert t.events[..|s.events|] == t.events[..|next.events|][..|s.events|];
      t
  }

  /** The capacity check counts only appointments scheduled for the clock's
      day, and nothing checks the date of the appointment being accepted. So
      on day `d`, with capacity enforced and nobody with the doctor, two
      waiting appointments of day `d + 1` can both be accepted, and when day
      `d + 1` comes two of its appointments are with the doctor: the
      single-doctor rule holds only within the clock's day. */
  lemma AcceptedAcrossMidnight(s: Store, x: nat, y: nat, u: User, clock: Clock)
    requires WellFormed(s) && MayPerform(u, DoctorAccept)
    requires x != y && x in s.appointments && y in s.appointments
    requires s.appointments[x].status == WaitingDoctor && s.appointments[x].scheduledAt.day == clock.today + 1
    requires s.appointments[y].status == WaitingDoctor && s.appointments[y].scheduledAt.day == clock.today + 1
    requires !DoctorIsBusy(s.appointments, clock.today, 0)
    ensures var rx, ry := Request(x, DoctorAccept.Code(), u, None, true), Request(y, DoctorAccept.Code(), u, None, true);
            WellFormed(Apply(s, rx, clock))
            && var t := Apply(Apply(s, rx, clock), ry, clock);
            && x in t.appointments && WithDoctorOn(t.appointments[x], clock.today + 1)
            && y in t.appointments && WithDoctorOn(t.appointments[y], clock.today + 1)
            && !SingleDoctorToday(t.appointments, clock.today + 1)
  {
    var rx, ry := Request(x, DoctorAccept.Code(), u, None, true), Request(y, DoctorAccept.Code(), u, None, true);
    AcceptStep(s, rx, u, clock);
    var s1 := Apply(s, rx, clock);
    OtherDayNotBusy(s.appointments, x, s1.appointments[x], clock.today);
    AcceptStep(s1, ry, u, clock);
  }

  /** Replacing one appointment by one that is not with the doctor today
      leaves the doctor free today. */
  lemma OtherDayNotBusy(appts: map<nat, Appointment>, x: nat, v: Appointment, today: int)
    requires !DoctorIsBusy(appts, today, 0) && !WithDoctorOn(v, today)
    ensures !DoctorIsBusy(appts[x := v], today, 0)
  {
    var m := appts[x := v];
    forall k | k in m
      ensures !WithDoctorOn(m[k], today)
    {
      if k != x {
        assert m[k] == appts[k];
      }
    }
  }

  /** A capacity-enforced doctor accept of a waiting appointment, with nobody
      of the clock's day with the doctor, moves just that appointment to the
      doctor, without a room. */
  lemma AcceptStep(s: Store, req: Request, u: User, clock: Clock)
    requires WellFormed(s) && MayPerform(u, DoctorAccept)
    requires req == Request(req.appointmentId, DoctorAccept.Code(), u, None, true)
    requires req.appointmentId in s.appointments && s.appointments[req.appointmentId].status == WaitingDoctor
    requires !DoctorIsBusy(s.appointments, clock.today, 0)
    ensures WellFormed(Apply(s, req, clock))
    ensures Apply(s, req, clock).appointments
            == s.appointments[req.appointmentId := s.appointments[req.appointmentId].(status := WithDoctor, room := None)]
  {
    assert ParseAction(DoctorAccept.Code()) == Some(DoctorAccept);
    AdmissibleEffect(s, req, clock);
  }

  /** Over any sequence of requests with capacity enforced, room statuses
      always hold a room and at most one of today's appointments is with the
      doctor. */
  lemma {:induction false} ReplayKeepsInvariant(s: Store, reqs: seq<Request>, clock: Clock)
    requires Invariant(s, clock.today)
    requires forall i :: 0 <= i < |reqs| ==> reqs[i].enforceCapacity
    ensures Invariant(Replay(s, reqs, clock), clock.today)
    decreases |reqs|
  {
    if reqs != [] {
      TransitionKeepsInvariant(s, reqs[0], clock);
      ReplayKeepsInvariant(Apply(s, reqs[0], clock), reqs[1..], clock);
    }
  }
}
