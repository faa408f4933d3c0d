/** The appointment workflow engine (`apps/appointments/workflow.py`): a
    table-driven state machine that moves one appointment along
    planned -> waiting for doctor -> with doctor -> waiting for room -> in room
    -> completed, checking the actor's role, the doctor's capacity, the source
    status and the destination room, and journalling every move. The database
    transaction is modelled as an atomic pure function over a `Store`; the
    realtime broadcast that follows a success is not modelled. */
module Workflow {
  import opened Base
  import opened AccountModels
  import opened AppointmentModels
  import opened AuditLog
  import opened Permissions

  /** The keys of `ACTION_RULES`. */
  datatype Action = CheckIn | DoctorAccept | TransferToRoom | RoomAccept | RoomTransfer | Complete {

    function Code(): string {
      match this
      case CheckIn => "check_in"
      case DoctorAccept => "doctor_accept"
      case TransferToRoom => "transfer_to_room"
      case RoomAccept => "room_accept"
      case RoomTransfer => "room_transfer"
      case Complete => "complete"
    }

    /** The two actions that bring a patient to the doctor, and that the
        single-doctor capacity rule guards. */
    predicate CapacityGated() {
      this == CheckIn || this == DoctorAccept
    }
  }

  /** `action in ACTION_RULES`, and the action it names. */
  function ParseAction(code: string): (r: Option<Action>)
    ensures r.Some? ==> r.value.Code() == code
    ensures r.None? ==> forall a: Action :: a.Code() != code
  {
    if code == "check_in" then Some(CheckIn)
    else if code == "doctor_accept" then Some(DoctorAccept)
    else if code == "transfer_to_room" then Some(TransferToRoom)
    else if code == "room_accept" then Some(RoomAccept)
    else if code == "room_transfer" then Some(RoomTransfer)
    else if code == "complete" then Some(Complete)
    else None
  }

  /** One row of `ACTION_RULES`. */
  datatype Rule = Rule(sources: set<Status>, target: Status, roles: set<string>, requiresRoom: bool)

  function RuleOf(a: Action): Rule {
    match a
    case CheckIn => Rule({Planned}, WaitingDoctor, {"receptionist", "admin"}, false)
    case DoctorAccept => Rule({WaitingDoctor}, WithDoctor, {"doctor", "admin"}, false)
    case TransferToRoom => Rule({WithDoctor}, WaitingRoom, {"doctor", "admin"}, true)
    case RoomAccept => Rule({WaitingRoom}, WithRoom, {"nurse", "admin"}, false)
    case RoomTransfer => Rule({WithRoom}, WaitingRoom, {"nurse", "admin"}, true)
    case Complete => Rule({WithRoom}, Completed, {"nurse", "admin"}, false)
  }

  /** `ACTION_TO_EVENT`. */
  function EventTypeOf(a: Action): EventType {
    match a
    case CheckIn => CheckedIn
    case DoctorAccept => DoctorAccepted
    case TransferToRoom => TransferredToRoom
    case RoomAccept => RoomAccepted
    case RoomTransfer => RoomTransferred
    case Complete => CompletedVisit
  }

  /** `ACTION_TO_LOG`. */
  function LogCodeOf(a: Action): string {
    match a
    case CheckIn => "checked_in"
    case DoctorAccept => "doctor_accepted"
    case TransferToRoom => "transferred_to_room"
    case RoomAccept => "room_accepted"
    case RoomTransfer => "room_transferred"
    case Complete => "completed_appointment"
  }

  /** Facts about the three action tables: every action is recognised by its
      code, the administrator may perform every action and an anonymous actor
      none, only the two transfers ask for a room, completed and cancelled
      appointments have no way out, nothing leads to cancelled, and the log code
      of an action is the code of the event it journals. */
  lemma ActionTables()
    ensures forall a: Action :: ParseAction(a.Code()) == Some(a)
    ensures forall a: Action, b: Action :: a.Code() == b.Code() ==> a == b
    ensures forall a: Action :: "admin" in RuleOf(a).roles && "" !in RuleOf(a).roles
    ensures forall a: Action :: RuleOf(a).requiresRoom <==> a == TransferToRoom || a == RoomTransfer
    ensures forall a: Action :: Completed !in RuleOf(a).sources && Cancelled !in RuleOf(a).sources
    ensures forall a: Action :: RuleOf(a).target != Cancelled && RuleOf(a).target !in RuleOf(a).sources
    ensures forall a: Action, b: Action :: EventTypeOf(a) == EventTypeOf(b) ==> a == b
    ensures forall a: Action :: LogCodeOf(a) == EventTypeOf(a).Code()
  {
    forall a: Action
      ensures ParseAction(a.Code()) == Some(a)
    {
      match a
      case CheckIn =>
      case DoctorAccept =>
      case TransferToRoom =>
      case RoomAccept =>
      case RoomTransfer =>
      case Complete =>
    }
  }

  /** Why a transition was refused: Django's `PermissionDenied` and
      `ValidationError`, and `Appointment.DoesNotExist` for an unknown id. */
  datatype Failure = PermissionDenied(message: string) | ValidationError(message: string) | NotFound

  const MSG_UNKNOWN_ACTION: string := "Unknown workflow action."
  const MSG_NO_PERMISSION: string := "You do not have permission for this action."
  const MSG_DOCTOR_BUSY: string := "Doctor is currently with another patient. Please wait until the session is finished."
  const MSG_WRONG_STATE: string := "Appointment is not in the right state for this action."
  const MSG_CHOOSE_ROOM: string := "Please choose a destination room."
  const MSG_ROOM_UNAVAILABLE: string := "Selected room is not available."
  const MSG_SAME_ROOM: string := "Choose a different room for transfer."
  const MSG_NO_ROOM: string := "No room assigned for this appointment yet."

  /** `_resolve_role`: the same resolution order as the permission helpers. */
  function ResolveRole(u: User): (role: string)
    ensures role == GetUserRole(Some(u))
  {
    if !u.isAuthenticated then ""
    else if u.isSuperuser then "admin"
    else match u.profile
      case Some(p) => p.role
      case None => if u.isStaff then "receptionist" else ""
  }

  /** `_assert_permission`: the resolved role is one the action's rule lists. */
  predicate MayPerform(u: User, a: Action) {
    ResolveRole(u) in RuleOf(a).roles
  }

  /** Whoever may perform an action is signed in, and is an administrator or
      holds the one other role the rule names. */
  lemma PermissionByRole(u: User, a: Action)
    ensures MayPerform(u, a) ==> u.isAuthenticated
    ensures MayPerform(u, a) <==> GetUserRole(Some(u)) == "admin" || GetUserRole(Some(u)) == RoleOf(a)
  {
  }

  /** The role, besides the administrator, that the rule of `a` admits. */
  function RoleOf(a: Action): (role: string)
    ensures RuleOf(a).roles == {role, "admin"}
  {
    match a
    case CheckIn => "receptionist"
    case DoctorAccept | TransferToRoom => "doctor"
    case RoomAccept | RoomTransfer | Complete => "nurse"
  }

  /** An appointment that is with the doctor and scheduled for `today`. */
  predicate WithDoctorOn(a: Appointment, today: int) {
    a.status == WithDoctor && a.scheduledAt.day == today
  }

  /** `_doctor_is_busy(exclude_appointment_id=exclude)`: some appointment of
      `today` is with the doctor. The excluded id is skipped only when it is
      truthy, so an id of 0 excludes nothing. */
  predicate DoctorIsBusy(appts: map<nat, Appointment>, today: int, exclude: nat) {
    exists k :: k in appts && WithDoctorOn(appts[k], today) && (exclude == 0 || k != exclude)
  }

  /** The fallback text, used when a room the message would name is missing. */
  const GENERIC_DESCRIPTION: string := "Updated appointment for patient: "

  /** `_action_description`: the activity-log text for a transition.
      `destination` is the room chosen by a transfer and `holding` the room the
      appointment holds after the write. */
  function ActionDescription(a: Action, patientName: string, destination: Option<Room>, holding: Option<Room>): (d: string)
    ensures d == GENERIC_DESCRIPTION + patientName <==>
              ((a == TransferToRoom || a == RoomTransfer) && destination.None?) || (a == RoomAccept && holding.None?)
    ensures |d| > |patientName| && d[|d| - |patientName|..] == patientName
  {
    match a
    case CheckIn => "Checked in patient: " + patientName
    case DoctorAccept => "Doctor accepted patient: " + patientName
    case TransferToRoom =>
      if destination.Some? then
        var d := "Doctor transferred patient to " + destination.value.name + ": " + patientName;
        assert d[0] != GENERIC_DESCRIPTION[0];
        d
      else GENERIC_DESCRIPTION + patientName
    case RoomAccept =>
      if holding.Some? then
        var d := "Room accepted patient in " + holding.value.name + ": " + patientName;
        assert d[0] != GENERIC_DESCRIPTION[0];
        d
      else GENERIC_DESCRIPTION + patientName
    case RoomTransfer =>
      if destination.Some? then
        var d := "Room transferred patient to " + destination.value.name + ": " + patientName;
        assert d[0] != GENERIC_DESCRIPTION[0];
        d
      else GENERIC_DESCRIPTION + patientName
    case Complete => "Completed appointment for patient: " + patientName
  }

  /** The room step of `transition_appointment`: the room the appointment holds
      after the write, or the validation error that stops it. Transfers need a
      truthy id of an active room, and a room transfer a room other than the
      current one; the two doctor-bound actions clear the room; the rest keep it. */
  function RoomStep(rooms: map<nat, Room>, a: Action, current: Option<nat>, roomId: Option<nat>): (r: Result<Option<nat>, Failure>)
    ensures r.Err? ==> RuleOf(a).requiresRoom && r.error.ValidationError?
    ensures r.Ok? && RuleOf(a).requiresRoom ==>
              roomId.Some? && roomId.value != 0 && IsActiveRoom(rooms, roomId.value) && r.value == roomId
    ensures r.Ok? && a == RoomTransfer ==> r.value != current
    ensures RuleOf(a).requiresRoom && (roomId.None? || roomId.value == 0) ==> r == Err(ValidationError(MSG_CHOOSE_ROOM))
    ensures a.CapacityGated() ==> r == Ok(None)
    ensures a == RoomAccept || a == Complete ==> r == Ok(current)
  {
    if RuleOf(a).requiresRoom then
      if roomId.None? || roomId.value == 0 then Err(ValidationError(MSG_CHOOSE_ROOM))
      else if !IsActiveRoom(rooms, roomId.value) then Err(ValidationError(MSG_ROOM_UNAVAILABLE))
      else if a == RoomTransfer && current == roomId then Err(ValidationError(MSG_SAME_ROOM))
      else Ok(roomId)
    else if a.CapacityGated() then Ok(None)
    else Ok(current)
  }

  /** The arguments of `transition_appointment`. `roomId` is `None` for a
      missing room id. */
  datatype Request = Request(appointmentId: nat, action: string, user: User, roomId: Option<nat>, enforceCapacity: bool)

  /** `timezone.localdate()` and `timezone.now()` at the time of the call. */
  datatype Clock = Clock(today: int, now: Moment)

  /** What a successful transition returns: the new store, the updated
      appointment and the journal entry written. */
  datatype Success = Success(store: Store, appointment: Appointment, event: Event)

  /** `transition_appointment`: the checks in the order the source makes them
      (action, permission, lookup, capacity, status, room), then one atomic
      write of status and room, one journal entry and one activity-log entry. */
  function Transition(s: Store, req: Request, clock: Clock): (r: Result<Success, Failure>)
    requires WellFormed(s)
    ensures r.Ok? ==> ParseAction(req.action).Some? && req.appointmentId in s.appointments
    ensures r.Ok? ==>
              var a := s.appointments[req.appointmentId];
              var rule := RuleOf(ParseAction(req.action).value);
              && MayPerform(req.user, ParseAction(req.action).value)
              && a.status in rule.sources
              && r.value.appointment == a.(status := rule.target, room := r.value.appointment.room)
    ensures r.Ok? ==>
              && r.value.store.patients == s.patients
              && r.value.store.rooms == s.rooms
              && r.value.store.appointments == s.appointments[req.appointmentId := r.value.appointment]
              && r.value.store.events == s.events + [r.value.event]
              && r.value.store.nextEventId == s.nextEventId + 1
              && |r.value.store.audit| == |s.audit| + 1
              && r.value.store.audit[..|s.audit|] == s.audit
    ensures r.Ok? ==>
              var a := s.appointments[req.appointmentId];
              r.value.event == Event(s.nextEventId, req.appointmentId, EventTypeOf(ParseAction(req.action).value),
                                     a.status, r.value.appointment.status, r.value.appointment.room,
                                     Some(req.user.id), clock.now)
    ensures r.Ok? ==>
              var entry := r.value.store.audit[|s.audit|];
              && entry.user == Some(req.user.id) && entry.action == LogCodeOf(ParseAction(req.action).value)
              && entry.targetType == "appointment" && entry.targetId == Some(req.appointmentId as int)
              && entry.ipAddress == None
  {
    match ParseAction(req.action)
    case None => Err(ValidationError(MSG_UNKNOWN_ACTION))
    case Some(action) =>
      var rule := RuleOf(action);
      if !MayPerform(req.user, action) then Err(PermissionDenied(MSG_NO_PERMISSION))
      else if req.appointmentId !in s.appointments then Err(NotFound)
      else
        var a := s.appointments[req.appointmentId];
        if req.enforceCapacity && action.CapacityGated() && DoctorIsBusy(s.appointments, clock.today, a.id) then
          Err(ValidationError(MSG_DOCTOR_BUSY))
        else if a.status !in rule.sources then Err(ValidationError(MSG_WRONG_STATE))
        else match RoomStep(s.rooms, action, a.room, req.roomId)
          case Err(f) => Err(f)
          case Ok(room) =>
            if action == RoomAccept && room.None? then Err(ValidationError(MSG_NO_ROOM))
            else
              var updated := a.(status := rule.target, room := room);
              var event := Event(s.nextEventId, a.id, EventTypeOf(action), a.status, rule.target, room,
                                 Some(req.user.id), clock.now);
              var destination := if rule.requiresRoom then Some(s.rooms[room.value]) else None;
              var holding := if room.Some? then Some(s.rooms[room.value]) else None;
              var name := s.patients[a.patientId].fullName;
              PermissionByRole(req.user, action);
              var entry := LogAction(ByUser(Some(req.user)), LogCodeOf(action), "appointment", Some(a.id as int),
                                     ActionDescription(action, name, destination, holding));
              var store := s.(appointments := s.appointments[a.id := updated],
                              events := s.events + [event],
                              nextEventId := s.nextEventId + 1,
                              audit := s.audit + [entry]);
              Ok(Success(store, updated, event))
  }

  /** The store after a request: the new store on success, the old one
      untouched on any failure (the transaction rolls back). */
  function Apply(s: Store, req: Request, clock: Clock): (t: Store)
    requires WellFormed(s)
    ensures Transition(s, req, clock).Err? ==> t == s
    ensures Transition(s, req, clock).Ok? ==> |t.events| == |s.events| + 1
  {
    match Transition(s, req, clock)
    case Ok(o) => o.store
    case Err(_) => s
  }
}
