/** The workflow test cases of `apps/appointments/tests.py`, stated about the
    model: one receptionist, one doctor, one nurse, the lab and the pharmacy,
    and one or two of today's appointments. */
module Scenarios {
  import opened Base
  import opened AccountModels
  import opened AppointmentModels
  import opened Workflow
  import opened WorkflowProps

  const RECEPTIONIST: User := User(1, "reception", "", "", true, false, false, Some(Profile("receptionist", "")))
  const DOCTOR: User := User(2, "doctor", "", "", true, false, false, Some(Profile("doctor", "")))
  const NURSE: User := User(3, "nurse", "", "", true, false, false, Some(Profile("nurse", "")))

  const LAB: Room := Room(1, "LAB", "Lab", 1, true)
  const PHARMACY: Room := Room(2, "PHARM", "Pharmacy", 2, true)

  const TODAY: int := 0
  const CLOCK: Clock := Clock(TODAY, Moment(TODAY, 600))

  /** The test fixture: one patient with a planned appointment (id 1) an hour
      from now, the lab and the pharmacy, and empty journals. */
  function Clinic(): (s: Store)
    ensures At(s, Planned, None)
  {
    Store(map[1 := Patient(1, "Test Patient")], ROOMS, map[1 := FIRST], [], [], 1)
  }

  function Req(id: nat, action: string, user: User, room: Option<nat>): Request {
    Request(id, action, user, room, true)
  }

  /** The requests of the full flow test. */
  const FLOW: seq<Request> := [
    Req(1, "check_in", RECEPTIONIST, None),
    Req(1, "doctor_accept", DOCTOR, None),
    Req(1, "transfer_to_room", DOCTOR, Some(1)),
    Req(1, "room_accept", NURSE, None),
    Req(1, "complete", NURSE, None)]

  /** The flow applied to the fixture itself. */
  lemma FixtureFlow()
    ensures var s := Replay(Clinic(), FLOW, CLOCK);
            1 in s.appointments && s.appointments[1].status == Completed && |s.events| == 5
  {
    FullDoctorAndRoomFlow(Clinic());
  }

  const ROOMS: map<nat, Room> := map[1 := LAB, 2 := PHARMACY]
  const FIRST: Appointment := Appointment(1, 1, Moment(TODAY, 660), 15, None, Planned, None)

  /** The clinic with appointment 1 as its only appointment, in `status` and
      `room`. */
  predicate At(s: Store, status: Status, room: Option<nat>) {
    WellFormed(s) && s.rooms == ROOMS && s.appointments == map[1 := FIRST.(status := status, room := room)]
  }

  /** One admissible step of the flow, from one `At` state to the next. */
  lemma FlowStep(s: Store, req: Request, status: Status, room: Option<nat>, status': Status, room': Option<nat>)
    requires At(s, status, room) && Admissible(s, req, CLOCK) && req.appointmentId == 1
    requires var action := ParseAction(req.action).value;
             status' == RuleOf(action).target
             && room' == (if RuleOf(action).requiresRoom then req.roomId else if action.CapacityGated() then None else room)
    ensures At(Apply(s, req, CLOCK), status', room')
    ensures |Apply(s, req, CLOCK).events| == |s.events| + 1
  {
    AdmissibleEffect(s, req, CLOCK);
    var a := s.appointments[1];
    var a' := a.(status := status', room := room');
    assert a' == FIRST.(status := status', room := room');
    SingleAppointmentUpdate(s.appointments, a, a');
  }

  lemma SingleAppointmentUpdate(m: map<nat, Appointment>, a: Appointment, a': Appointment)
    requires m == map[1 := a]
    ensures m[1 := a'] == map[1 := a']
  {
  }

  lemma CheckInStep(s: Store)
    requires At(s, Planned, None)
    ensures At(Apply(s, FLOW[0], CLOCK), WaitingDoctor, None) && |Apply(s, FLOW[0], CLOCK).events| == |s.events| + 1
  {
    assert !DoctorIsBusy(s.appointments, TODAY, 1);
    FlowStep(s, FLOW[0], Planned, None, WaitingDoctor, None);
  }

  lemma DoctorAcceptStep(s: Store)
    requires At(s, WaitingDoctor, None)
    ensures At(Apply(s, FLOW[1], CLOCK), WithDoctor, None) && |Apply(s, FLOW[1], CLOCK).events| == |s.events| + 1
  {
    assert !DoctorIsBusy(s.appointments, TODAY, 1);
    FlowStep(s, FLOW[1], WaitingDoctor, None, WithDoctor, None);
  }

  lemma TransferToLabStep(s: Store)
    requires At(s, WithDoctor, None)
    ensures At(Apply(s, FLOW[2], CLOCK), WaitingRoom, Some(1)) && |Apply(s, FLOW[2], CLOCK).events| == |s.events| + 1
  {
    FlowStep(s, FLOW[2], WithDoctor, None, WaitingRoom, Some(1));
  }

  lemma RoomAcceptStep(s: Store)
    requires At(s, WaitingRoom, Some(1))
    ensures At(Apply(s, FLOW[3], CLOCK), WithRoom, Some(1)) && |Apply(s, FLOW[3], CLOCK).events| == |s.events| + 1
  {
    assert ParseAction(FLOW[3].action) == Some(RoomAccept);
    FlowStep(s, FLOW[3], WaitingRoom, Some(1), WithRoom, Some(1));
  }

  lemma CompleteStep(s: Store)
    requires At(s, WithRoom, Some(1))
    ensures At(Apply(s, FLOW[4], CLOCK), Completed, Some(1)) && |Apply(s, FLOW[4], CLOCK).events| == |s.events| + 1
  {
    assert ParseAction(FLOW[4].action) == Some(Complete);
    FlowStep(s, FLOW[4], WithRoom, Some(1), Completed, Some(1));
  }

  /** The status and room of appointment 1 before each request of `FLOW`, and
      after the last one. */
  const STAGE_STATUS: seq<Status> := [Planned, WaitingDoctor, WithDoctor, WaitingRoom, WithRoom, Completed]
  const STAGE_ROOM: seq<Option<nat>> := [None, None, None, Some(1), Some(1), Some(1)]

  /** Request `k` of the flow moves the appointment from stage `k` to stage `k + 1`. */
  lemma Stage(s: Store, k: nat)
    requires k < |FLOW| && At(s, STAGE_STATUS[k], STAGE_ROOM[k])
    ensures At(Apply(s, FLOW[k], CLOCK), STAGE_STATUS[k + 1], STAGE_ROOM[k + 1])
    ensures |Apply(s, FLOW[k], CLOCK).events| == |s.events| + 1
  {
    if k == 0 {
      CheckInStep(s);
    } else if k == 1 {
      DoctorAcceptStep(s);
    } else if k == 2 {
      TransferToLabStep(s);
    } else if k == 3 {
      RoomAcceptStep(s);
    } else {
      CompleteStep(s);
    }
  }

  /** The rest of the flow, from stage `k`, ends completed in the lab with one
      journal entry per remaining request. */
  lemma {:induction false} FlowFrom(s: Store, k: nat)
    requires k <= |FLOW| && At(s, STAGE_STATUS[k], STAGE_ROOM[k])
    ensures var t := Replay(s, FLOW[k..], CLOCK);
            At(t, Completed, Some(1)) && |t.events| == |s.events| + |FLOW| - k
    decreases |FLOW| - k
  {
    if k == |FLOW| {
      assert FLOW[k..] == [];
    } else {
      Stage(s, k);
      ReplayUnfold(s, FLOW[k..]);
      assert FLOW[k..][1..] == FLOW[k + 1..];
      FlowFrom(Apply(s, FLOW[k], CLOCK), k + 1);
    }
  }

  /** Check-in, doctor accept, transfer to the lab, room accept and complete
      take a planned appointment to completed, in the lab, with five new
      journal entries. */
  lemma FullDoctorAndRoomFlow(s0: Store)
    requires At(s0, Planned, None)
    ensures var s := Replay(s0, FLOW, CLOCK);
            1 in s.appointments && s.appointments[1].status == Completed && s.appointments[1].room == Some(1)
            && |s.events| == |s0.events| + 5
  {
    FlowFrom(s0, 0);
    assert FLOW[0..] == FLOW;
  }

  lemma ReplayUnfold(s: Store, reqs: seq<Request>)
    requires WellFormed(s) && reqs != []
    ensures WellFormed(Apply(s, reqs[0], CLOCK))
    ensures Replay(s, reqs, CLOCK) == Replay(Apply(s, reqs[0], CLOCK), reqs[1..], CLOCK)
  {
    TransitionKeepsWellFormed(s, reqs[0], CLOCK);
  }

  /** A receptionist cannot accept a checked-in patient for the doctor. */
  lemma ReceptionistCannotDoctorAccept(s: Store)
    requires WellFormed(s)
    ensures Transition(s, Req(1, "doctor_accept", RECEPTIONIST, None), CLOCK) == Err(PermissionDenied(MSG_NO_PERMISSION))
  {
  }

  /** While one of today's patients is with the doctor, a second appointment
      can be neither checked in nor accepted, and it keeps its status. */
  lemma SecondPatientBlockedWhileBusy(s: Store, action: string)
    requires WellFormed(s)
    requires 1 in s.appointments && WithDoctorOn(s.appointments[1], TODAY)
    requires 2 in s.appointments && action in {"check_in", "doctor_accept"}
    ensures Transition(s, Req(2, action, if action == "check_in" then RECEPTIONIST else DOCTOR, None), CLOCK)
            == Err(ValidationError(MSG_DOCTOR_BUSY))
    ensures Apply(s, Req(2, action, if action == "check_in" then RECEPTIONIST else DOCTOR, None), CLOCK).appointments[2]
            == s.appointments[2]
  {
    var req := Req(2, action, if action == "check_in" then RECEPTIONIST else DOCTOR, None);
    CapacityCheckedBeforeStatus(s, req, CLOCK, 1);
  }

  /** A room transfer to the room the patient is already in is refused; one
      to the pharmacy moves the patient there, waiting. */
  lemma RoomTransferMustChangeDestination(s: Store)
    requires At(s, WithRoom, Some(1))
    ensures Transition(s, Req(1, "room_transfer", NURSE, Some(1)), CLOCK) == Err(ValidationError(MSG_SAME_ROOM))
    ensures At(Apply(s, Req(1, "room_transfer", NURSE, Some(2)), CLOCK), WaitingRoom, Some(2))
  {
    assert ParseAction("room_transfer") == Some(RoomTransfer);
    RoomErrors(s, Req(1, "room_transfer", NURSE, Some(1)), CLOCK);
    FlowStep(s, Req(1, "room_transfer", NURSE, Some(2)), WithRoom, Some(1), WaitingRoom, Some(2));
  }
}
