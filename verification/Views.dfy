/** The decision logic of the appointment views (`apps/appointments/views.py`):
    the day's selection and the active-room listing every page starts from, the
    three dashboard feeds, the reset `appointment_new` applies to a new
    appointment, how `_transition_and_redirect` turns an engine outcome into a
    flash message and a redirect, and the JSON rows of the today API. Template
    rendering and the HTTP plumbing are not modelled. */
module Views {
  import opened Base
  import opened Ordering
  import opened AccountModels
  import opened AppointmentModels
  import AuditLog
  import opened Permissions
  import opened Workflow
  import opened WorkflowProps

  /** The appointments scheduled on `today`, as a set of rows. */
  ghost function TodaySet(appts: map<nat, Appointment>, today: int): set<Appointment> {
    set k | k in appts && appts[k].scheduledAt.day == today :: appts[k]
  }

  /** The rows of `today` among the keys in `done`. */
  ghost function TodayAmong(appts: map<nat, Appointment>, done: set<nat>, today: int): set<Appointment> {
    set j | j in done && j in appts && appts[j].scheduledAt.day == today :: appts[j]
  }

  /** Adding one more key to the keys already looked at adds its row to the
      selection exactly when it is scheduled on `today`. */
  lemma TodaySetStep(appts: map<nat, Appointment>, done: set<nat>, k: nat, today: int)
    requires k in appts && k !in done
    requires forall j :: j in appts ==> appts[j].id == j
    ensures multiset(TodayAmong(appts, done + {k}, today)) ==
              multiset(TodayAmong(appts, done, today)) + (if appts[k].scheduledAt.day == today then multiset{appts[k]} else multiset{})
  {
    var before := TodayAmong(appts, done, today);
    var after := TodayAmong(appts, done + {k}, today);
    assert appts[k] !in before;
    if appts[k].scheduledAt.day == today {
      assert after == before + {appts[k]};
    } else {
      assert after == before;
    }
  }

  /** `_today_queryset()`: every appointment of `today` exactly once, ordered by
      scheduled time and then id. */
  method TodaySelection(appts: map<nat, Appointment>, today: int) returns (r: seq<Appointment>)
    requires forall k :: k in appts ==> appts[k].id == k
    ensures SortedBy(AppointmentLe, r)
    ensures multiset(r) == multiset(TodaySet(appts, today))
  {
    AppointmentOrderIsTotal();
    var keys := appts.Keys;
    ghost var done: set<nat> := {};
    r := [];
    while keys != {}
      invariant keys + done == appts.Keys && keys !! done
      invariant SortedBy(AppointmentLe, r)
      invariant multiset(r) == multiset(TodayAmong(appts, done, today))
      decreases |keys|
    {
      var k :| k in keys;
      TodaySetStep(appts, done, k, today);
      if appts[k].scheduledAt.day == today {
        r := Insert(AppointmentLe, appts[k], r);
      }
      keys := keys - {k};
      done := done + {k};
    }
    assert TodayAmong(appts, done, today) == TodaySet(appts, today);
  }

  /** The rows of a selection are exactly the day's appointments. */
  lemma TodaySelectionContents(appts: map<nat, Appointment>, today: int, r: seq<Appointment>)
    requires multiset(r) == multiset(TodaySet(appts, today))
    ensures forall a :: a in r <==> a in appts.Values && a.scheduledAt.day == today
    ensures forall a :: multiset(r)[a] <= 1
  {
    forall a
      ensures a in r <==> a in appts.Values && a.scheduledAt.day == today
    {
      assert a in r <==> a in multiset(r);
    }
  }

  /** The active rooms, as a set of rows. */
  ghost function ActiveRooms(rooms: map<nat, Room>): set<Room> {
    set k | k in rooms && rooms[k].isActive :: rooms[k]
  }

  /** The active rooms among the keys in `done`. */
  ghost function ActiveAmong(rooms: map<nat, Room>, done: set<nat>): set<Room> {
    set j | j in done && j in rooms && rooms[j].isActive :: rooms[j]
  }

  /** The room counterpart of `TodaySetStep`. */
  lemma RoomSetStep(rooms: map<nat, Room>, done: set<nat>, k: nat)
    requires k in rooms && k !in done
    requires forall j :: j in rooms ==> rooms[j].id == j
    ensures multiset(ActiveAmong(rooms, done + {k})) ==
              multiset(ActiveAmong(rooms, done)) + (if rooms[k].isActive then multiset{rooms[k]} else multiset{})
  {
    var before := ActiveAmong(rooms, done);
    var after := ActiveAmong(rooms, done + {k});
    assert rooms[k] !in before;
    if rooms[k].isActive {
      assert after == before + {rooms[k]};
    } else {
      assert after == before;
    }
  }

  /** `_rooms_queryset()`: every active room exactly once, in room order. */
  method RoomsSelection(rooms: map<nat, Room>) returns (r: seq<Room>)
    requires forall k :: k in rooms ==> rooms[k].id == k
    ensures SortedBy(RoomLe, r)
    ensures multiset(r) == multiset(ActiveRooms(rooms))
  {
    RoomOrderIsTotalPreorder();
    var keys := rooms.Keys;
    ghost var done: set<nat> := {};
    r := [];
    while keys != {}
      invariant keys + done == rooms.Keys && keys !! done
      invariant SortedBy(RoomLe, r)
      invariant multiset(r) == multiset(ActiveAmong(rooms, done))
      decreases |keys|
    {
      var k :| k in keys;
      RoomSetStep(rooms, done, k);
      if rooms[k].isActive {
        r := Insert(RoomLe, rooms[k], r);
      }
      keys := keys - {k};
      done := done + {k};
    }
    assert ActiveAmong(rooms, done) == ActiveRooms(rooms);
  }

  /** The room selection is the active-room listing the permission helpers
      and the navigation bar are given. */
  lemma RoomsSelectionIsListing(rooms: map<nat, Room>, r: seq<Room>)
    requires SortedBy(RoomLe, r) && multiset(r) == multiset(ActiveRooms(rooms))
    ensures ActiveRoomListing(rooms, r)
  {
    forall x
      ensures x in r <==> x in rooms.Values && x.isActive
    {
      assert x in r <==> x in multiset(r);
    }
    forall x
      ensures multiset(r)[x] <= 1
    {
    }
    NoRepeats(r);
  }

  /** `frontdesk_feed`: the day's appointments that are neither completed nor
      cancelled, in the day's order. */
  function FrontdeskFeed(todays: seq<Appointment>): (r: seq<Appointment>)
    ensures forall a :: a in r <==> a in todays && a.status != Completed && a.status != Cancelled
    ensures forall a :: multiset(r)[a] == (if a.status != Completed && a.status != Cancelled then multiset(todays)[a] else 0)
    ensures SortedBy(AppointmentLe, todays) ==> SortedBy(AppointmentLe, r)
  {
    var p := (a: Appointment) => a.status != Completed && a.status != Cancelled;
    FilterKeepsOrder(AppointmentLe, p, todays);
    Filter(p, todays)
  }

  /** `doctor_feed`: who waits for the doctor, and who is with the doctor. */
  datatype DoctorPage = DoctorPage(waitingDoctor: seq<Appointment>, withDoctor: seq<Appointment>)

  function DoctorFeed(todays: seq<Appointment>): (page: DoctorPage)
    ensures forall a :: a in page.waitingDoctor <==> a in todays && a.status == WaitingDoctor
    ensures forall a :: a in page.withDoctor <==> a in todays && a.status == WithDoctor
    ensures forall a :: multiset(page.waitingDoctor)[a] == (if a.status == WaitingDoctor then multiset(todays)[a] else 0)
    ensures forall a :: multiset(page.withDoctor)[a] == (if a.status == WithDoctor then multiset(todays)[a] else 0)
    ensures SortedBy(AppointmentLe, todays) ==>
              SortedBy(AppointmentLe, page.waitingDoctor) && SortedBy(AppointmentLe, page.withDoctor)
  {
    var waiting := (a: Appointment) => a.status == WaitingDoctor;
    var busy := (a: Appointment) => a.status == WithDoctor;
    FilterKeepsOrder(AppointmentLe, waiting, todays);
    FilterKeepsOrder(AppointmentLe, busy, todays);
    DoctorPage(Filter(waiting, todays), Filter(busy, todays))
  }

  /** The two doctor lists never share an appointment; and while the
      single-doctor invariant holds, the with-doctor list has at most one row. */
  lemma DoctorFeedShape(appts: map<nat, Appointment>, today: int, todays: seq<Appointment>)
    requires multiset(todays) == multiset(TodaySet(appts, today))
    requires SingleDoctorToday(appts, today)
    ensures forall a :: !(a in DoctorFeed(todays).waitingDoctor && a in DoctorFeed(todays).withDoctor)
    ensures |DoctorFeed(todays).withDoctor| <= 1
  {
    var w := DoctorFeed(todays).withDoctor;
    TodaySelectionContents(appts, today, todays);
    if |w| > 0 {
      var v := w[0];
      assert v in w;
      forall i | 0 <= i < |w|
        ensures w[i] == v
      {
        assert w[i] in w;
        var ki :| ki in appts && appts[ki] == w[i];
        var kv :| kv in appts && appts[kv] == v;
        assert WithDoctorOn(appts[ki], today) && WithDoctorOn(appts[kv], today);
      }
      CountOfConstant(w, v);
      assert multiset(w)[v] <= multiset(todays)[v];
    }
  }

  /** `room_feed`: the room, its two queues, every active room, and the active
      rooms other than this one. */
  datatype RoomPage = RoomPage(
    room: Room,
    waitingRoom: seq<Appointment>,
    inRoom: seq<Appointment>,
    rooms: seq<Room>,
    otherRooms: seq<Room>)

  /** `get_object_or_404(CareRoom, code=..., is_active=True)` over the active
      listing: the first active room with that code. */
  function FindActiveRoom(activeRooms: seq<Room>, code: string): (r: Option<Room>)
    ensures r.Some? ==> r.value in activeRooms && r.value.code == code
    ensures r.None? ==> forall x :: x in activeRooms ==> x.code != code
  {
    if activeRooms == [] then None
    else if activeRooms[0].code == code then Some(activeRooms[0])
    else FindActiveRoom(activeRooms[1..], code)
  }

  /** With unique room codes, the room a code finds is the one active room
      holding that code. */
  lemma FindActiveRoomUnique(rooms: map<nat, Room>, activeRooms: seq<Room>, code: string)
    requires ActiveRoomListing(rooms, activeRooms) && UniqueRoomCodes(rooms)
    requires forall k :: k in rooms ==> rooms[k].id == k
    ensures FindActiveRoom(activeRooms, code).Some? <==> exists k :: k in rooms && rooms[k].isActive && rooms[k].code == code
    ensures forall k :: k in rooms && rooms[k].isActive && rooms[k].code == code ==> FindActiveRoom(activeRooms, code) == Some(rooms[k])
  {
    forall k | k in rooms && rooms[k].isActive && rooms[k].code == code
      ensures FindActiveRoom(activeRooms, code) == Some(rooms[k])
    {
      assert rooms[k] in rooms.Values;
      var found := FindActiveRoom(activeRooms, code);
      assert found.Some?;
      var j :| j in rooms && rooms[j] == found.value;
    }
    if FindActiveRoom(activeRooms, code).Some? {
      var found := FindActiveRoom(activeRooms, code).value;
      var j :| j in rooms && rooms[j] == found;
    }
  }

  function RoomFeed(activeRooms: seq<Room>, todays: seq<Appointment>, code: string): (r: Result<RoomPage, Failure>)
    ensures r.Err? <==> FindActiveRoom(activeRooms, code).None?
    ensures r.Err? ==> r.error == NotFound
    ensures r.Ok? ==>
              var p := r.value;
              && p.room == FindActiveRoom(activeRooms, code).value
              && (forall a :: a in p.waitingRoom <==> a in todays && a.status == WaitingRoom && a.room == Some(p.room.id))
              && (forall a :: a in p.inRoom <==> a in todays && a.status == WithRoom && a.room == Some(p.room.id))
              && (forall a :: multiset(p.waitingRoom)[a] ==
                    (if a.status == WaitingRoom && a.room == Some(p.room.id) then multiset(todays)[a] else 0))
              && (forall a :: multiset(p.inRoom)[a] ==
                    (if a.status == WithRoom && a.room == Some(p.room.id) then multiset(todays)[a] else 0))
              && (SortedBy(AppointmentLe, todays) ==> SortedBy(AppointmentLe, p.waitingRoom) && SortedBy(AppointmentLe, p.inRoom))
              && p.rooms == activeRooms
              && (forall x :: x in p.otherRooms <==> x in activeRooms && x.id != p.room.id)
              && (forall x :: multiset(p.otherRooms)[x] == (if x.id != p.room.id then multiset(activeRooms)[x] else 0))
              && (SortedBy(RoomLe, activeRooms) ==> SortedBy(RoomLe, p.otherRooms))
  {
    match FindActiveRoom(activeRooms, code)
    case None => Err(NotFound)
    case Some(room) =>
      var others := (x: Room) => x.id != room.id;
      var waiting := (a: Appointment) => a.status == WaitingRoom && a.room == Some(room.id);
      var inside := (a: Appointment) => a.status == WithRoom && a.room == Some(room.id);
      FilterKeepsOrder(RoomLe, others, activeRooms);
      FilterKeepsOrder(AppointmentLe, waiting, todays);
      FilterKeepsOrder(AppointmentLe, inside, todays);
      Ok(RoomPage(room, Filter(waiting, todays), Filter(inside, todays), activeRooms, Filter(others, activeRooms)))
  }

  /** The page of a room never lists the room among the other rooms, and its
      two queues are disjoint. */
  lemma RoomFeedShape(activeRooms: seq<Room>, todays: seq<Appointment>, code: string)
    requires RoomFeed(activeRooms, todays, code).Ok?
    ensures var p := RoomFeed(activeRooms, todays, code).value;
            p.room !in p.otherRooms && p.room in activeRooms
            && forall a :: !(a in p.waitingRoom && a in p.inRoom)
  {
  }

  /** `appointment_new` on a valid form: the appointment is stored as planned
      with no room, whatever the form carried, and the creation is logged
      against the request. `when` is the formatted local time. */
  function AppointmentNew(s: Store, id: nat, patientId: nat, scheduledAt: Moment, duration: int, reason: Option<string>,
                          req: AuditLog.Request, when: string): (t: Store)
    requires id !in s.appointments && patientId in s.patients
    ensures id in t.appointments
    ensures t.appointments[id] == Appointment(id, patientId, scheduledAt, duration, reason, Planned, None)
    ensures t.appointments == s.appointments[id := t.appointments[id]]
    ensures t.patients == s.patients && t.rooms == s.rooms && t.events == s.events && t.nextEventId == s.nextEventId
    ensures |t.audit| == |s.audit| + 1 && t.audit[..|s.audit|] == s.audit
    ensures t.audit[|s.audit|].action == "created_appointment" && t.audit[|s.audit|].targetId == Some(id as int)
    ensures t.audit[|s.audit|].targetType == "appointment"
    ensures t.audit[|s.audit|].user == (if req.user.isAuthenticated then Some(req.user.id) else None)
    ensures t.audit[|s.audit|].ipAddress == AuditLog.ClientIp(req)
    ensures t.audit[|s.audit|].description == "Created appointment: " + s.patients[patientId].fullName + " at " + when
  {
    var created := NewAppointment(id, patientId, scheduledAt, reason).(durationMinutes := duration);
    var stored := created.(status := Planned, room := None);
    var entry := AuditLog.LogAction(AuditLog.ByRequest(req), "created_appointment", "appointment", Some(id as int),
                                    "Created appointment: " + s.patients[patientId].fullName + " at " + when);
    s.(appointments := s.appointments[id := stored], audit := s.audit + [entry])
  }

  /** Creating an appointment keeps every workflow invariant. */
  lemma AppointmentNewKeepsInvariant(s: Store, id: nat, patientId: nat, scheduledAt: Moment, duration: int,
                                     reason: Option<string>, req: AuditLog.Request, when: string, today: int)
    requires Invariant(s, today)
    requires id !in s.appointments && patientId in s.patients
    ensures Invariant(AppointmentNew(s, id, patientId, scheduledAt, duration, reason, req, when), today)
  {
    var t := AppointmentNew(s, id, patientId, scheduledAt, duration, reason, req, when);
    assert forall k :: k in t.appointments && k != id ==> t.appointments[k] == s.appointments[k];
  }

  /** The posted `room_id` field: missing, empty, or a number. */
  datatype PostedRoom = Missing | Empty | Number(n: nat)

  /** `request.POST.get("room_id") or None`. */
  function RoomIdOf(posted: PostedRoom): (r: Option<nat>)
    ensures r.Some? <==> posted.Number?
    ensures posted.Number? ==> r == Some(posted.n)
  {
    match posted
    case Number(n) => Some(n)
    case _ => None
  }

  /** Where the user is sent back to: the posted `next`, or the fallback page. */
  datatype Target = NextUrl(url: string) | Page(page: Url)

  datatype Flash = FlashSuccess(text: string) | FlashError(text: string)

  const MSG_NOT_FOUND: string := "Appointment not found."

  datatype Outcome = Outcome(store: Store, flash: Flash, target: Target)

  /** The error message a failure is shown as. */
  function FailureText(f: Failure): (text: string)
    ensures f.PermissionDenied? ==> text == f.message
    ensures f.ValidationError? ==> text == f.message
    ensures f.NotFound? ==> text == MSG_NOT_FOUND
  {
    match f
    case PermissionDenied(m) => m
    case ValidationError(m) => m
    case NotFound => MSG_NOT_FOUND
  }

  /** `_transition_and_redirect`: runs the engine with capacity enforced, flashes
      "<patient> -> <new status>" on success or the failure's message, and
      always redirects. */
  function TransitionAndRedirect(s: Store, pk: nat, action: string, user: User, posted: PostedRoom,
                                 next: string, fallback: Url, clock: Clock): (o: Outcome)
    requires WellFormed(s)
    ensures var req := Request(pk, action, user, RoomIdOf(posted), true);
            && o.store == Apply(s, req, clock)
            && (o.flash.FlashSuccess? <==> Transition(s, req, clock).Ok?)
            && (Transition(s, req, clock).Err? ==> o.flash == FlashError(FailureText(Transition(s, req, clock).error)))
    ensures o.target == (if next != "" then NextUrl(next) else Page(fallback))
  {
    var req := Request(pk, action, user, RoomIdOf(posted), true);
    var target := if next != "" then NextUrl(next) else Page(fallback);
    match Transition(s, req, clock)
    case Ok(done) =>
      var name := s.patients[done.appointment.patientId].fullName;
      Outcome(done.store, FlashSuccess(name + " -> " + done.appointment.status.Label()), target)
    case Err(f) => Outcome(s, FlashError(FailureText(f)), target)
  }

  /** A success message names the patient and the label of the status the
      action leads to. */
  lemma SuccessFlashNamesNewStatus(s: Store, pk: nat, action: string, user: User, posted: PostedRoom,
                                   next: string, fallback: Url, clock: Clock)
    requires WellFormed(s)
    requires TransitionAndRedirect(s, pk, action, user, posted, next, fallback, clock).flash.FlashSuccess?
    ensures ParseAction(action).Some? && pk in s.appointments
    ensures var text := TransitionAndRedirect(s, pk, action, user, posted, next, fallback, clock).flash.text;
            var statusLabel := RuleOf(ParseAction(action).value).target.Label();
            var name := s.patients[s.appointments[pk].patientId].fullName;
            text == name + " -> " + statusLabel
  {
  }

  /** A row of the today API. */
  datatype ApiRow = ApiRow(
    id: nat,
    patientId: nat,
    patientName: string,
    scheduledAt: Moment,
    durationMinutes: int,
    reason: Option<string>,
    status: string,
    statusLabel: string,
    room: Option<string>,
    roomName: Option<string>)

  /** `api_today_appointments`: one row per appointment of the day, in order;
      the room code and name are null exactly when no room is assigned. */
  function ApiToday(s: Store, todays: seq<Appointment>): (rows: seq<ApiRow>)
    requires forall a :: a in todays ==> a.patientId in s.patients && (a.room.Some? ==> a.room.value in s.rooms)
    ensures |rows| == |todays|
    ensures forall i :: 0 <= i < |rows| ==>
              && rows[i].id == todays[i].id && rows[i].patientId == todays[i].patientId
              && ParseStatus(rows[i].status) == Some(todays[i].status)
              && rows[i].statusLabel == todays[i].status.Label()
              && (rows[i].room.None? <==> todays[i].room.None?)
              && (rows[i].roomName.None? <==> todays[i].room.None?)
              && (todays[i].room.Some? ==>
                    rows[i].room == Some(s.rooms[todays[i].room.value].code)
                    && rows[i].roomName == Some(s.rooms[todays[i].room.value].name))
  {
    if todays == [] then []
    else
      var a := todays[0];
      StatusChoices();
      var room := if a.room.Some? then Some(s.rooms[a.room.value].code) else None;
      var roomName := if a.room.Some? then Some(s.rooms[a.room.value].name) else None;
      [ApiRow(a.id, a.patientId, s.patients[a.patientId].fullName, a.scheduledAt, a.durationMinutes, a.reason,
              a.status.Code(), a.status.Label(), room, roomName)] + ApiToday(s, todays[1..])
  }
}
