/** The records of the appointments app (`apps/appointments/models.py`): the
    seven visit statuses, the six journal event types, care rooms, appointments,
    journal events and their display orderings, and the store the workflow reads
    and writes. Wall-clock time is abstracted to a `Moment` (a day number and a
    time within the day). */
module AppointmentModels {
  import opened Base
  import opened Text
  import opened Ordering
  import opened AccountModels

  /** `Appointment.STATUS_CHOICES`. */
  datatype Status = Planned | WaitingDoctor | WithDoctor | WaitingRoom | WithRoom | Completed | Cancelled {

    /** The short code stored in the `status` column. */
    function Code(): string {
      match this
      case Planned => "PL"
      case WaitingDoctor => "WD"
      case WithDoctor => "MD"
      case WaitingRoom => "WR"
      case WithRoom => "MR"
      case Completed => "CM"
      case Cancelled => "CN"
    }

    /** The display label (`get_status_display()`). */
    function Label(): string {
      match this
      case Planned => "Planned"
      case WaitingDoctor => "Waiting for doctor"
      case WithDoctor => "With doctor"
      case WaitingRoom => "Waiting for room"
      case WithRoom => "In room"
      case Completed => "Completed"
      case Cancelled => "Cancelled"
    }
  }

  const ALL_STATUSES: seq<Status> :=
    [Planned, WaitingDoctor, WithDoctor, WaitingRoom, WithRoom, Completed, Cancelled]

  /** `max_length` of the status columns. */
  const STATUS_MAX_LENGTH: nat := 15

  /** The status a newly created appointment holds. */
  const DEFAULT_STATUS: Status := Planned

  const DEFAULT_DURATION_MINUTES: int := 15

  /** Reads a stored status code back; `None` for anything but the seven codes. */
  function ParseStatus(code: string): (r: Option<Status>)
    ensures r.Some? ==> r.value.Code() == code
    ensures r.None? ==> forall st: Status :: st.Code() != code
  {
    if code == "PL" then Some(Planned)
    else if code == "WD" then Some(WaitingDoctor)
    else if code == "MD" then Some(WithDoctor)
    else if code == "WR" then Some(WaitingRoom)
    else if code == "MR" then Some(WithRoom)
    else if code == "CM" then Some(Completed)
    else if code == "CN" then Some(Cancelled)
    else None
  }

  /** The seven status codes are pairwise distinct, fit the status column, and
      read back as the status they encode; the labels are pairwise distinct too. */
  lemma StatusChoices()
    ensures |ALL_STATUSES| == 7
    ensures forall st: Status :: st in ALL_STATUSES
    ensures forall st: Status :: ParseStatus(st.Code()) == Some(st)
    ensures forall st: Status :: 0 < |st.Code()| <= STATUS_MAX_LENGTH
    ensures forall a: Status, b: Status :: a.Code() == b.Code() ==> a == b
    ensures forall a: Status, b: Status :: a.Label() == b.Label() ==> a == b
  {
    forall st: Status
      ensures st in ALL_STATUSES && ParseStatus(st.Code()) == Some(st)
    {
      match st
      case Planned =>
      case WaitingDoctor =>
      case WithDoctor =>
      case WaitingRoom =>
      case WithRoom =>
      case Completed =>
      case Cancelled =>
    }
  }

  /** `AppointmentEvent.EVENT_CHOICES`. */
  datatype EventType = CheckedIn | DoctorAccepted | TransferredToRoom | RoomAccepted | RoomTransferred | CompletedVisit {

    function Code(): string {
      match this
      case CheckedIn => "checked_in"
      case DoctorAccepted => "doctor_accepted"
      case TransferredToRoom => "transferred_to_room"
      case RoomAccepted => "room_accepted"
      case RoomTransferred => "room_transferred"
      case CompletedVisit => "completed_appointment"
    }

    function Label(): string {
      match this
      case CheckedIn => "Checked in"
      case DoctorAccepted => "Doctor accepted"
      case TransferredToRoom => "Transferred to room"
      case RoomAccepted => "Room accepted"
      case RoomTransferred => "Transferred to another room"
      case CompletedVisit => "Completed"
    }
  }

  /** `max_length` of the `event_type` column. */
  const EVENT_TYPE_MAX_LENGTH: nat := 50

  /** The six event-type codes are pairwise distinct, fit their column, and each
      has its own label. */
  lemma EventTypeChoices()
    ensures forall a: EventType, b: EventType :: a.Code() == b.Code() ==> a == b
    ensures forall a: EventType, b: EventType :: a.Label() == b.Label() ==> a == b
    ensures forall e: EventType :: 0 < |e.Code()| <= EVENT_TYPE_MAX_LENGTH
  {
  }

  /** A point in local time: the calendar day and the time within that day. */
  datatype Moment = Moment(day: int, time: int)

  predicate MomentLe(a: Moment, b: Moment) {
    a.day < b.day || (a.day == b.day && a.time <= b.time)
  }

  /** A patient, reduced to what the workflow reads (`apps/patients/models.py`). */
  datatype Patient = Patient(id: nat, fullName: string)

  /** `CareRoom`: an ancillary destination such as the lab or the pharmacy. */
  datatype Room = Room(id: nat, code: string, name: string, sortOrder: nat, isActive: bool)

  /** `CareRoom.Meta.ordering`: by sort order, then by name. */
  predicate RoomLe(a: Room, b: Room) {
    a.sortOrder < b.sortOrder || (a.sortOrder == b.sortOrder && LexLe(a.name, b.name))
  }

  /** The room ordering is total and transitive, so rooms can be sorted by it;
      it ties only rooms with the same sort order and name. */
  lemma RoomOrderIsTotalPreorder()
    ensures TotalPreorder(RoomLe)
    ensures forall a, b :: RoomLe(a, b) && RoomLe(b, a) ==> a.sortOrder == b.sortOrder && a.name == b.name
  {
    forall a: Room, b: Room
      ensures RoomLe(a, b) || RoomLe(b, a)
    {
      LexLeTotal(a.name, b.name);
    }
    forall a: Room, b: Room, c: Room | RoomLe(a, b) && RoomLe(b, c)
      ensures RoomLe(a, c)
    {
      if a.sortOrder == b.sortOrder == c.sortOrder {
        LexLeTransitive(a.name, b.name, c.name);
      }
    }
    forall a: Room, b: Room | RoomLe(a, b) && RoomLe(b, a)
      ensures a.sortOrder == b.sortOrder && a.name == b.name
    {
      LexLeAntisymmetric(a.name, b.name);
    }
  }

  /** `Appointment`; `room` is the id of the assigned care room, if any. */
  datatype Appointment = Appointment(
    id: nat,
    patientId: nat,
    scheduledAt: Moment,
    durationMinutes: int,
    reason: Option<string>,
    status: Status,
    room: Option<nat>)

  /** A freshly created appointment: status and duration take their column
      defaults and no room is assigned. */
  function NewAppointment(id: nat, patientId: nat, scheduledAt: Moment, reason: Option<string>): (a: Appointment)
    ensures a.id == id && a.patientId == patientId && a.scheduledAt == scheduledAt && a.reason == reason
    ensures a.status == Planned && a.room == None
    ensures a.durationMinutes == 15
  {
    Appointment(id, patientId, scheduledAt, DEFAULT_DURATION_MINUTES, reason, DEFAULT_STATUS, None)
  }

  /** `Appointment.Meta.ordering`: by scheduled time, then by id. */
  predicate AppointmentLe(a: Appointment, b: Appointment) {
    MomentLe(a.scheduledAt, b.scheduledAt) && (a.scheduledAt == b.scheduledAt ==> a.id <= b.id)
  }

  /** The appointment ordering is total and transitive, and two appointments it
      ranks equal share their time and id. */
  lemma AppointmentOrderIsTotal()
    ensures TotalPreorder(AppointmentLe)
    ensures forall a, b :: AppointmentLe(a, b) && AppointmentLe(b, a) ==> a.scheduledAt == b.scheduledAt && a.id == b.id
  {
  }

  /** `AppointmentEvent`: one immutable journal entry. */
  datatype Event = Event(
    id: nat,
    appointmentId: nat,
    eventType: EventType,
    fromStatus: Status,
    toStatus: Status,
    room: Option<nat>,
    performedBy: Option<nat>,
    createdAt: Moment)

  /** `AppointmentEvent.Meta.ordering`: newest first, by creation time, then id. */
  predicate EventNewerFirst(a: Event, b: Event) {
    MomentLe(b.createdAt, a.createdAt) && (a.createdAt == b.createdAt ==> b.id <= a.id)
  }

  lemma EventOrderIsTotal()
    ensures TotalPreorder(EventNewerFirst)
  {
  }

  /** The tables the workflow reads and writes: patients, care rooms and
      appointments by primary key, the event journal and the activity log in
      insertion order, and the journal's id sequence (the id the next inserted
      event receives; ids are never reused, so deleted events leave gaps). */
  datatype Store = Store(
    patients: map<nat, Patient>,
    rooms: map<nat, Room>,
    appointments: map<nat, Appointment>,
    events: seq<Event>,
    audit: seq<LogEntry>,
    nextEventId: nat)

  /** The room with primary key `id`, if it exists and is active. */
  predicate IsActiveRoom(rooms: map<nat, Room>, id: nat) {
    id in rooms && rooms[id].isActive
  }

  /** `xs` is the result of the active-rooms query: every active room exactly
      once, in room order. */
  ghost predicate ActiveRoomListing(rooms: map<nat, Room>, xs: seq<Room>) {
    && SortedBy(RoomLe, xs)
    && (forall r :: r in xs <==> r in rooms.Values && r.isActive)
    && (forall i, j :: 0 <= i < j < |xs| ==> xs[i] != xs[j])
  }

  predicate UniqueRoomCodes(rooms: map<nat, Room>) {
    forall i, j :: i in rooms && j in rooms && rooms[i].code == rooms[j].code ==> i == j
  }

  /** What the database itself guarantees: primary keys match the rows' ids,
      foreign keys point at existing rows, room codes are unique, and the
      journal, in insertion order, holds strictly increasing ids all below the
      next id of its sequence. */
  predicate WellFormed(s: Store) {
    && (forall k :: k in s.patients ==> s.patients[k].id == k)
    && (forall k :: k in s.rooms ==> s.rooms[k].id == k)
    && UniqueRoomCodes(s.rooms)
    && (forall k :: k in s.appointments ==> s.appointments[k].id == k)
    && (forall k :: k in s.appointments ==> s.appointments[k].patientId in s.patients)
    && (forall k :: k in s.appointments && s.appointments[k].room.Some? ==> s.appointments[k].room.value in s.rooms)
    && (forall i, j :: 0 <= i < j < |s.events| ==> s.events[i].id < s.events[j].id)
    && (forall i :: 0 <= i < |s.events| ==> s.events[i].id < s.nextEventId)
  }

  /** `appointment.events`: the journal entries of one appointment, each once
      as it is stored, newest first. */
  function EventsOf(s: Store, appointmentId: nat): (r: seq<Event>)
    ensures SortedBy(EventNewerFirst, r)
    ensures forall e :: e in r <==> e in s.events && e.appointmentId == appointmentId
    ensures forall e :: multiset(r)[e] == (if e.appointmentId == appointmentId then multiset(s.events)[e] else 0)
  {
    EventOrderIsTotal();
    var mine := Filter((e: Event) => e.appointmentId == appointmentId, s.events);
    SortKeepsMembers(EventNewerFirst, mine);
    Sort(EventNewerFirst, mine)
  }
}
