# Clinic appointment workflow — a Dafny model

This project models the clinic's appointment workflow and proves properties about it. A patient's visit moves through front-desk check-in, the doctor, an ancillary care room such as the lab or the pharmacy, and completion.

At its centre is the workflow engine, `transition_appointment`. It is a table-driven state machine:

1. It takes one of six actions on one appointment.
2. It checks the actor's resolved role.
3. It checks the single-doctor capacity of the current day.
4. It checks the appointment's current status.
5. For transfers, it checks that the destination is an active room.
6. On success, it rewrites the status and the room together, appends one journal event and writes one activity-log entry.

Around the engine the model covers:
- the status, event-type and care-room vocabulary and the database orderings;
- role resolution, the role-based home page, the `role_required` guard and the navigation context;
- the day's selections behind the front-desk, doctor and room feeds, and the reset `appointment_new` applies to a new appointment;
- how `_transition_and_redirect` turns an engine outcome into a flash message and a redirect;
- the rows of the today API;
- the audit-log helpers: client IP, actor resolution, default descriptions;
- avatar initials and the activity-log icon and colour lookups;
- the patient form's phone and name validators;
- the data migration that rewrites legacy status codes.

The database is a `Store`: maps from primary key to patient, care room and appointment, the event journal and the activity log as sequences, and the journal's id sequence (the id the next event receives). `WellFormed` states what the database itself guarantees:
- keys match ids;
- foreign keys resolve;
- room codes are unique;
- journal ids increase in insertion order and stay below the sequence's next id. Ids are never reused, so events deleted along with their appointment (`on_delete=CASCADE`) leave gaps.

A transaction is an atomic pure function from a store to a new store or an error (`Workflow.Transition`, `Workflow.Apply`). `ORDER BY` is an insertion sort under the model's ordering predicate, and `WHERE` is a filter (module `Ordering`). `timezone.localdate()` and `timezone.now()` are a `Clock` parameter. A time is a `Moment` of a day number and a time within the day.

Modules follow the source files:

| module | source |
|---|---|
| `AppointmentModels` | `apps/appointments/models.py` |
| `AccountModels` | `apps/accounts/models.py` |
| `Permissions` | `apps/accounts/permissions.py` |
| `Navigation` | `apps/accounts/context_processors.py` |
| `AuditLog` | `apps/accounts/utils.py` |
| `Workflow`, `WorkflowProps` | `apps/appointments/workflow.py` |
| `Views` | `apps/appointments/views.py` |
| `PatientForms` | `apps/patients/forms.py` |
| `LegacyStatuses` | `apps/appointments/migrations/0006_normalize_legacy_statuses.py` |
| `Scenarios` | the workflow cases of `apps/appointments/tests.py` |
| `Base`, `Text`, `Ordering` | `Option`/`Result`, the Python string methods used, sorting and filtering |

The status column is the `Status` datatype, so "status is always one of the seven codes" holds by construction. The migration is the one place that reads raw text, because legacy rows hold other codes. Its reverse step is `RunPython.noop`, which leaves the table as it is, so migrating back brings no legacy code back.

`complete` keeps the assigned room (`apps/appointments/workflow.py:176-184`), so only "waiting for room or in room implies a room", `WorkflowProps.RoomRule`, is an invariant.

## Model

| member | source | states |
|---|---|---|
| AppointmentModels.ParseStatus | apps/appointments/models.py:23-29 | a stored code reads back as the status carrying that code, and as nothing exactly when no status has it |
| AppointmentModels.StatusChoices | apps/appointments/models.py:23-47 | there are seven statuses; their codes are pairwise distinct, non-empty, fit the 15-character column and read back to the same status; the display labels are pairwise distinct too |
| AppointmentModels.EventTypeChoices | apps/appointments/models.py:65-86 | the six event-type codes are pairwise distinct, fit the 50-character column, and each has its own label |
| AppointmentModels.RoomOrderIsTotalPreorder | apps/appointments/models.py:15-16 | ordering rooms by (sort order, name) is total and transitive, so the active rooms can be sorted by it, and it ties only rooms with the same sort order and name |
| AppointmentModels.NewAppointment | apps/appointments/models.py:41-54 | a new appointment keeps the given patient, time and reason, starts planned with no room, and lasts 15 minutes |
| AppointmentModels.AppointmentOrderIsTotal | apps/appointments/models.py:57-58 | ordering by (scheduled time, id) is total and transitive, and it ties only appointments with the same time and id |
| AppointmentModels.EventOrderIsTotal | apps/appointments/models.py:105-106 | the newest-first event ordering by (creation time, id) is total and transitive |
| AppointmentModels.EventsOf | apps/appointments/models.py:81-106 | an appointment's journal holds exactly that appointment's events, each as often as it is stored, newest first |
| AccountModels.ParseRole | apps/accounts/models.py:75-80 | a stored role code reads back as the role with that code, and as nothing exactly when no role has it |
| AccountModels.RoleChoices | apps/accounts/models.py:75-83 | there are exactly four roles with distinct codes, each read back correctly, and the default role is "receptionist" |
| AccountModels.InitialsSource | apps/accounts/models.py:101 | initials come from the full name when it is non-empty, else from the username |
| AccountModels.SaveProfile | apps/accounts/models.py:98-107 | saving keeps the role; non-empty initials are never overwritten; blank initials are derived from the initials source |
| AccountModels.InitialsShape | apps/accounts/models.py:102-106 | derived initials have at most two characters and no lower-case ASCII letter, so they fit the two-character field |
| AccountModels.FirstInitialIsFirstLetter | apps/accounts/models.py:102-104 | for a name of two or more words, the first initial is the upper-cased first non-blank character of the name |
| AccountModels.SecondInitialIsLastWordStart | apps/accounts/models.py:102-104 | for a name of two or more words, the second initial is the upper-cased first character of the last word: the start of the last non-blank run, which follows a blank and after which no blank is followed by a non-blank |
| AccountModels.ActionIcon | apps/accounts/models.py:41-54 | each known action has its icon, and the fallback icon is shown exactly for unknown actions |
| AccountModels.ActionColor | apps/accounts/models.py:56-69 | each known action has its colour; the result is gray exactly for unknown actions and for "logout"; every result is one of the seven colours the table uses |
| AuditLog.ClientIp | apps/accounts/utils.py:4-9 | with a non-empty X-Forwarded-For header, the client IP is its first comma-separated entry, stripped; otherwise it is REMOTE_ADDR, or nothing when that is absent |
| AuditLog.FirstEntryIsTrimmedSlice | apps/accounts/utils.py:6-8 | the forwarded client IP is a contiguous slice of the header, and every comma of the header lies at or after the end of the first entry, which is at or after the end of the slice |
| AuditLog.FirstEntryHasNoBlankEnds | apps/accounts/utils.py:6-8 | the forwarded client IP neither starts nor ends with whitespace |
| AuditLog.LogAction | apps/accounts/utils.py:12-43 | action, target type, target id and description are stored as passed; through a request, the user is recorded only when authenticated and the IP comes from the request; through a user object, the user is recorded only when present and authenticated, and there is no IP |
| AuditLog.RequestAndUserOriginsAgree | apps/accounts/utils.py:27-43 | logging through a request and through that request's user records the same entry, except that only the request supplies the client IP |
| AuditLog.DefaultPatientDescription | apps/accounts/utils.py:48-49 | the default patient description is the action with underscores turned into spaces and title-cased, then ": ", then the patient's full name |
| AuditLog.DefaultDescriptionRecoversAction | apps/accounts/utils.py:48-49 | for a snake-case action code, a letter of the description is capitalised exactly when it starts a word of the code, and lower-casing the prefix and turning spaces back into underscores gives the code |
| AuditLog.LogPatientAction | apps/accounts/utils.py:46-50 | a patient entry targets the patient, keeps an explicit description, and otherwise uses the default description; its user is the request's user when authenticated, else none; its IP is the request's client IP |
| AuditLog.PatientDescriptionDefaulting | apps/accounts/utils.py:46-50 | an empty description logs the same entry as passing the default one, and an explicit description changes only the description field |
| Permissions.GetUserRole | apps/accounts/permissions.py:10-21 | resolution order: a missing or anonymous user gets ""; a superuser gets "admin"; otherwise the profile role; else "receptionist" for staff and "" for the rest |
| Permissions.AdminRoleSources | apps/accounts/permissions.py:10-21 | a user acts as "admin" exactly when authenticated and either a superuser or holding an admin profile; any non-empty role implies authentication |
| Permissions.RoleHomeUrl | apps/accounts/permissions.py:24-45 | admins and receptionists land on the front-desk feed; doctors on the doctor feed; nurses on the first active room's feed, or the profile page when there is none; other signed-in users on the profile page; anonymous visitors on the login page |
| Permissions.HomeIsLoginIffAnonymous | apps/accounts/permissions.py:24-45 | the home page is the login page exactly when the visitor is not signed in, and a room-feed home names an active room |
| Permissions.NurseHomeIsFirstActiveRoom | apps/accounts/permissions.py:31-41 | a nurse's home is the profile page when no room is active; otherwise it is the feed of an active room that no other active room precedes in room order |
| Permissions.RoleRequired | apps/accounts/permissions.py:48-65 | the guard admits exactly admins and the allowed roles; it sends a refused signed-in user to their home page with the "no access" message, and a refused anonymous visitor to the login page |
| Permissions.AdminPassesEveryGuard | apps/accounts/permissions.py:54-61 | an admin passes every guard, even one allowing no role; an anonymous visitor passes only a guard that allows the empty role |
| Permissions.GuardIsMonotone | apps/accounts/permissions.py:49-56 | widening the allowed roles never turns away a user who was admitted |
| Navigation.RoleNavigation | apps/accounts/context_processors.py:4-26 | an anonymous visitor gets an empty role, no home page and no rooms; otherwise the role and home page are those of the permission helpers; the room shortcuts are the first active rooms, at most five, shown only to admins and nurses, who always get min(5, number of active rooms) |
| Navigation.NavRoomsAreFirstActiveRooms | apps/accounts/context_processors.py:18-20 | every room shortcut is an active room; they are in room order; every active room left out comes after every room shown |
| Workflow.ParseAction | apps/appointments/workflow.py:131-132 | a string names an action exactly when it is one of the six rule-table keys |
| Workflow.ActionTables | apps/appointments/workflow.py:12-69 | every action reads back from its code and the codes are distinct; "admin" is in every role set and "" in none; exactly the two transfers require a room; completed and cancelled are never sources, no action targets cancelled, and no target is its own source; the event map is one-to-one and the log code equals the event-type code |
| Workflow.ResolveRole | apps/appointments/workflow.py:72-83 | the engine resolves the same role as the permission helpers |
| Workflow.PermissionByRole | apps/appointments/workflow.py:86-90 | an action is permitted exactly for admins and the one role its rule names, and only for signed-in users |
| Workflow.RoleOf | apps/appointments/workflow.py:12-49 | each rule's role set is exactly one named role plus "admin" |
| Workflow.ActionDescription | apps/appointments/workflow.py:93-109 | every description ends with the patient's name; the generic "Updated appointment for patient" text is used exactly when a transfer has no destination room or a room accept has no room |
| Workflow.RoomStep | apps/appointments/workflow.py:158-177 | only a room-requiring action can fail here, always with a validation error; a missing or zero room id is "choose a room"; a success assigns the requested active room; a room transfer must change the room; check-in and doctor accept clear the room; room accept and complete keep it |
| Workflow.Transition | apps/appointments/workflow.py:123-206 | a success needs a known action, permission and a source status, and lands on the rule's target; it changes only that appointment; it appends one event with the next id of the journal's sequence, the event type, the old and new status, the new room, the actor and the time, and advances the sequence; it appends one log entry for the actor with the log code and no IP |
| Workflow.Apply | apps/appointments/workflow.py:137-201 | a refused request leaves the whole store unchanged; an accepted one adds exactly one journal event |
| WorkflowProps.TransitionSucceedsIff | apps/appointments/workflow.py:131-184 | a request succeeds exactly when it passes every check (action, role, existence, capacity, status, room) |
| WorkflowProps.UnknownActionRejected | apps/appointments/workflow.py:131-132 | an action outside the table fails with "Unknown workflow action." and changes nothing |
| WorkflowProps.PermissionCheckedFirst | apps/appointments/workflow.py:134-142 | a role outside the rule's set fails with the permission message, whatever the store and the clock |
| WorkflowProps.UnknownAppointmentNotFound | apps/appointments/workflow.py:137-142 | a permitted request for a missing appointment fails with "not found" |
| WorkflowProps.CapacityCheckedBeforeStatus | apps/appointments/workflow.py:144-156 | with capacity enforced, checking in or accepting while another of today's appointments is with the doctor fails with the "doctor busy" message, whatever the target's status |
| WorkflowProps.TargetNotCountedAsBusy | apps/appointments/workflow.py:112-120 | an appointment with a non-zero id never makes the doctor busy for itself |
| WorkflowProps.WrongStatusRejected | apps/appointments/workflow.py:153-156 | a permitted request whose appointment is outside the rule's sources fails with the "wrong state" message |
| WorkflowProps.FinalStatuses | apps/appointments/workflow.py:12-49 | no action succeeds on a completed or cancelled appointment, and no success produces cancelled |
| WorkflowProps.RoomErrors | apps/appointments/workflow.py:158-173 | for a permitted transfer from a source status: a missing room id, an unknown or inactive room, and a room transfer to the current room each fail with their own message |
| WorkflowProps.RoomAcceptNeedsRoom | apps/appointments/workflow.py:179-180 | accepting into a room an appointment that holds none fails with "No room assigned for this appointment yet." |
| WorkflowProps.RoomOutcome | apps/appointments/workflow.py:158-184 | after a success: a transfer holds the requested active room, and a room transfer changes it; check-in and doctor accept clear the room; room accept keeps a room it must hold; complete keeps the room |
| WorkflowProps.AdmissibleEffect | apps/appointments/workflow.py:175-201 | an admissible request moves exactly its appointment to the rule's target with the resulting room, keeps rooms and patients, and adds one event |
| WorkflowProps.EventRecordsTransition | apps/appointments/workflow.py:186-193 | the new event records the action's event type, a source status, the target status, the appointment's new room and the sequence's next id, which then advances; the log entry uses the same code |
| WorkflowProps.TransitionKeepsWellFormed | apps/appointments/workflow.py:175-193 | every request keeps the store consistent: assigned rooms exist, and journal ids keep increasing and stay below the sequence's next id |
| WorkflowProps.TransitionKeepsRoomRule | apps/appointments/workflow.py:158-184 | every request preserves "waiting for room or in room implies a room is assigned" |
| WorkflowProps.TransitionKeepsSingleDoctor | apps/appointments/workflow.py:144-151 | with capacity enforced, every request preserves "at most one of today's appointments is with the doctor" |
| WorkflowProps.TransitionKeepsInvariant | apps/appointments/workflow.py:144-184 | with capacity enforced, every request preserves consistency, the room rule and the single-doctor rule together |
| WorkflowProps.Replay | apps/appointments/workflow.py:123-206 | a sequence of requests keeps the store consistent, only appends to the journal (at most one event per request), and never touches patients or rooms |
| WorkflowProps.ReplayKeepsInvariant | apps/appointments/workflow.py:144-184 | any sequence of capacity-enforced requests preserves the three invariants |
| WorkflowProps.AcceptedAcrossMidnight | apps/appointments/workflow.py:112-151 | the busy check counts only the clock's day and never looks at the accepted appointment's date: on day d, with nobody with the doctor, two waiting appointments of day d+1 are both accepted with capacity enforced, so day d+1 starts with two patients with the doctor |
| Views.TodaySelection | apps/appointments/views.py:17-23 | the day's selection holds every appointment scheduled today exactly once, sorted by (scheduled time, id) |
| Views.TodaySelectionContents | apps/appointments/views.py:17-23 | an appointment is in the day's selection exactly when it is stored and scheduled today, and none appears twice |
| Views.RoomsSelection | apps/appointments/views.py:26-27 | the room selection holds every active room exactly once, in room order |
| Views.RoomsSelectionIsListing | apps/appointments/views.py:26-27 | the room selection is sorted, holds exactly the active rooms, and repeats none |
| Views.FrontdeskFeed | apps/appointments/views.py:94-106 | the front-desk feed is the day's appointments minus the completed and cancelled ones, each as often as in the day's list, in the same order |
| Views.DoctorFeed | apps/appointments/views.py:109-122 | the waiting list holds exactly today's appointments waiting for the doctor, and the with-doctor list exactly those with the doctor, each as often as in the day's selection, both in order |
| Views.DoctorFeedShape | apps/appointments/views.py:111-113 | the two doctor lists never share an appointment, and under the single-doctor rule the with-doctor list has at most one entry |
| Views.FindActiveRoom | apps/appointments/views.py:127 | a code finds an active room with that code, or nothing when no active room has it |
| Views.FindActiveRoomUnique | apps/appointments/views.py:127 | with unique room codes, a code finds a room exactly when some active room has it, and then finds that room |
| Views.RoomFeed | apps/appointments/views.py:125-147 | an unknown or inactive room code is "not found"; otherwise the page shows that room; today's appointments waiting for it and in it, each as often as in the day's selection and in the day's order; every active room; and every other active room, each as often as in the listing and in room order |
| Views.RoomFeedShape | apps/appointments/views.py:129-145 | a room page never lists its own room among the other rooms, and its two queues never share an appointment |
| Views.AppointmentNew | apps/appointments/views.py:57-91 | a created appointment is stored planned with no room under a fresh id; nothing else in the store changes except one "created_appointment" log entry about it, with target type "appointment", the request's user when signed in, the client IP of the request and the description "Created appointment: <name> at <time>" |
| Views.AppointmentNewKeepsInvariant | apps/appointments/views.py:66-70 | creating an appointment preserves the three workflow invariants |
| Views.RoomIdOf | apps/appointments/views.py:152 | a missing or empty posted room id becomes no room id, and a number is passed on unchanged |
| Views.FailureText | apps/appointments/views.py:165-170 | permission and validation failures show their own message; a missing appointment shows "Appointment not found." |
| Views.TransitionAndRedirect | apps/appointments/views.py:150-172 | the view runs the engine with capacity enforced; it flashes success exactly when the engine succeeds, and otherwise the failure's text; it always redirects to the posted next page or to the fallback |
| Views.SuccessFlashNamesNewStatus | apps/appointments/views.py:161-164 | a success message is the patient's name, " -> ", and the label of the status the action leads to |
| Views.ApiToday | apps/appointments/views.py:235-254 | one row per appointment of the day, in order, with its ids, status code and label; room code and room name are null exactly when no room is assigned, and otherwise name the assigned room |
| PatientForms.CleanPhone | apps/patients/forms.py:33-38 | a phone is refused with "please enter a valid phone number" exactly when it has ten characters and none of the prefixes "09", "+251", "251"; an accepted phone is returned unchanged |
| PatientForms.PhoneVerdictByPrefix | apps/patients/forms.py:35-38 | a phone of any length other than ten is accepted, and the verdict on a ten-character phone depends only on its first four characters |
| PatientForms.PhoneExamples | apps/patients/forms.py:35-36 | a local mobile number and a "251" number pass, a longer international number passes, and a ten-digit number with another prefix is refused |
| PatientForms.CleanFullName | apps/patients/forms.py:40-44 | a name is refused with "the name you entered is too short" exactly when it is shorter than five characters; an accepted name is returned unchanged |
| LegacyStatuses.Normalize | apps/appointments/migrations/0006_normalize_legacy_statuses.py:6-10 | CI and CH_I become WD, CNC becomes CN, and every other code stays |
| LegacyStatuses.RewritesArePointwise | apps/appointments/migrations/0006_normalize_legacy_statuses.py:12-13 | running the updates one after another over the table acts on every row as running them over that row's status alone |
| LegacyStatuses.NormalizeStatuses | apps/appointments/migrations/0006_normalize_legacy_statuses.py:4-13 | the migration keeps the set of rows and maps every row's status through the legacy mapping |
| LegacyStatuses.NoLegacyCodesRemain | apps/appointments/migrations/0006_normalize_legacy_statuses.py:12-13 | afterwards no row holds CI, CH_I or CNC, and every row that held a legacy or a current code holds a current code |
| LegacyStatuses.CurrentCodesUntouched | apps/appointments/migrations/0006_normalize_legacy_statuses.py:12-13 | rows holding one of the seven current codes are left alone |
| LegacyStatuses.NormalizeIdempotent | apps/appointments/migrations/0006_normalize_legacy_statuses.py:6-13 | running the migration twice equals running it once |
| Scenarios.ReceptionistCannotDoctorAccept | apps/appointments/tests.py:53-65 | a receptionist's doctor accept is refused with the permission message |
| Scenarios.SecondPatientBlockedWhileBusy | apps/appointments/tests.py:67-133 | while one of today's appointments is with the doctor, a second one can be neither checked in nor accepted, and it keeps its state |
| Scenarios.FullDoctorAndRoomFlow | apps/appointments/tests.py:135-163 | check-in, doctor accept, transfer to the lab, room accept and complete take a planned appointment to completed in the lab with five journal events |
| Scenarios.FixtureFlow | apps/appointments/tests.py:135-163 | the same flow from the test fixture ends completed with five events |
| Scenarios.RoomTransferMustChangeDestination | apps/appointments/tests.py:165-203 | a room transfer to the current room is refused; one to the pharmacy leaves the patient waiting there |

## Left out

- Broadcasting after a transition and after `appointment_new` is left out. It is an asynchronous push to Channels groups, a library outside this model.
- The transaction and `select_for_update` row lock are left out. Requests are modelled as atomic and applied one at a time, so the cross-row capacity race the row lock does not prevent cannot be expressed.
- Time zones are left out. `timezone.localdate()`, `timezone.now()` and the date part of `scheduled_at` are a `Clock` and a `Moment`, and the date and time formatting in log descriptions and the API is not modelled.
- Views.AppointmentNew: the description text of the "created_appointment" entry takes the formatted time as a parameter, because `strftime` and local-time conversion are not modelled.
- Views.ApiToday: the ISO time, duration, reason and patient name fields are copied through but not stated in the contract.
- `appointment_today` and its name search, `frontdesk_intake`, the accounts views, the admin classes and the demo seed command are not part of this model. They are form handling and page rendering around the engine.
- `log_appointment_action` (`apps/accounts/utils.py:53-57`) has no caller in the modelled views, so it is left out.
- Text.Upper, Text.Title: case mapping is ASCII-only. Python's `upper()` and `title()` also map non-ASCII letters.
- AccountModels.InitialsShape: for non-ASCII names Python's `upper()` can produce more than two characters. The model's ASCII-only mapping cannot show that.
- Room names are ordered by code point. The database collation is not modelled.
- Views.RoomIdOf: a posted room id of "0" is truthy text in the view, which the engine then looks up as room 0. In the model a number 0 is falsy and reads as "choose a room". A non-numeric posted id, which makes the database lookup raise, is not modelled.
- WorkflowProps.Replay: every request of a replay shares one clock. The single-doctor rule it keeps is the clock's day's only, and `WorkflowProps.AcceptedAcrossMidnight` shows the engine itself breaks it across a day change.
- WorkflowProps.TransitionKeepsSingleDoctor: the single-doctor rule holds only for appointments scheduled on the clock's day and only with capacity enforced. `_doctor_is_busy` counts only today's appointments and the engine never checks the accepted appointment's own date, so the rule can fail once the day changes (`WorkflowProps.AcceptedAcrossMidnight`). Calls with `enforce_doctor_capacity=False` can also break it.
- PatientForms.CleanPhone, PatientForms.CleanFullName: the form's field list names `address` (`apps/patients/forms.py:14`), which `Patient` does not have (`apps/patients/models.py:3-16`). Django refuses to build such a form when the class is created, so as written neither cleaner is reached. This is read from the code and was not executed; the model states the cleaners as they would act on a form that builds.
- WorkflowProps.RoomRule: states only "room status implies a room". The converse does not hold, because `complete` keeps the room.
- Workflow.Transition: its contract does not state the description text of the log entry. `Workflow.ActionDescription` states what that text is.
