/** Staff identity and the process-wide activity log (`apps/accounts/models.py`):
    the four staff roles, the user record the role resolver reads, the avatar
    initials a profile derives when it is saved, and the icon and colour the
    activity log shows per action code. */
module AccountModels {
  import opened Base
  import opened Text

  /** `UserProfile.ROLE_CHOICES`. */
  datatype Role = Admin | Doctor | Nurse | Receptionist {

    function Code(): string {
      match this
      case Admin => "admin"
      case Doctor => "doctor"
      case Nurse => "nurse"
      case Receptionist => "receptionist"
    }

    function Label(): string {
      match this
      case Admin => "Administrator"
      case Doctor => "Doctor"
      case Nurse => "Nurse"
      case Receptionist => "Receptionist"
    }
  }

  const ALL_ROLES: seq<Role> := [Admin, Doctor, Nurse, Receptionist]

  /** The role a new profile gets when none is given. */
  const DEFAULT_ROLE: Role := Receptionist

  /** Maps a stored role code back to its role. */
  function ParseRole(code: string): (r: Option<Role>)
    ensures r.Some? ==> r.value.Code() == code
    ensures r.None? ==> forall role: Role :: role.Code() != code
  {
    if code == "admin" then Some(Admin)
    else if code == "doctor" then Some(Doctor)
    else if code == "nurse" then Some(Nurse)
    else if code == "receptionist" then Some(Receptionist)
    else None
  }

  /** There are exactly four roles, their codes are pairwise distinct, and every
      code parses back to its role; the default role is the receptionist. */
  lemma RoleChoices()
    ensures |ALL_ROLES| == 4
    ensures forall role: Role :: role in ALL_ROLES && ParseRole(role.Code()) == Some(role)
    ensures forall a: Role, b: Role :: a.Code() == b.Code() ==> a == b
    ensures DEFAULT_ROLE.Code() == "receptionist"
  {
    forall role: Role
      ensures role in ALL_ROLES && ParseRole(role.Code()) == Some(role)
    {
      match role
      case Admin =>
      case Doctor =>
      case Nurse =>
      case Receptionist =>
    }
  }

  /** A staff profile: the stored role is free text (a `CharField` whose choices
      the database does not enforce) and the cached avatar initials. */
  datatype Profile = Profile(role: string, avatarInitials: string)

  /** The slice of Django's user the clinic code reads. An anonymous visitor is
      a user whose `isAuthenticated` is false. */
  datatype User = User(
    id: nat,
    username: string,
    firstName: string,
    lastName: string,
    isAuthenticated: bool,
    isSuperuser: bool,
    isStaff: bool,
    profile: Option<Profile>)

  /** Django's `get_full_name()`: first and last name joined by a space, stripped. */
  function FullName(u: User): string {
    Strip(u.firstName + " " + u.lastName)
  }

  /** The name the initials are taken from: the full name, or the username when
      the full name is blank. */
  function InitialsSource(u: User): (name: string)
    ensures FullName(u) != "" ==> name == FullName(u)
    ensures FullName(u) == "" ==> name == u.username
  {
    if FullName(u) != "" then FullName(u) else u.username
  }

  /** Initials derived from `name`: the first letters of its first and last
      words when it has two or more, otherwise its first two characters; upper-cased. */
  function DeriveInitials(name: string): string {
    var parts := Words(name);
    if |parts| >= 2 then Upper([parts[0][0], parts[|parts| - 1][0]])
    else Upper(name[..Min(2, |name|)])
  }

  /** `UserProfile.save`: fills in blank avatar initials, never overwrites
      non-blank ones, and changes nothing else. */
  function SaveProfile(p: Profile, u: User): (saved: Profile)
    ensures saved.role == p.role
    ensures p.avatarInitials != "" ==> saved == p
    ensures p.avatarInitials == "" ==> saved.avatarInitials == DeriveInitials(InitialsSource(u))
  {
    if p.avatarInitials != "" then p
    else p.(avatarInitials := DeriveInitials(InitialsSource(u)))
  }

  /** Derived initials fit the two-character field and hold no lower-case ASCII
      letter. */
  lemma InitialsShape(name: string)
    ensures |DeriveInitials(name)| <= 2
    ensures forall i :: 0 <= i < |DeriveInitials(name)| ==> !IsLowerAscii(DeriveInitials(name)[i])
  {
  }

  /** For a name of two or more words, the first initial is the upper-cased
      first non-blank character of the name. */
  lemma {:induction false} FirstInitialIsFirstLetter(name: string)
    requires |Words(name)| >= 2
    ensures LeadingBlanks(name) < |name|
    ensures DeriveInitials(name)[0] == ToUpper(name[LeadingBlanks(name)])
  {
    var parts := Words(name);
    ConcatHead(parts);
    NonSpaceHead(name);
  }

  /** For a name of two or more words, the second initial is the upper-cased
      first character of the last word: the start of the last non-blank run,
      which follows a blank. */
  lemma SecondInitialIsLastWordStart(name: string)
    requires |Words(name)| >= 2
    ensures exists k: nat :: LastRunStart(name, k) && k > 0 && DeriveInitials(name)[1] == ToUpper(name[k])
  {
    LastWordStart(name);
  }

  /** The first character of a concatenation of words is the first
      character of the first word. */
  lemma ConcatHead(ws: seq<string>)
    requires |ws| > 0 && IsWord(ws[0])
    ensures |Concat(ws)| > 0 && Concat(ws)[0] == ws[0][0]
  {
  }

  /** The first non-blank character is the first character that survives
      `NonSpace`. */
  lemma {:induction false} NonSpaceHead(s: string)
    requires |NonSpace(s)| > 0
    ensures LeadingBlanks(s) < |s|
    ensures NonSpace(s)[0] == s[LeadingBlanks(s)]
    decreases |s|
  {
    if IsSpace(s[0]) {
      NonSpaceHead(s[1..]);
    }
  }

  /** `ActionLog.ACTION_CHOICES`: the action codes the activity log knows. */
  const LOG_ACTIONS: seq<string> := [
    "created_patient", "updated_patient", "created_appointment", "updated_appointment",
    "cancelled_appointment", "checked_in", "login", "logout"]

  const DEFAULT_ICON: string := "\U{1F4CB}"
  const DEFAULT_COLOR: string := "gray"

  const ICONS: map<string, string> := map[
    "created_patient" := "\U{1F464}",
    "updated_patient" := "\U{270F}\U{FE0F}",
    "created_appointment" := "\U{1F4C5}",
    "updated_appointment" := "\U{1F4DD}",
    "cancelled_appointment" := "\U{274C}",
    "checked_in" := "\U{2705}",
    "login" := "\U{1F510}",
    "logout" := "\U{1F6AA}"]

  const COLORS: map<string, string> := map[
    "created_patient" := "green",
    "updated_patient" := "blue",
    "created_appointment" := "indigo",
    "updated_appointment" := "blue",
    "cancelled_appointment" := "red",
    "checked_in" := "emerald",
    "login" := "purple",
    "logout" := "gray"]

  /** `ActionLog.action_icon`: total over all strings; the fallback icon is
      shown exactly for the codes the log does not know. */
  function ActionIcon(action: string): (icon: string)
    ensures icon == DEFAULT_ICON <==> action !in LOG_ACTIONS
    ensures action in LOG_ACTIONS ==> icon == ICONS[action]
  {
    if action in ICONS then ICONS[action] else DEFAULT_ICON
  }

  /** `ActionLog.action_color`: total over all strings; unknown codes are gray,
      and so is `logout`. */
  function ActionColor(action: string): (color: string)
    ensures color == DEFAULT_COLOR <==> action !in LOG_ACTIONS || action == "logout"
    ensures action in LOG_ACTIONS ==> color == COLORS[action]
    ensures color in {"green", "blue", "indigo", "red", "emerald", "purple", "gray"}
  {
    if action in COLORS then COLORS[action] else DEFAULT_COLOR
  }

  /** One row of the activity log (`ActionLog`). */
  datatype LogEntry = LogEntry(
    user: Option<nat>,
    action: string,
    targetType: string,
    targetId: Option<int>,
    description: string,
    ipAddress: Option<string>)
}
