/** Role resolution and role-based routing (`apps/accounts/permissions.py`).
    Page addresses are kept symbolic: `reverse()` is the identity on `Url`. */
module Permissions {
  import opened Base
  import opened Ordering
  import opened AccountModels
  import opened AppointmentModels

  /** `get_user_role`: the role a (possibly missing) user acts under. The stored
      profile role wins over the staff flag; only a superuser overrides it. */
  function GetUserRole(u: Option<User>): (role: string)
    ensures u.None? || !u.value.isAuthenticated ==> role == ""
    ensures u.Some? && u.value.isAuthenticated && u.value.isSuperuser ==> role == "admin"
    ensures u.Some? && u.value.isAuthenticated && !u.value.isSuperuser && u.value.profile.Some? ==>
              role == u.value.profile.value.role
    ensures u.Some? && u.value.isAuthenticated && !u.value.isSuperuser && u.value.profile.None? ==>
              role == (if u.value.isStaff then "receptionist" else "")
  {
    if u.None? || !u.value.isAuthenticated then ""
    else if u.value.isSuperuser then "admin"
    else match u.value.profile
      case Some(p) => p.role
      case None => if u.value.isStaff then "receptionist" else ""
  }

  /** Who acts as an administrator: exactly the authenticated superusers and the
      authenticated users whose profile says "admin". */
  lemma AdminRoleSources(u: Option<User>)
    ensures GetUserRole(u) == "admin" <==>
              u.Some? && u.value.isAuthenticated
              && (u.value.isSuperuser || (u.value.profile.Some? && u.value.profile.value.role == "admin"))
    ensures GetUserRole(u) != "" && u.Some? ==> u.value.isAuthenticated
  {
  }

  /** The pages a role can be sent to. */
  datatype Url = Login | ProfilePage | FrontdeskFeed | DoctorFeed | RoomFeed(roomCode: string)

  /** `role_home_url`: where a user lands. `activeRooms` is the active-room
      listing, in room order; a nurse goes to the first of them. */
  function RoleHomeUrl(u: Option<User>, activeRooms: seq<Room>): (url: Url)
    ensures GetUserRole(u) in {"admin", "receptionist"} ==> url == FrontdeskFeed
    ensures GetUserRole(u) == "doctor" ==> url == DoctorFeed
    ensures GetUserRole(u) == "nurse" ==>
              url == (if |activeRooms| > 0 then RoomFeed(activeRooms[0].code) else ProfilePage)
    ensures GetUserRole(u) !in {"admin", "receptionist", "doctor", "nurse"} ==>
              url == (if u.Some? && u.value.isAuthenticated then ProfilePage else Login)
  {
    var role := GetUserRole(u);
    if role in {"admin", "receptionist"} then FrontdeskFeed
    else if role == "doctor" then DoctorFeed
    else if role == "nurse" then
      if |activeRooms| > 0 then RoomFeed(activeRooms[0].code) else ProfilePage
    else if u.Some? && u.value.isAuthenticated then ProfilePage
    else Login
  }

  /** Only visitors who are not signed in are sent to the login page; every
      room feed a user is sent to belongs to an active room. */
  lemma HomeIsLoginIffAnonymous(u: Option<User>, rooms: map<nat, Room>, activeRooms: seq<Room>)
    requires ActiveRoomListing(rooms, activeRooms)
    ensures RoleHomeUrl(u, activeRooms) == Login <==> u.None? || !u.value.isAuthenticated
    ensures RoleHomeUrl(u, activeRooms).RoomFeed? ==>
              exists r :: r in rooms.Values && r.isActive && r.code == RoleHomeUrl(u, activeRooms).roomCode
  {
    if RoleHomeUrl(u, activeRooms).RoomFeed? {
      assert activeRooms[0] in activeRooms;
    }
  }

  /** A nurse's home is the feed of an active room that comes first in room
      order, or the profile page when no room is active. */
  lemma NurseHomeIsFirstActiveRoom(u: Option<User>, rooms: map<nat, Room>, activeRooms: seq<Room>)
    requires ActiveRoomListing(rooms, activeRooms)
    requires GetUserRole(u) == "nurse"
    ensures (forall r :: r in rooms.Values ==> !r.isActive) ==> RoleHomeUrl(u, activeRooms) == ProfilePage
    ensures (exists r :: r in rooms.Values && r.isActive) ==>
              exists first :: first in rooms.Values && first.isActive
                && RoleHomeUrl(u, activeRooms) == RoomFeed(first.code)
                && forall r :: r in rooms.Values && r.isActive ==> RoomLe(first, r)
  {
    if exists r :: r in rooms.Values && r.isActive {
      var some :| some in rooms.Values && some.isActive;
      assert some in activeRooms;
      var first := activeRooms[0];
      assert first in activeRooms;
      RoomOrderIsTotalPreorder();
      forall r | r in rooms.Values && r.isActive
        ensures RoomLe(first, r)
      {
        assert r in activeRooms;
        var j :| 0 <= j < |activeRooms| && activeRooms[j] == r;
        if j == 0 {
          assert RoomLe(r, r);
        }
      }
    }
  }

  /** What `role_required` does with a request. */
  datatype Admission = Admit | Redirect(to: Url, denied: bool)

  const MSG_NO_ACCESS: string := "You do not have access to that page."

  /** The `role_required(*allowed)` guard: an administrator or a role in
      `allowed` is admitted; any other signed-in user is sent home with the
      no-access message; an anonymous visitor is sent to the login page. */
  function RoleRequired(allowed: set<string>, u: User, activeRooms: seq<Room>): (a: Admission)
    ensures a.Admit? <==> GetUserRole(Some(u)) == "admin" || GetUserRole(Some(u)) in allowed
    ensures !a.Admit? && u.isAuthenticated ==> a == Redirect(RoleHomeUrl(Some(u), activeRooms), true)
    ensures !a.Admit? && !u.isAuthenticated ==> a == Redirect(Login, false)
  {
    var role := GetUserRole(Some(u));
    if role == "admin" || role in allowed then Admit
    else if u.isAuthenticated then Redirect(RoleHomeUrl(Some(u), activeRooms), true)
    else Redirect(Login, false)
  }

  /** An administrator passes every guard, even one that allows no role; an
      anonymous visitor passes only a guard that lists the empty role. */
  lemma AdminPassesEveryGuard(allowed: set<string>, u: User, activeRooms: seq<Room>)
    ensures GetUserRole(Some(u)) == "admin" ==> RoleRequired(allowed, u, activeRooms) == Admit
    ensures GetUserRole(Some(u)) == "admin" ==> RoleRequired({}, u, activeRooms) == Admit
    ensures !u.isAuthenticated ==> (RoleRequired(allowed, u, activeRooms).Admit? <==> "" in allowed)
  {
  }

  /** Widening the allowed set never turns an admitted user away. */
  lemma GuardIsMonotone(small: set<string>, large: set<string>, u: User, activeRooms: seq<Room>)
    requires small <= large
    ensures RoleRequired(small, u, activeRooms).Admit? ==> RoleRequired(large, u, activeRooms).Admit?
  {
  }
}
