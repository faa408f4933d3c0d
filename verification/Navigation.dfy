/** The template context every page gets (`apps/accounts/context_processors.py`):
    the user's role, the address of their home page, and the room shortcuts shown
    in the navigation bar. */
module Navigation {
  import opened Base
  import opened Ordering
  import opened AccountModels
  import opened AppointmentModels
  import opened Permissions

  /** How many room shortcuts the navigation bar shows at most. */
  const NAV_ROOM_LIMIT: nat := 5

  /** The context `role_navigation` contributes; `homeUrl` is `None` where the
      source puts the empty string. */
  datatype Nav = Nav(userRole: string, homeUrl: Option<Url>, navRooms: seq<Room>)

  /** `role_navigation`: nothing for an anonymous visitor; otherwise the
      resolved role and home page, and the first five active rooms for
      administrators and nurses. */
  function RoleNavigation(u: User, activeRooms: seq<Room>): (nav: Nav)
    ensures !u.isAuthenticated ==> nav == Nav("", None, [])
    ensures u.isAuthenticated ==>
              nav.userRole == GetUserRole(Some(u)) && nav.homeUrl == Some(RoleHomeUrl(Some(u), activeRooms))
    ensures |nav.navRooms| <= NAV_ROOM_LIMIT
    ensures nav.navRooms != [] ==> nav.userRole in {"admin", "nurse"}
    ensures |nav.navRooms| <= |activeRooms| && nav.navRooms == activeRooms[..|nav.navRooms|]
    ensures nav.userRole in {"admin", "nurse"} ==> |nav.navRooms| == Min(NAV_ROOM_LIMIT, |activeRooms|)
  {
    if !u.isAuthenticated then Nav("", None, [])
    else
      var role := GetUserRole(Some(u));
      var rooms := if role in {"admin", "nurse"} then activeRooms[..Min(NAV_ROOM_LIMIT, |activeRooms|)] else [];
      Nav(role, Some(RoleHomeUrl(Some(u), activeRooms)), rooms)
  }

  /** Every room shortcut is an active room, they appear in room order, and
      none is skipped: a room left out of the bar never precedes one shown. */
  lemma NavRoomsAreFirstActiveRooms(u: User, rooms: map<nat, Room>, activeRooms: seq<Room>)
    requires ActiveRoomListing(rooms, activeRooms)
    ensures var shown := RoleNavigation(u, activeRooms).navRooms;
            && (forall r :: r in shown ==> r in rooms.Values && r.isActive)
            && SortedBy(RoomLe, shown)
            && (forall r, s :: r in shown && s in rooms.Values && s.isActive && s !in shown ==> RoomLe(r, s))
  {
    var shown := RoleNavigation(u, activeRooms).navRooms;
    forall r | r in shown
      ensures r in activeRooms
    {
      var i :| 0 <= i < |shown| && shown[i] == r;
      assert activeRooms[i] == r;
    }
    forall r, s | r in shown && s in rooms.Values && s.isActive && s !in shown
      ensures RoomLe(r, s)
    {
      var i :| 0 <= i < |shown| && shown[i] == r;
      assert s in activeRooms;
      var j :| 0 <= j < |activeRooms| && activeRooms[j] == s;
      assert activeRooms[i] == r;
    }
  }
}
