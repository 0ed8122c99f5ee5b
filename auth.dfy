/** Login against the configured user list. */
module Auth {
  import opened Domain

  /** One entry of the configured user list; any key may be missing. */
  datatype UserEntry = UserEntry(user: Option<string>, pass: Option<string>, role: Option<string>)

  /** `item.get("user") == u and item.get("pass") == p`: a missing key never
      matches the typed text. */
  predicate Matches(e: UserEntry, u: string, p: string) {
    e.user == Some(u) && e.pass == Some(p)
  }

  /** The session a matching entry opens: its user, and its role, or "Admin"
      when the entry has none. */
  function SessionOf(e: UserEntry): Session
    requires e.user.Some?
  {
    Session(e.user.value, if e.role.Some? then e.role.value else Admin)
  }

  /** Scans the list and stops at the first entry whose user and password
      both match. `None` is the "wrong user or password" outcome. */
  method Login(users: seq<UserEntry>, u: string, p: string) returns (s: Option<Session>)
    ensures s.None? <==> forall i :: 0 <= i < |users| ==> !Matches(users[i], u, p)
    ensures s.Some? ==>
      exists i :: 0 <= i < |users| && Matches(users[i], u, p)
        && (forall j :: 0 <= j < i ==> !Matches(users[j], u, p))
        && s.value == SessionOf(users[i])
    ensures s.Some? ==> s.value.user == u
  {
    var i := 0;
    while i < |users|
      invariant 0 <= i <= |users|
      invariant forall j :: 0 <= j < i ==> !Matches(users[j], u, p)
    {
      if Matches(users[i], u, p) {
        break;
      }
      i := i + 1;
    }
    if i < |users| {
      s := Some(SessionOf(users[i]));
    } else {
      s := None;
    }
  }

  /** Whichever entry matched, an entry without a role logs in as Admin. */
  lemma MissingRoleIsAdmin(e: UserEntry)
    requires e.user.Some? && e.role.None?
    ensures SessionOf(e).role == Admin && AllowedSectors(SessionOf(e).role) == Sectors
  {
  }
}
