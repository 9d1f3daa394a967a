/** The pure parts of the ORM models in models.py: roles, display name and worked hours. */
module Models {
  import opened Wrappers

  /** A `User` row (password hash, department, position and audit columns left out). The name columns are nullable. */
  datatype User = User(
    id: int, username: string, email: string, role: string,
    firstName: Option<string>, lastName: Option<string>, isActive: bool)

  /** `is_admin` */
  predicate IsAdmin(u: User) {
    u.role == "admin"
  }

  /** `is_manager`: the role is one of admin and manager. */
  predicate IsManager(u: User) {
    u.role in ["admin", "manager"]
  }

  /** Every admin is a manager, and the managers who are not admins are exactly the role "manager". */
  lemma RoleHierarchy(u: User)
    ensures IsAdmin(u) ==> IsManager(u)
    ensures IsManager(u) && !IsAdmin(u) <==> u.role == "manager"
    ensures IsManager(u) <==> u.role == "admin" || u.role == "manager"
  {
  }

  /** How an f-string renders a nullable column: the text, or `None`. */
  function Show(s: Option<string>): string {
    match s
    case Some(v) => v
    case None => "None"
  }

  /** `full_name`: first name, one space, last name. */
  function FullName(u: User): (r: string)
    ensures |r| == |Show(u.firstName)| + 1 + |Show(u.lastName)|
    ensures r[..|Show(u.firstName)|] == Show(u.firstName) && r[|Show(u.firstName)|] == ' '
    ensures r[|Show(u.firstName)| + 1..] == Show(u.lastName)
  {
    Show(u.firstName) + " " + Show(u.lastName)
  }

  /**
   * While first names hold no space, the full name determines both
   * parts: the first space of `full_name` is the separator.
   */
  lemma FullNameDeterminesParts(u: User, v: User)
    requires ' ' !in Show(u.firstName) && ' ' !in Show(v.firstName)
    requires FullName(u) == FullName(v)
    ensures Show(u.firstName) == Show(v.firstName) && Show(u.lastName) == Show(v.lastName)
  {
    var a, b := Show(u.firstName), Show(v.firstName);
    var s := FullName(u);
    assert s[|a|] == ' ';
    assert FullName(v)[|b|] == ' ';
    assert |a| == |b|;
    assert a == s[..|a|] && b == FullName(v)[..|b|];
    assert Show(u.lastName) == s[|a| + 1..];
    assert Show(v.lastName) == FullName(v)[|b| + 1..];
  }

  /** Seconds since the start of day 0 (a naive local `datetime`). */
  type Seconds = int

  /** `timestamp.date()`: the day number. */
  function DateOf(t: Seconds): int {
    t / 86400
  }

  /** An `Attendance` row (id and audit columns left out). */
  datatype Attendance = Attendance(
    userId: int, date: int, checkIn: Option<Seconds>, checkOut: Option<Seconds>,
    status: string, notes: string)

  /** `total_hours`: the check-in to check-out span in hours, 0 while either is unset. */
  function TotalHours(a: Attendance): (h: real)
    ensures a.checkIn.None? || a.checkOut.None? ==> h == 0.0
    ensures a.checkIn.Some? && a.checkOut.Some? ==> h * 3600.0 == (a.checkOut.value - a.checkIn.value) as real
  {
    if a.checkIn.Some? && a.checkOut.Some? then
      (a.checkOut.value - a.checkIn.value) as real / 3600.0
    else 0.0
  }

  /**
   * The hours are negative exactly when check-out precedes check-in
   * (nothing rejects that order), and grow with a later check-out.
   */
  lemma HoursSign(a: Attendance, later: Seconds)
    requires a.checkIn.Some? && a.checkOut.Some?
    requires a.checkOut.value <= later
    ensures TotalHours(a) < 0.0 <==> a.checkOut.value < a.checkIn.value
    ensures TotalHours(a) <= TotalHours(a.(checkOut := Some(later)))
  {
  }

  /** In at 09:00:00 and out at 09:01:01 is 61/3600 of an hour. */
  lemma SixtyOneSeconds(day: int, userId: int)
    ensures TotalHours(Attendance(userId, day, Some(day * 86400 + 32400), Some(day * 86400 + 32461), "present", ""))
         == 61.0 / 3600.0
  {
  }
}
