/**
 * `migrate_csv_data` of models.py over in-memory tables: for every row of
 * the legacy attendance file, find or create the user by first and last
 * name, then append one attendance record.
 */
module Migration {
  import opened Wrappers
  import opened Models
  import PyStr

  /** One row as `csv.DictReader` yields it: column name to text. */
  type Row = map<string, string>

  /** The user and attendance tables, in insertion order. */
  datatype Tables = Tables(users: seq<User>, attendances: seq<Attendance>)

  /**
   * User ids are 1, 2, ... in insertion order (the autoincrement key
   * without deletions) and every attendance points at an existing user.
   */
  ghost predicate WellFormed(t: Tables) {
    && (forall i :: 0 <= i < |t.users| ==> t.users[i].id == i + 1)
    && (forall k :: 0 <= k < |t.attendances| ==> 1 <= t.attendances[k].userId <= |t.users|)
  }

  /** `filter_by(first_name=first, last_name=last)` matches this user. */
  predicate NamedAs(u: User, first: string, last: string) {
    u.firstName == Some(first) && u.lastName == Some(last)
  }

  /** `User.query.filter_by(first_name=first, last_name=last).first()`: the index of the first match. */
  function FindUser(users: seq<User>, first: string, last: string): (r: Option<nat>)
    ensures r.None? <==> forall i :: 0 <= i < |users| ==> !NamedAs(users[i], first, last)
    ensures r.Some? ==> r.value < |users| && NamedAs(users[r.value], first, last)
    ensures r.Some? ==> forall i :: 0 <= i < r.value ==> !NamedAs(users[i], first, last)
  {
    if users == [] then None
    else if NamedAs(users[0], first, last) then Some(0)
    else match FindUser(users[1..], first, last)
      case None => None
      case Some(i) => Some(i + 1)
  }

  /**
   * The row survives the `try` block: its Timestamp parses
   * (`datetime.fromisoformat`, given as `parse`) and it has Nombre and Apellido.
   */
  predicate Importable(row: Row, parse: string -> Option<Seconds>) {
    && "Timestamp" in row && parse(row["Timestamp"]).Some?
    && "Nombre" in row && "Apellido" in row
  }

  /** `f"{nombre.lower()}.{apellido.lower()}"` */
  function Username(first: string, last: string): string {
    PyStr.Lower(first) + "." + PyStr.Lower(last)
  }

  /** `row.get('Correo', <username>@company.com)`: a present Correo wins, even when empty. */
  function EmailFor(row: Row): string
    requires "Nombre" in row && "Apellido" in row
  {
    if "Correo" in row then row["Correo"] else Username(row["Nombre"], row["Apellido"]) + "@company.com"
  }

  /** The user created for a row whose name is not in the table yet. */
  function NewUser(row: Row, id: int): User
    requires "Nombre" in row && "Apellido" in row
  {
    User(id, Username(row["Nombre"], row["Apellido"]), EmailFor(row), "employee",
         Some(row["Nombre"]), Some(row["Apellido"]), true)
  }

  /** The notes column of an imported record. */
  function Notes(row: Row): string {
    "Imported from CSV - Edad: " + MapGet(row, "Edad", "") + ", Sexo: " + MapGet(row, "Sexo", "")
      + ", Celular: " + MapGet(row, "Celular", "")
  }

  /** The attendance record a row becomes: checked in at its timestamp, not checked out, present. */
  function Imported(userId: int, t: Seconds, row: Row): Attendance {
    Attendance(userId, DateOf(t), Some(t), None, "present", Notes(row))
  }

  /** One pass of the loop body: the tables after the row, and whether it was migrated. */
  function MigrateRow(t: Tables, row: Row, parse: string -> Option<Seconds>): (Tables, bool) {
    if !Importable(row, parse) then (t, false)
    else
      var ts := parse(row["Timestamp"]).value;
      match FindUser(t.users, row["Nombre"], row["Apellido"])
      case Some(i) =>
        (Tables(t.users, t.attendances + [Imported(t.users[i].id, ts, row)]), true)
      case None =>
        var u := NewUser(row, |t.users| + 1);
        (Tables(t.users + [u], t.attendances + [Imported(u.id, ts, row)]), true)
  }

  /** The tables after the loop over `rows`, and `migrated_count`. */
  function MigrateAll(t: Tables, rows: seq<Row>, parse: string -> Option<Seconds>): (r: (Tables, nat))
    ensures |t.users| <= |r.0.users| && |t.attendances| <= |r.0.attendances|
    decreases |rows|
  {
    if rows == [] then (t, 0)
    else
      var prev := MigrateAll(t, rows[..|rows| - 1], parse);
      var step := MigrateRow(prev.0, rows[|rows| - 1], parse);
      (step.0, prev.1 + if step.1 then 1 else 0)
  }

  /** How many rows are importable. */
  function CountImportable(rows: seq<Row>, parse: string -> Option<Seconds>): nat
    decreases |rows|
  {
    if rows == [] then 0
    else CountImportable(rows[..|rows| - 1], parse) + if Importable(rows[|rows| - 1], parse) then 1 else 0
  }

  /** A row that is not importable adds nothing; an importable one adds exactly one record and at most one user. */
  lemma RowEffect(t: Tables, row: Row, parse: string -> Option<Seconds>)
    ensures var (t', ok) := MigrateRow(t, row, parse);
      && ok == Importable(row, parse)
      && (!ok ==> t' == t)
      && (ok ==> |t'.attendances| == |t.attendances| + 1 && t'.attendances[..|t.attendances|] == t.attendances)
      && (ok ==> t'.attendances[|t.attendances|].checkOut == None)
      && (ok ==> t'.attendances[|t.attendances|].status == "present")
      && (ok ==> t'.attendances[|t.attendances|].checkIn == parse(row["Timestamp"]))
      && (ok ==> t'.attendances[|t.attendances|].date == DateOf(parse(row["Timestamp"]).value))
      && (ok ==> t'.attendances[|t.attendances|].notes == Notes(row))
      && |t.users| <= |t'.users| <= |t.users| + 1 && t'.users[..|t.users|] == t.users
      && (ok ==> && FindUser(t'.users, row["Nombre"], row["Apellido"]).Some?
                 && t'.attendances[|t.attendances|].userId
                    == t'.users[FindUser(t'.users, row["Nombre"], row["Apellido"]).value].id)
  {
    if Importable(row, parse) {
      var t' := MigrateRow(t, row, parse).0;
      match FindUser(t.users, row["Nombre"], row["Apellido"])
      case Some(i) =>
        FindUserFirstAt(t'.users, row["Nombre"], row["Apellido"], i);
      case None =>
        FindUserFirstAt(t'.users, row["Nombre"], row["Apellido"], |t.users|);
    }
  }

  /** Migrating one row only appends to the two tables. */
  lemma RowGrows(t: Tables, row: Row, parse: string -> Option<Seconds>)
    ensures var t' := MigrateRow(t, row, parse).0;
      && |t.users| <= |t'.users| && t'.users[..|t.users|] == t.users
      && |t.attendances| <= |t'.attendances| && t'.attendances[..|t.attendances|] == t.attendances
  {
  }

  /** A row naming a user already in the table reuses that user: no user is added, the record points at it. */
  lemma ExistingUserReused(t: Tables, row: Row, parse: string -> Option<Seconds>, i: nat)
    requires Importable(row, parse)
    requires i < |t.users| && NamedAs(t.users[i], row["Nombre"], row["Apellido"])
    ensures MigrateRow(t, row, parse).0.users == t.users
    ensures var k := FindUser(t.users, row["Nombre"], row["Apellido"]).value;
      && k <= i
      && MigrateRow(t, row, parse).0.attendances[|t.attendances|].userId == t.users[k].id
  {
  }

  /**
   * A row naming no user in the table adds one: username lower(Nombre).lower(Apellido),
   * role employee, e-mail the row's Correo when that column is present, else
   * the synthesized company address.
   */
  lemma NewUserCreated(t: Tables, row: Row, parse: string -> Option<Seconds>)
    requires Importable(row, parse)
    requires forall i :: 0 <= i < |t.users| ==> !NamedAs(t.users[i], row["Nombre"], row["Apellido"])
    ensures var u := MigrateRow(t, row, parse).0.users;
      && |u| == |t.users| + 1
      && u[|t.users|].username == PyStr.Lower(row["Nombre"]) + "." + PyStr.Lower(row["Apellido"])
      && u[|t.users|].role == "employee"
      && u[|t.users|].firstName == Some(row["Nombre"]) && u[|t.users|].lastName == Some(row["Apellido"])
      && ("Correo" in row ==> u[|t.users|].email == row["Correo"])
      && ("Correo" !in row ==> u[|t.users|].email == u[|t.users|].username + "@company.com")
  {
  }

  /**
   * `migrated_count` is the number of importable rows, the attendance table
   * grows by exactly that many records, and both tables only grow at the end.
   */
  lemma {:induction false} MigrateCounts(t: Tables, rows: seq<Row>, parse: string -> Option<Seconds>)
    ensures var (t', n) := MigrateAll(t, rows, parse);
      && n == CountImportable(rows, parse)
      && |t'.attendances| == |t.attendances| + n
      && t'.attendances[..|t.attendances|] == t.attendances
      && |t.users| <= |t'.users| && t'.users[..|t.users|] == t.users
    decreases |rows|
  {
    if rows != [] {
      var init := rows[..|rows| - 1];
      MigrateCounts(t, init, parse);
      RowEffect(MigrateAll(t, init, parse).0, rows[|rows| - 1], parse);
    }
  }

  /** Migration keeps ids consecutive and every record pointing at an existing user. */
  lemma {:induction false} MigrateWellFormed(t: Tables, rows: seq<Row>, parse: string -> Option<Seconds>)
    requires WellFormed(t)
    ensures WellFormed(MigrateAll(t, rows, parse).0)
    decreases |rows|
  {
    if rows != [] {
      var init := rows[..|rows| - 1];
      MigrateWellFormed(t, init, parse);
      var prev := MigrateAll(t, init, parse).0;
      var row := rows[|rows| - 1];
      if Importable(row, parse) {
        var next := MigrateRow(prev, row, parse).0;
        match FindUser(prev.users, row["Nombre"], row["Apellido"])
        case Some(i) =>
          assert next.attendances[|prev.attendances|].userId == i + 1;
        case None =>
          assert next.attendances[|prev.attendances|].userId == |prev.users| + 1;
      }
    }
  }

  /** No two users share the same (first name, last name) pair. */
  ghost predicate NamesDistinct(users: seq<User>) {
    forall i, j :: 0 <= i < j < |users| ==>
      users[i].firstName != users[j].firstName || users[i].lastName != users[j].lastName
  }

  /** Finding before creating keeps user names distinct, across any number of rows. */
  lemma {:induction false} MigrateKeepsNamesDistinct(t: Tables, rows: seq<Row>, parse: string -> Option<Seconds>)
    requires NamesDistinct(t.users)
    ensures NamesDistinct(MigrateAll(t, rows, parse).0.users)
    decreases |rows|
  {
    if rows != [] {
      var init := rows[..|rows| - 1];
      MigrateKeepsNamesDistinct(t, init, parse);
      var prev := MigrateAll(t, init, parse).0;
      var row := rows[|rows| - 1];
      if Importable(row, parse) && FindUser(prev.users, row["Nombre"], row["Apellido"]).None? {
        var users := MigrateRow(prev, row, parse).0.users;
        forall i, j | 0 <= i < j < |users|
          ensures users[i].firstName != users[j].firstName || users[i].lastName != users[j].lastName
        {
          if j == |prev.users| {
            assert !NamedAs(prev.users[i], row["Nombre"], row["Apellido"]);
          }
        }
      }
    }
  }

  /** Every importable row's name pair belongs to some user. */
  ghost predicate NamesPresent(users: seq<User>, rows: seq<Row>, parse: string -> Option<Seconds>) {
    forall k :: 0 <= k < |rows| && Importable(rows[k], parse) ==>
      exists i :: 0 <= i < |users| && NamedAs(users[i], rows[k]["Nombre"], rows[k]["Apellido"])
  }

  /** After a migration every importable row's name pair is in the user table. */
  lemma {:induction false} MigrateCoversNames(t: Tables, rows: seq<Row>, parse: string -> Option<Seconds>)
    ensures NamesPresent(MigrateAll(t, rows, parse).0.users, rows, parse)
    decreases |rows|
  {
    if rows != [] {
      var init := rows[..|rows| - 1];
      MigrateCoversNames(t, init, parse);
      var prev := MigrateAll(t, init, parse).0;
      var row := rows[|rows| - 1];
      var users := MigrateAll(t, rows, parse).0.users;
      RowEffect(prev, row, parse);
      forall k | 0 <= k < |rows| && Importable(rows[k], parse)
        ensures exists i :: 0 <= i < |users| && NamedAs(users[i], rows[k]["Nombre"], rows[k]["Apellido"])
      {
        if k < |init| {
          assert rows[k] == init[k];
          var i :| 0 <= i < |prev.users| && NamedAs(prev.users[i], init[k]["Nombre"], init[k]["Apellido"]);
          assert users[..|prev.users|] == prev.users;
          assert users[i] == prev.users[i];
        } else {
          match FindUser(prev.users, row["Nombre"], row["Apellido"])
          case Some(i) =>
            assert users[i] == prev.users[i];
          case None =>
            assert NamedAs(users[|prev.users|], row["Nombre"], row["Apellido"]);
        }
      }
    }
  }

  /** When every importable row already names a user, the migration creates no user. */
  lemma {:induction false} NoNewUsers(t: Tables, rows: seq<Row>, parse: string -> Option<Seconds>)
    requires NamesPresent(t.users, rows, parse)
    ensures MigrateAll(t, rows, parse).0.users == t.users
    decreases |rows|
  {
    if rows != [] {
      var init := rows[..|rows| - 1];
      forall k | 0 <= k < |init| && Importable(init[k], parse)
        ensures exists i :: 0 <= i < |t.users| && NamedAs(t.users[i], init[k]["Nombre"], init[k]["Apellido"])
      {
        assert init[k] == rows[k];
      }
      NoNewUsers(t, init, parse);
      var row := rows[|rows| - 1];
      if Importable(row, parse) {
        var i :| 0 <= i < |t.users| && NamedAs(t.users[i], row["Nombre"], row["Apellido"]);
        ExistingUserReused(MigrateAll(t, init, parse).0, row, parse, i);
      }
    }
  }

  /** A user matching the names, with no match before it, is the one `first()` returns. */
  lemma FindUserFirstAt(users: seq<User>, first: string, last: string, k: nat)
    requires k < |users| && NamedAs(users[k], first, last)
    requires forall i :: 0 <= i < k ==> !NamedAs(users[i], first, last)
    ensures FindUser(users, first, last) == Some(k)
  {
  }

  /**
   * One row migrated over a user table that extends the users its first
   * migration ended with: no user is added and the same record is appended.
   */
  lemma RerunRow(prev: Tables, row: Row, parse: string -> Option<Seconds>,
                 users: seq<User>, attendances: seq<Attendance>)
    requires var next := MigrateRow(prev, row, parse).0;
      |next.users| <= |users| && users[..|next.users|] == next.users
    ensures var next := MigrateRow(prev, row, parse).0;
      && |prev.attendances| <= |next.attendances|
      && MigrateRow(Tables(users, attendances), row, parse).0
           == Tables(users, attendances + next.attendances[|prev.attendances|..])
  {
    var next := MigrateRow(prev, row, parse).0;
    RowGrows(prev, row, parse);
    assert users[..|prev.users|] == prev.users by {
      assert users[..|prev.users|] == next.users[..|prev.users|];
    }
    if Importable(row, parse) {
      var added := next.attendances[|prev.attendances|];
      assert next.attendances[|prev.attendances|..] == [added];
      match FindUser(prev.users, row["Nombre"], row["Apellido"])
      case Some(i) =>
        FindUserFirstAt(users, row["Nombre"], row["Apellido"], i);
      case None =>
        assert users[|prev.users|] == next.users[|prev.users|];
        FindUserFirstAt(users, row["Nombre"], row["Apellido"], |prev.users|);
    } else {
      assert attendances + next.attendances[|prev.attendances|..] == attendances;
    }
  }

  /**
   * Migrating `rows` over a user table that extends the users an earlier
   * migration of the same rows ended with adds no user and appends, row by
   * row, the very records that earlier migration appended.
   */
  lemma {:induction false} RerunRecords(t: Tables, rows: seq<Row>, parse: string -> Option<Seconds>,
                                        users: seq<User>, attendances: seq<Attendance>)
    requires var m := MigrateAll(t, rows, parse).0;
      |m.users| <= |users| && users[..|m.users|] == m.users
    ensures var m := MigrateAll(t, rows, parse).0;
      MigrateAll(Tables(users, attendances), rows, parse).0
        == Tables(users, attendances + m.attendances[|t.attendances|..])
    decreases |rows|
  {
    if rows == [] {
      assert attendances + t.attendances[|t.attendances|..] == attendances;
    } else {
      var init, row := rows[..|rows| - 1], rows[|rows| - 1];
      var prev := MigrateAll(t, init, parse).0;
      var m := MigrateAll(t, rows, parse).0;
      RowGrows(prev, row, parse);
      assert users[..|prev.users|] == prev.users by {
        assert users[..|prev.users|] == m.users[..|prev.users|];
      }
      RerunRecords(t, init, parse, users, attendances);
      var before := attendances + prev.attendances[|t.attendances|..];
      RerunRow(prev, row, parse, users, before);
      assert m.attendances[|t.attendances|..]
          == prev.attendances[|t.attendances|..] + m.attendances[|prev.attendances|..];
    }
  }

  /**
   * Running the migration again over the same rows creates no user but
   * imports every importable row a second time, as the same records: only
   * users are deduplicated.
   */
  lemma RerunDuplicatesOnlyAttendance(t: Tables, rows: seq<Row>, parse: string -> Option<Seconds>)
    ensures var once := MigrateAll(t, rows, parse);
      var twice := MigrateAll(once.0, rows, parse);
      && twice.0.users == once.0.users
      && twice.1 == once.1
      && |twice.0.attendances| == |once.0.attendances| + CountImportable(rows, parse)
      && twice.0.attendances[..|once.0.attendances|] == once.0.attendances
      && twice.0.attendances[|once.0.attendances|..] == once.0.attendances[|t.attendances|..]
  {
    var once := MigrateAll(t, rows, parse);
    MigrateCounts(t, rows, parse);
    MigrateCounts(once.0, rows, parse);
    RerunRecords(t, rows, parse, once.0.users, once.0.attendances);
  }

  /** Every record a migration adds is open: no check-out, so zero hours. */
  lemma {:induction false} ImportedRecordsOpen(t: Tables, rows: seq<Row>, parse: string -> Option<Seconds>)
    ensures var t' := MigrateAll(t, rows, parse).0;
      forall k :: |t.attendances| <= k < |t'.attendances| ==>
        t'.attendances[k].checkOut.None? && TotalHours(t'.attendances[k]) == 0.0
    decreases |rows|
  {
    if rows != [] {
      var init := rows[..|rows| - 1];
      ImportedRecordsOpen(t, init, parse);
      MigrateCounts(t, init, parse);
      RowEffect(MigrateAll(t, init, parse).0, rows[|rows| - 1], parse);
    }
  }

  /**
   * The session the migration writes through: the committed tables. Rows
   * are added to a pending copy that the final commit publishes or, if the
   * commit fails, the rollback discards.
   */
  class Session {
    var users: seq<User>
    var attendances: seq<Attendance>

    constructor (users0: seq<User>, attendances0: seq<Attendance>)
      ensures users == users0 && attendances == attendances0
    {
      users := users0;
      attendances := attendances0;
    }

    /**
     * `migrate_csv_data`: nothing when there is no file; otherwise the
     * loop over the rows, then commit (or roll back when the commit fails).
     * Returns `migrated_count`.
     */
    method MigrateCsvData(file: Option<seq<Row>>, parse: string -> Option<Seconds>, commitFails: bool)
      returns (migrated: nat)
      modifies this
      ensures file.None? ==> migrated == 0
      ensures file.Some? ==> migrated == MigrateAll(Tables(old(users), old(attendances)), file.value, parse).1
      ensures file.Some? && !commitFails ==>
        Tables(users, attendances) == MigrateAll(Tables(old(users), old(attendances)), file.value, parse).0
      ensures file.None? || commitFails ==> users == old(users) && attendances == old(attendances)
    {
      migrated := 0;
      if file.None? {
        return;
      }
      var rows := file.value;
      var pendingUsers, pendingAttendances := users, attendances;
      for i := 0 to |rows|
        invariant (Tables(pendingUsers, pendingAttendances), migrated)
               == MigrateAll(Tables(users, attendances), rows[..i], parse)
      {
        var row := rows[i];
        if "Timestamp" in row && parse(row["Timestamp"]).Some? && "Nombre" in row && "Apellido" in row {
          var timestamp := parse(row["Timestamp"]).value;
          var found := FindUser(pendingUsers, row["Nombre"], row["Apellido"]);
          var userId;
          if found.None? {
            var user := NewUser(row, |pendingUsers| + 1);
            pendingUsers := pendingUsers + [user];
            userId := user.id;
          } else {
            userId := pendingUsers[found.value].id;
          }
          pendingAttendances := pendingAttendances + [Imported(userId, timestamp, row)];
          migrated := migrated + 1;
        }
        assert rows[..i + 1][..i] == rows[..i];
      }
      assert rows[..|rows|] == rows;
      if !commitFails {
        users, attendances := pendingUsers, pendingAttendances;
      }
    }
  }
}
