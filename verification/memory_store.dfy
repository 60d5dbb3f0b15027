/** The in-memory demo database (`InMemoryDatabase` and the query builder
    that goes with it): a map from table names to lists of rows, equality
    filters, insert and update, and a list of sign-up users. Fresh ids and
    timestamps are parameters. */
module MemoryStore {
  import opened Results
  import opened Rows

  /** One signed-up user. */
  datatype AuthUser = AuthUser(id: string, email: string, password: string, createdAt: Value, updatedAt: Value)

  datatype Db = Db(tables: map<string, seq<Record>>, authUsers: seq<AuthUser>)

  /** The six tables the store starts with, all empty, and no users. */
  function InitialDb(): (db: Db)
    ensures forall t :: t in db.tables <==> t in ["users", "tenants", "documents", "document_embeddings", "conversations", "messages"]
    ensures forall t :: t in db.tables ==> db.tables[t] == []
    ensures db.authUsers == []
  {
    Db(map["users" := [], "tenants" := [], "documents" := [], "document_embeddings" := [],
           "conversations" := [], "messages" := []], [])
  }

  // ---------------------------------------------------------------------
  // Queries

  /** The builder: `select` is accepted and ignored, so it leaves no trace.
      An empty `insertData` or `updateData` stands for both `None` and `{}`. */
  datatype MemQuery = MemQuery(table: string, filters: seq<(string, Value)>, insertData: Record, updateData: Record)

  function NewMemQuery(table: string): MemQuery {
    MemQuery(table, [], [], [])
  }

  function Eq(q: MemQuery, field: string, value: Value): MemQuery {
    q.(filters := q.filters + [(field, value)])
  }

  function Insert(q: MemQuery, data: Record): MemQuery {
    q.(insertData := data)
  }

  function Update(q: MemQuery, data: Record): MemQuery {
    q.(updateData := data)
  }

  /** A row passes when `row.get(field) == value` for every filter; a
      missing field reads as `None`. */
  predicate Matches(row: Record, filters: seq<(string, Value)>) {
    forall j :: 0 <= j < |filters| ==> Get(row, filters[j].0) == filters[j].1
  }

  /** The rows that pass every filter, in table order. */
  function Matching(rows: seq<Record>, filters: seq<(string, Value)>): (r: seq<Record>)
    ensures |r| <= |rows|
  {
    if |rows| == 0 then []
    else (if Matches(rows[0], filters) then [rows[0]] else []) + Matching(rows[1..], filters)
  }

  /** A row is in the answer exactly when it is in the table and passes
      every filter. */
  lemma {:induction false} MatchingMembers(rows: seq<Record>, filters: seq<(string, Value)>, x: Record)
    ensures x in Matching(rows, filters) <==> x in rows && Matches(x, filters)
    decreases |rows|
  {
    if |rows| > 0 {
      MatchingMembers(rows[1..], filters, x);
      assert x in rows <==> x == rows[0] || x in rows[1..];
    }
  }

  /** A new row: the data's own entries, then `id`, `created_at` and
      `updated_at` each added only when absent. */
  function Stamped(data: Record, newId: string, createdAt: Value, updatedAt: Value): Record {
    AddMissing(AddMissing(AddMissing(data, "id", Str(newId)), "created_at", createdAt), "updated_at", updatedAt)
  }

  /** `if k not in r: r[k] = v`. */
  function AddMissing(r: Record, k: string, v: Value): Record {
    if HasKey(r, k) then r else r + [(k, v)]
  }

  /** `for key, value in data.items(): item[key] = value`. */
  function ApplyAll(row: Record, data: Record): Record
    decreases |data|
  {
    if |data| == 0 then row else ApplyAll(SetKey(row, data[0].0, data[0].1), data[1..])
  }

  /** One matched row after `update`: the data's entries, then a fresh `updated_at`. */
  function Updated(row: Record, data: Record, now: Value): Record {
    SetKey(ApplyAll(row, data), "updated_at", now)
  }

  /** The table after `update`: matched rows updated in place, others unchanged. */
  function UpdateRows(rows: seq<Record>, filters: seq<(string, Value)>, data: Record, now: Value): (r: seq<Record>)
    ensures |r| == |rows|
    ensures forall i :: 0 <= i < |rows| ==> r[i] == if Matches(rows[i], filters) then Updated(rows[i], data, now) else rows[i]
  {
    seq(|rows|, i requires 0 <= i < |rows| => if Matches(rows[i], filters) then Updated(rows[i], data, now) else rows[i])
  }

  function UpdatedAll(rows: seq<Record>, data: Record, now: Value): (r: seq<Record>)
    ensures |r| == |rows| && forall i :: 0 <= i < |rows| ==> r[i] == Updated(rows[i], data, now)
  {
    seq(|rows|, i requires 0 <= i < |rows| => Updated(rows[i], data, now))
  }

  /** What `execute` leaves behind and answers. */
  datatype Outcome = Outcome(db: Db, data: seq<Record>)

  /** `tables[name]` of a table that does not exist. */
  const NoSuchTable: string := "KeyError"

  /** `execute`: insert when there is insert data, else update when there
      is update data, else a filtered read. */
  function Execute(db: Db, q: MemQuery, newId: string, createdAt: Value, updatedAt: Value, now: Value): (r: Result<Outcome, string>)
    ensures r.Err? <==> q.table !in db.tables
    ensures r.Ok? ==> r.value.db.authUsers == db.authUsers
    ensures r.Ok? ==> r.value.db.tables.Keys == db.tables.Keys
  {
    if q.table !in db.tables then Err(NoSuchTable)
    else
      var rows := db.tables[q.table];
      if |q.insertData| > 0 then
        var row := Stamped(q.insertData, newId, createdAt, updatedAt);
        Ok(Outcome(db.(tables := db.tables[q.table := rows + [row]]), [row]))
      else if |q.updateData| > 0 then
        Ok(Outcome(db.(tables := db.tables[q.table := UpdateRows(rows, q.filters, q.updateData, now)]),
                   UpdatedAll(Matching(rows, q.filters), q.updateData, now)))
      else Ok(Outcome(db, Matching(rows, q.filters)))
  }

  // ---------------------------------------------------------------------
  // Auth

  /** `auth_sign_up`: a new user is appended, even when the email is taken.
      The two timestamps are two separate clock reads. */
  function SignUp(db: Db, email: string, password: string, newId: string, createdAt: Value, updatedAt: Value): (r: (Db, AuthUser))
    ensures r.0.authUsers == db.authUsers + [r.1] && r.0.tables == db.tables
    ensures r.1 == AuthUser(newId, email, password, createdAt, updatedAt)
  {
    var user := AuthUser(newId, email, password, createdAt, updatedAt);
    (db.(authUsers := db.authUsers + [user]), user)
  }

  /** `auth_sign_in`: the first user whose email and password both match. */
  function SignIn(users: seq<AuthUser>, email: string, password: string): (r: Option<AuthUser>)
    ensures r.None? <==> forall u :: u in users ==> !(u.email == email && u.password == password)
    ensures r.Some? ==> exists i :: (0 <= i < |users| && users[i] == r.value
      && r.value.email == email && r.value.password == password
      && forall j :: 0 <= j < i ==> !(users[j].email == email && users[j].password == password))
  {
    if |users| == 0 then None
    else if users[0].email == email && users[0].password == password then Some(users[0])
    else
      var r := SignIn(users[1..], email, password);
      if r.Some? then
        var i :| 0 <= i < |users[1..]| && users[1..][i] == r.value && r.value.email == email && r.value.password == password
          && forall j :: 0 <= j < i ==> !(users[1..][j].email == email && users[1..][j].password == password);
        assert users[i + 1] == r.value;
        assert forall j :: 0 <= j < i + 1 ==> !(users[j].email == email && users[j].password == password) by {
          forall j | 0 <= j < i + 1 ensures !(users[j].email == email && users[j].password == password) {
            if j > 0 { assert users[j] == users[1..][j - 1]; }
          }
        }
        r
      else
        assert forall u :: u in users ==> u == users[0] || u in users[1..];
        r
  }

  // ---------------------------------------------------------------------
  // Facts

  /** Insert appends exactly one row to the named table, answers just that
      row, and leaves every other table alone; the data's own entries come
      first and nothing they already carry is overwritten. */
  lemma InsertAppends(db: Db, q: MemQuery, newId: string, createdAt: Value, updatedAt: Value, now: Value)
    requires q.table in db.tables && |q.insertData| > 0
    ensures var r := Execute(db, q, newId, createdAt, updatedAt, now);
      var row := Stamped(q.insertData, newId, createdAt, updatedAt);
      && r.Ok?
      && r.value.db.tables[q.table] == db.tables[q.table] + [row]
      && (forall t :: t in db.tables && t != q.table ==> r.value.db.tables[t] == db.tables[t])
      && r.value.data == [row]
  {
  }

  /** The stamped row keeps the data as its prefix and adds each of `id`,
      `created_at` and `updated_at` only when the data lacks it. */
  lemma StampedEntries(data: Record, newId: string, createdAt: Value, updatedAt: Value)
    ensures var row := Stamped(data, newId, createdAt, updatedAt);
      && |data| <= |row| <= |data| + 3
      && row[..|data|] == data
      && Get(row, "id") == (if HasKey(data, "id") then Get(data, "id") else Str(newId))
      && Get(row, "created_at") == (if HasKey(data, "created_at") then Get(data, "created_at") else createdAt)
      && Get(row, "updated_at") == (if HasKey(data, "updated_at") then Get(data, "updated_at") else updatedAt)
      && (HasKey(data, "id") && HasKey(data, "created_at") && HasKey(data, "updated_at") ==> row == data)
  {
    var r1 := AddMissing(data, "id", Str(newId));
    var r2 := AddMissing(r1, "created_at", createdAt);
    var r3 := AddMissing(r2, "updated_at", updatedAt);
    StampKey(data, r1, r2, r3, "id", Str(newId), createdAt, updatedAt);
    StampKey(data, r1, r2, r3, "created_at", Str(newId), createdAt, updatedAt);
    StampKey(data, r1, r2, r3, "updated_at", Str(newId), createdAt, updatedAt);
    assert r3[..|r2|] == r2 && r2[..|r1|] == r1 && r1[..|data|] == data;
    assert r3[..|data|] == r2[..|r1|][..|data|];
  }

  /** How one key reads after the three stamps. */
  lemma StampKey(data: Record, r1: Record, r2: Record, r3: Record, x: string,
                 id: Value, createdAt: Value, updatedAt: Value)
    requires r1 == AddMissing(data, "id", id)
    requires r2 == AddMissing(r1, "created_at", createdAt)
    requires r3 == AddMissing(r2, "updated_at", updatedAt)
    ensures Get(r3, x) == if HasKey(data, x) then Get(data, x)
                          else if x == "id" then id else if x == "created_at" then createdAt
                          else if x == "updated_at" then updatedAt else Null
  {
    AddMissingGet(data, "id", id, x);
    AddMissingGet(r1, "created_at", createdAt, x);
    AddMissingGet(r2, "updated_at", updatedAt, x);
  }

  /** Adding a missing key makes it read as the new value and leaves every
      other key as it was; the old entries stay in front. */
  lemma AddMissingGet(r: Record, k: string, v: Value, x: string)
    ensures var s := AddMissing(r, k, v);
      && |r| <= |s| <= |r| + 1 && s[..|r|] == r
      && (HasKey(s, x) <==> HasKey(r, x) || x == k)
      && Get(s, x) == if x == k && !HasKey(r, k) then v else Get(r, x)
  {
    if !HasKey(r, k) {
      AppendGet(r, k, v, x);
    }
  }

  /** Appending an entry for an absent key `k` makes `k` read as its value
      and leaves every other key as it was. */
  lemma AppendGet(r: Record, k: string, v: Value, x: string)
    requires !HasKey(r, k)
    ensures HasKey(r + [(k, v)], x) <==> HasKey(r, x) || x == k
    ensures Get(r + [(k, v)], x) == if x == k then v else Get(r, x)
  {
    var s := SetKey(r, k, v);
    assert s == r + [(k, v)];
  }

  /** Without insert or update data, `execute` is a read: the store is
      unchanged and the answer is the matching rows in table order. */
  lemma ReadMatches(db: Db, q: MemQuery, newId: string, createdAt: Value, updatedAt: Value, now: Value)
    requires q.table in db.tables && |q.insertData| == 0 && |q.updateData| == 0
    ensures Execute(db, q, newId, createdAt, updatedAt, now) == Ok(Outcome(db, Matching(db.tables[q.table], q.filters)))
  {
  }

  /** With no filters every row matches. */
  lemma {:induction false} MatchingAll(rows: seq<Record>)
    ensures Matching(rows, []) == rows
    decreases |rows|
  {
    if |rows| > 0 {
      MatchingAll(rows[1..]);
      assert rows == [rows[0]] + rows[1..];
    }
  }

  /** Filtering distributes over concatenation, so table order is kept. */
  lemma {:induction false} MatchingAppend(a: seq<Record>, b: seq<Record>, filters: seq<(string, Value)>)
    ensures Matching(a + b, filters) == Matching(a, filters) + Matching(b, filters)
    decreases |a|
  {
    if |a| == 0 {
      assert a + b == b;
    } else {
      var h := if Matches(a[0], filters) then [a[0]] else [];
      var m, n := Matching(a[1..], filters), Matching(b, filters);
      assert Matching(a + b, filters) == h + Matching(a[1..] + b, filters) by {
        assert (a + b)[0] == a[0];
        assert (a + b)[1..] == a[1..] + b;
      }
      assert Matching(a[1..] + b, filters) == m + n by { MatchingAppend(a[1..], b, filters); }
      assert Matching(a, filters) == h + m;
      assert h + (m + n) == (h + m) + n;
    }
  }

  /** Update touches only the rows that match every filter, leaves the rest
      as they were, and answers the matched rows after the update. */
  lemma UpdateOnlyMatching(db: Db, q: MemQuery, newId: string, createdAt: Value, updatedAt: Value, now: Value)
    requires q.table in db.tables && |q.insertData| == 0 && |q.updateData| > 0
    ensures var r := Execute(db, q, newId, createdAt, updatedAt, now);
      var rows := db.tables[q.table];
      && r.Ok?
      && |r.value.db.tables[q.table]| == |rows|
      && (forall i :: 0 <= i < |rows| && !Matches(rows[i], q.filters) ==> r.value.db.tables[q.table][i] == rows[i])
      && (forall i :: 0 <= i < |rows| && Matches(rows[i], q.filters) ==>
            r.value.db.tables[q.table][i] == Updated(rows[i], q.updateData, now))
      && (forall t :: t in db.tables && t != q.table ==> r.value.db.tables[t] == db.tables[t])
      && r.value.data == UpdatedAll(Matching(rows, q.filters), q.updateData, now)
  {
  }

  /** With no filters, update rewrites every row of the table. */
  lemma UpdateWithoutFilters(db: Db, q: MemQuery, newId: string, createdAt: Value, updatedAt: Value, now: Value)
    requires q.table in db.tables && |q.insertData| == 0 && |q.updateData| > 0 && q.filters == []
    ensures var r := Execute(db, q, newId, createdAt, updatedAt, now);
      r.Ok? && r.value.db.tables[q.table] == UpdatedAll(db.tables[q.table], q.updateData, now)
  {
    var rows := db.tables[q.table];
    assert UpdateRows(rows, [], q.updateData, now) == UpdatedAll(rows, q.updateData, now);
  }

  /** An updated row reads the data's value for each of the data's keys, a
      fresh `updated_at`, and its old value for every other key. */
  lemma UpdatedReads(row: Record, data: Record, now: Value, k: string)
    requires UniqueKeys(data)
    ensures Get(Updated(row, data, now), k) ==
      if k == "updated_at" then now else if HasKey(data, k) then Get(data, k) else Get(row, k)
  {
    ApplyAllGet(row, data, k);
  }

  lemma {:induction false} ApplyAllGet(row: Record, data: Record, k: string)
    requires UniqueKeys(data)
    ensures Get(ApplyAll(row, data), k) == if HasKey(data, k) then Get(data, k) else Get(row, k)
    decreases |data|
  {
    if |data| > 0 {
      var h, rest := data[0], data[1..];
      assert data == [h] + rest;
      HasKeyCons(h, rest, k);
      GetCons(h, rest, k);
      ApplyAllGet(SetKey(row, h.0, h.1), rest, k);
      if h.0 == k {
        forall i | 0 <= i < |rest| ensures rest[i].0 != k {
          assert rest[i] == data[i + 1];
        }
      }
    }
  }

  /** Insert data wins over update data: with both set, the update is
      never applied. */
  lemma InsertWins(db: Db, q: MemQuery, newId: string, createdAt: Value, updatedAt: Value, now: Value)
    requires |q.insertData| > 0 && |q.updateData| > 0
    ensures Execute(db, q, newId, createdAt, updatedAt, now)
         == Execute(db, q.(updateData := []), newId, createdAt, updatedAt, now)
  {
  }

  /** Sign-in over a list with one more user at the end: an earlier match
      still wins, and the new user answers only when nobody before did. */
  lemma {:induction false} SignInAppend(users: seq<AuthUser>, u: AuthUser, email: string, password: string)
    ensures SignIn(users + [u], email, password) ==
      if SignIn(users, email, password).Some? then SignIn(users, email, password)
      else if u.email == email && u.password == password then Some(u)
      else None
  {
    if |users| == 0 {
      assert users + [u] == [u];
      assert [u][1..] == [];
    } else {
      assert (users + [u])[1..] == users[1..] + [u];
      SignInAppend(users[1..], u, email, password);
    }
  }

  /** A fresh store: a query fails exactly on a table outside the six,
      reads and updates find nothing, and an insert leaves one row. */
  lemma InitialQueries(q: MemQuery, newId: string, createdAt: Value, updatedAt: Value, now: Value)
    ensures var r := Execute(InitialDb(), q, newId, createdAt, updatedAt, now);
      && (r.Err? <==> q.table !in ["users", "tenants", "documents", "document_embeddings", "conversations", "messages"])
      && (r.Ok? && |q.insertData| == 0 ==> r.value.data == [] && r.value.db == InitialDb())
      && (r.Ok? && |q.insertData| > 0 ==> |r.value.data| == 1 && r.value.db.tables[q.table] == r.value.data)
  {
    var db := InitialDb();
    if q.table in db.tables {
      assert Matching([], q.filters) == [];
      assert UpdateRows([], q.filters, q.updateData, now) == [];
      assert db.tables[q.table := []] == db.tables;
    }
  }

  /** Signing in right after signing up: the user just created answers
      exactly when no earlier user has the same email and password. */
  lemma SignUpThenSignIn(db: Db, email: string, password: string, newId: string, createdAt: Value, updatedAt: Value)
    ensures var (db1, u) := SignUp(db, email, password, newId, createdAt, updatedAt);
      && (SignIn(db.authUsers, email, password).None? ==> SignIn(db1.authUsers, email, password) == Some(u))
      && (SignIn(db.authUsers, email, password).Some? ==> SignIn(db1.authUsers, email, password) == SignIn(db.authUsers, email, password))
      && SignIn(db1.authUsers, email, password).Some?
  {
    var (db1, u) := SignUp(db, email, password, newId, createdAt, updatedAt);
    SignInAppend(db.authUsers, u, email, password);
  }

  /** Signing up twice with one email keeps both users, and sign-in finds
      the earlier one when the passwords agree. */
  lemma DuplicateSignUp(db: Db, email: string, password: string, id1: string, id2: string, createdAt: Value, updatedAt: Value)
    requires forall u :: u in db.authUsers ==> u.email != email
    ensures var (db1, u1) := SignUp(db, email, password, id1, createdAt, updatedAt);
      var (db2, u2) := SignUp(db1, email, password, id2, createdAt, updatedAt);
      && |db2.authUsers| == |db.authUsers| + 2
      && db2.authUsers[|db.authUsers|].email == db2.authUsers[|db.authUsers| + 1].email == email
      && SignIn(db2.authUsers, email, password) == Some(u1)
  {
    var (db1, u1) := SignUp(db, email, password, id1, createdAt, updatedAt);
    var (db2, u2) := SignUp(db1, email, password, id2, createdAt, updatedAt);
    var n := |db.authUsers|;
    assert db2.authUsers[n] == u1;
    var r := SignIn(db2.authUsers, email, password);
    var i :| 0 <= i < |db2.authUsers| && db2.authUsers[i] == r.value
      && r.value.email == email && r.value.password == password
      && forall j :: 0 <= j < i ==> !(db2.authUsers[j].email == email && db2.authUsers[j].password == password);
    assert i <= n;
  }
}
