/**
  A sequential, map-backed stand-in for the `users` table, and the handlers run
  against it. It gives each store call the answer MySQL would give: an insert
  takes the next auto-increment id, a select by id finds the row or reports no
  rows, a delete reports how many rows it removed, and every call fails while
  the store is unreachable. An update reports the rows it changed, MySQL's
  default and what the service's connection string leaves in place, unless the
  table is set up to count found rows (the driver's clientFoundRows option), in
  which case it reports the rows it matched. Each method answers exactly what the
  pure handler of the Handlers module answers for that outcome.
 */
module Store {
  import opened Wrappers
  import opened Ints
  import opened Users
  import opened Handlers

  const ConnectionLost: string := "driver: bad connection"
  const IdsExhausted: string := "Failed to read auto-increment value from storage engine"

  /** INSERT: the next auto-increment id, reported through LastInsertId as an
      int64, so ids from 2^63 on arrive negative. */
  function InsertResult(available: bool, nextId: int): (e: ExecResult)
    requires 1 <= nextId <= TWO_TO_THE_64
    ensures e.Executed? <==> available && nextId < TWO_TO_THE_64
    ensures e.Executed? ==> ToUint64(e.lastInsertId) == nextId && e.rowsAffected == 1
  {
    if !available then ExecFailed(ConnectionLost)
    else if nextId == TWO_TO_THE_64 then ExecFailed(IdsExhausted)
    else
      ConversionsRoundTrip(nextId, 0);
      Executed(ToInt64(nextId), 1)
  }

  /** SELECT ... WHERE id = ?: the row with that id, or no rows. */
  function SelectResult(available: bool, rows: map<int, User>, id: Int): (e: RowResult)
    ensures e.Found? <==> available && id in rows
    ensures e.Found? ==> e.user == rows[id]
    ensures e.NoRows? <==> available && id !in rows
  {
    if !available then RowFailed(ConnectionLost)
    else if id in rows then Found(rows[id])
    else NoRows
  }

  /** How many rows UPDATE ... WHERE id = ? matches. */
  function MatchedRows(rows: map<int, User>, id: Int): nat {
    if id in rows then 1 else 0
  }

  /** How many rows UPDATE ... WHERE id = ? changes: MySQL's default meaning of
      RowsAffected, which the driver keeps unless the connection asks for
      found rows. A row rewritten with the values it already holds is not counted. */
  function ChangedRows(rows: map<int, User>, id: Int, name: string, email: string, age: Uint64): nat {
    if id in rows && (rows[id].name != name || rows[id].email != email || rows[id].age != age) then 1 else 0
  }

  /** UPDATE: the rows it matched when the connection counts found rows, and
      otherwise the rows it changed. */
  function UpdateResult(available: bool, foundRows: bool, rows: map<int, User>, id: Int,
                        name: string, email: string, age: Uint64): (e: ExecResult)
    ensures e.Executed? <==> available
    ensures e.Executed? ==>
      (e.rowsAffected == 0 <==>
         id !in rows
         || (!foundRows && rows[id].name == name && rows[id].email == email && rows[id].age == age))
  {
    if !available then ExecFailed(ConnectionLost)
    else if foundRows then Executed(0, MatchedRows(rows, id))
    else Executed(0, ChangedRows(rows, id, name, email, age))
  }

  /** DELETE ... WHERE id = ?, reporting the rows it removed. */
  function DeleteResult(available: bool, rows: map<int, User>, id: Int): (e: ExecResult)
    ensures e.Executed? <==> available
    ensures e.Executed? ==> (e.rowsAffected == 0 <==> id !in rows)
  {
    if !available then ExecFailed(ConnectionLost) else Executed(0, if id in rows then 1 else 0)
  }

  /** The users whose ids are below `n`, in ascending id order. */
  function UsersInIdOrder(rows: map<int, User>, n: nat): seq<User> {
    if n == 0 then []
    else UsersInIdOrder(rows, n - 1) + (if n - 1 in rows then [rows[n - 1]] else [])
  }

  /** When every row holds its own id, the listing is sorted by id and holds
      each stored user below `n` and nothing else. */
  lemma {:induction false} UsersInIdOrderExact(rows: map<int, User>, n: nat)
    requires forall k | k in rows :: rows[k].id == k
    ensures forall i, j | 0 <= i < j < |UsersInIdOrder(rows, n)| ::
      UsersInIdOrder(rows, n)[i].id < UsersInIdOrder(rows, n)[j].id
    ensures forall i | 0 <= i < |UsersInIdOrder(rows, n)| ::
      var u := UsersInIdOrder(rows, n)[i]; u.id < n && u.id in rows && rows[u.id] == u
    ensures forall k | k in rows && 0 <= k < n :: rows[k] in UsersInIdOrder(rows, n)
  {
    if n > 0 {
      UsersInIdOrderExact(rows, n - 1);
    }
  }

  class UserTable {
    var rows: map<int, User>
    var nextId: int
    const available: bool
    const foundRows: bool

    /** Every row sits under its own id, ids come from the auto-increment
        counter, and every stored user passed validation. */
    ghost predicate Valid()
      reads this
    {
      && 1 <= nextId <= TWO_TO_THE_64
      && forall k | k in rows :: 1 <= k < nextId && rows[k].id == k && UserIsValid(rows[k])
    }

    constructor (available: bool, foundRows: bool)
      ensures Valid() && rows == map[] && nextId == 1
      ensures this.available == available && this.foundRows == foundRows
    {
      rows := map[];
      nextId := 1;
      this.available := available;
      this.foundRows := foundRows;
    }

    /** POST /users against the table: a row is added exactly when the answer is 201. */
    method Create(body: Option<User>) returns (r: Response)
      requires Valid()
      modifies this`rows, this`nextId
      ensures Valid()
      ensures r == CreateUser(body, InsertResult(available, old(nextId)))
      ensures r.status == StatusCreated ==>
        && r.body.user.id == old(nextId)
        && rows == old(rows)[old(nextId) := r.body.user]
        && nextId == old(nextId) + 1
      ensures r.status != StatusCreated ==> rows == old(rows) && nextId == old(nextId)
    {
      var step := CreateStep(body);
      if step.Reply? {
        return step.response;
      }
      assert UserIsValid(body.value);
      var exec := InsertResult(available, nextId);
      r := CreateUser(body, exec);
      if exec.Executed? {
        AddRow(body.value.(id := nextId));
      }
    }

    /** The row write of INSERT: the user under the next id, and the counter advanced. */
    method AddRow(u: User)
      requires Valid() && u.id == nextId && UserIsValid(u)
      modifies this`rows, this`nextId
      ensures Valid()
      ensures rows == old(rows)[old(nextId) := u] && nextId == old(nextId) + 1
    {
      rows := rows[nextId := u];
      nextId := nextId + 1;
    }

    /** GET /users against the table: every stored user, in id order. */
    method List() returns (r: Response)
      requires Valid()
      ensures available ==> r == Response(StatusOK, UserList(UsersInIdOrder(rows, nextId)))
      ensures !available ==> r == Response(StatusInternalServerError, Message(ListFailed))
    {
      if !available {
        r := GetUsers(QueryFailed(ConnectionLost));
        return;
      }
      var scans: seq<Scan> := [];
      var k := 0;
      while k < nextId
        invariant 0 <= k <= nextId
        invariant ScannedUsers(scans) == UsersInIdOrder(rows, k)
      {
        if k in rows {
          ScannedUsersAppend(scans, [Scanned(rows[k])]);
          scans := scans + [Scanned(rows[k])];
        }
        k := k + 1;
      }
      r := GetUsers(Cursor(scans, None));
    }

    /** GET /users/{id} against the table. */
    method Get(segment: string) returns (r: Response)
      requires Valid()
      ensures GetStep(segment).Reply? ==> r == GetStep(segment).response
      ensures GetStep(segment).Call? ==>
        r == GetUser(segment, SelectResult(available, rows, GetStep(segment).command.id))
    {
      var step := GetStep(segment);
      if step.Reply? {
        return step.response;
      }
      r := GetUser(segment, SelectResult(available, rows, step.command.id));
    }

    /** PUT /users/{id} against the table: name, email and age of the matched
        row are overwritten; its id never changes and no row is created. */
    method Update(segment: string, body: Option<User>) returns (r: Response)
      requires Valid()
      modifies this`rows
      ensures Valid()
      ensures UpdateStep(segment, body).Reply? ==> r == UpdateStep(segment, body).response && rows == old(rows)
      ensures UpdateStep(segment, body).Call? ==>
        var c := UpdateStep(segment, body).command;
        && r == UpdateUser(segment, body, UpdateResult(available, foundRows, old(rows), c.id, c.name, c.email, c.age))
        && rows == if available && c.id in old(rows)
                   then old(rows)[c.id := old(rows)[c.id].(name := c.name, email := c.email, age := c.age)]
                   else old(rows)
    {
      var step := UpdateStep(segment, body);
      if step.Reply? {
        return step.response;
      }
      var c := step.command;
      assert UserIsValid(User(0, c.name, c.email, c.age)) by {
        assert UserIsValid(body.value);
      }
      r := UpdateUser(segment, body, UpdateResult(available, foundRows, rows, c.id, c.name, c.email, c.age));
      if available && c.id in rows {
        Overwrite(c.id, c.name, c.email, c.age);
      }
    }

    /** The row write of UPDATE: name, email and age of the row with that id. */
    method Overwrite(id: int, name: string, email: string, age: Uint64)
      requires Valid() && id in rows && UserIsValid(User(0, name, email, age))
      modifies this`rows
      ensures Valid()
      ensures rows == old(rows)[id := old(rows)[id].(name := name, email := email, age := age)]
    {
      rows := rows[id := rows[id].(name := name, email := email, age := age)];
    }

    /** DELETE /users/{id} against the table. */
    method Delete(segment: string) returns (r: Response)
      requires Valid()
      modifies this`rows
      ensures Valid()
      ensures DeleteStep(segment).Reply? ==> r == DeleteStep(segment).response && rows == old(rows)
      ensures DeleteStep(segment).Call? ==>
        var id := DeleteStep(segment).command.id;
        && r == DeleteUser(segment, DeleteResult(available, old(rows), id))
        && rows == if available then old(rows) - {id} else old(rows)
    {
      var step := DeleteStep(segment);
      if step.Reply? {
        return step.response;
      }
      var id := step.command.id;
      var exec := DeleteResult(available, rows, id);
      if available {
        rows := rows - {id};
      }
      r := DeleteUser(segment, exec);
    }

    /** GET /health against the table: decided by reachability alone, never by
        what earlier requests did to the rows. */
    method Health() returns (r: Response)
      ensures r == HealthCheck(if available then Reachable else Unreachable(ConnectionLost))
    {
      r := HealthCheck(if available then Reachable else Unreachable(ConnectionLost));
    }
  }

  /** A stored list holds every row exactly once, sorted by id; an empty table lists as []. */
  method ListAll(t: UserTable) returns (r: Response)
    requires t.Valid() && t.available
    ensures r.status == StatusOK && r.body.UserList?
    ensures forall i, j | 0 <= i < j < |r.body.users| :: r.body.users[i].id < r.body.users[j].id
    ensures forall u | u in r.body.users :: u.id in t.rows && t.rows[u.id] == u
    ensures forall k | k in t.rows :: t.rows[k] in r.body.users
    ensures t.rows == map[] ==> r.body.users == []
  {
    r := t.List();
    UsersInIdOrderExact(t.rows, t.nextId);
    assert r.body.users != [] ==> r.body.users[0] in r.body.users;
  }

  /** A created user can be read back: its id is positive, and GET with that id
      answers 200 with the very user the create answered. */
  method CreateThenGet(t: UserTable, u: User) returns (created: Response, fetched: Response)
    requires t.Valid() && t.available && UserIsValid(u) && t.nextId <= MAX_INT
    modifies t
    ensures t.Valid()
    ensures created.status == StatusCreated && created.body.OneUser?
    ensures created.body.user == u.(id := created.body.user.id) && created.body.user.id > 0
    ensures fetched == Response(StatusOK, created.body)
  {
    created := t.Create(Some(u));
    var id: Int := created.body.user.id;
    ParseIdAcceptsEveryInt(id);
    fetched := t.Get(Itoa(id));
  }

  /** Deleting the same id twice answers 204 and then 404. */
  method DeleteTwice(t: UserTable, segment: string) returns (first: Response, second: Response)
    requires t.Valid() && t.available
    requires Atoi(segment).Some? && Atoi(segment).value in t.rows
    modifies t
    ensures t.Valid() && t.rows == old(t.rows) - {Atoi(segment).value}
    ensures first == Response(StatusNoContent, NoBody)
    ensures second == Response(StatusNotFound, Message(UserNotFound))
  {
    first := t.Delete(segment);
    second := t.Delete(segment);
  }

  /** With MySQL's default count of changed rows, a PUT that rewrites an
      existing user with the values it already holds is answered 404, as if
      the user did not exist. */
  lemma UnchangedUpdateReadsAsMissing(rows: map<int, User>, segment: string, u: User)
    requires Atoi(segment).Some? && Atoi(segment).value in rows && UserIsValid(u)
    requires var old_ := rows[Atoi(segment).value]; old_.name == u.name && old_.email == u.email && old_.age == u.age
    ensures UpdateUser(segment, Some(u), UpdateResult(true, false, rows, Atoi(segment).value, u.name, u.email, u.age))
      == Response(StatusNotFound, Message(UserNotFound))
  {
  }

  /** With the matched-rows count the handler relies on, a valid PUT is
      answered 404 exactly when no row has the id, and 200 exactly when one does. */
  lemma UpdateNotFoundIffMissing(rows: map<int, User>, segment: string, u: User)
    requires Atoi(segment).Some? && UserIsValid(u)
    ensures var r := UpdateUser(segment, Some(u), UpdateResult(true, true, rows, Atoi(segment).value, u.name, u.email, u.age));
      && (r.status == StatusNotFound <==> Atoi(segment).value !in rows)
      && (r.status == StatusOK <==> Atoi(segment).value in rows)
  {
  }

  /** An update is visible to the next read: after a PUT on a stored id, GET
      with that id returns the body's fields under the path id. The PUT itself
      answers 200 with that user when the table counts found rows or the body
      changes something; with the changed-rows count, a PUT that repeats the
      stored values answers 404 although the row is there. */
  method UpdateThenGet(t: UserTable, segment: string, u: User) returns (updated: Response, fetched: Response)
    requires t.Valid() && t.available && UserIsValid(u)
    requires Atoi(segment).Some? && Atoi(segment).value in t.rows
    modifies t
    ensures t.Valid()
    ensures fetched == Response(StatusOK, OneUser(u.(id := Atoi(segment).value)))
    ensures var stored := old(t.rows)[Atoi(segment).value];
      if t.foundRows || stored.name != u.name || stored.email != u.email || stored.age != u.age
      then updated == fetched
      else updated == Response(StatusNotFound, Message(UserNotFound))
  {
    updated := t.Update(segment, Some(u));
    fetched := t.Get(segment);
  }

  /** An update of an id no row has answers 404 and creates nothing. */
  method UpdateMissing(t: UserTable, segment: string, u: User) returns (r: Response)
    requires t.Valid() && t.available && UserIsValid(u)
    requires Atoi(segment).Some? && Atoi(segment).value !in t.rows
    modifies t
    ensures t.Valid() && t.rows == old(t.rows) && t.nextId == old(t.nextId)
    ensures r == Response(StatusNotFound, Message(UserNotFound))
  {
    r := t.Update(segment, Some(u));
  }
}
