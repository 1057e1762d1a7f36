/**
  The request handlers of the user service. Each handler with an id or a body
  first runs its checks in a fixed order (parse the id, decode the body,
  validate the user); the Step function says whether it answers at once or
  which statement it sends to the store. The handler function then maps the
  store's outcome to one status code and body. JSON decoding and the store are
  outside the model: a decoded body arrives as an Option<User>, and every store
  answer arrives as a value of one of the outcome types below.
 */
module Handlers {
  import opened Wrappers
  import opened Ints
  import opened Users

  const StatusOK: int := 200
  const StatusCreated: int := 201
  const StatusNoContent: int := 204
  const StatusBadRequest: int := 400
  const StatusNotFound: int := 404
  const StatusInternalServerError: int := 500
  const StatusServiceUnavailable: int := 503

  const InvalidId: string := "Invalid ID"
  const MalformedCreateBody: string := "잘못된 요청 형식입니다."
  const MalformedUpdateBody: string := "잘못된 요청 형식입니다"
  const CreateFailed: string := "유저 생성에 실패했습니다."
  const ListFailed: string := "유저 목록 조회에 실패했습니다"
  const IterationFailed: string := "데이터 처리 중 오류가 발생했습니다"
  const UserNotFound: string := "유저를 찾을 수 없습니다"
  const GetFailed: string := "유저 조회에 실패했습니다"
  const UpdateFailed: string := "유저 업데이트에 실패했습니다"
  const DeleteFailed: string := "유저 삭제에 실패했습니다"
  const HealthOK: string := "OK"
  const HealthDown: string := "DB_UNAVAILABLE"

  /** Every text a handler can put in a plain-text error body. None of them is
      built from what the store reported. */
  const ClientMessages: set<string> := {
    InvalidId, MalformedCreateBody, MalformedUpdateBody, CreateFailed, ListFailed,
    IterationFailed, UserNotFound, GetFailed, UpdateFailed, DeleteFailed,
    NameRequired, EmailRequired, EmailMalformed
  }

  datatype Body =
    | Message(text: string)          // http.Error: a plain-text message
    | OneUser(user: User)            // writeJSON of one User
    | UserList(users: seq<User>)     // writeJSON of a []User (an empty list, never null)
    | HealthStatus(status: string)   // writeJSON of {"status": ...}
    | NoBody                         // a bare WriteHeader

  datatype Response = Response(status: int, body: Body)

  /** writeJSON: the status code and the value to encode. */
  function WriteJSON(status: int, data: Body): (r: Response)
    ensures r.status == status && r.body == data
  {
    Response(status, data)
  }

  /** http.Error: the status code and a plain-text message. */
  function HttpError(msg: string, status: int): (r: Response)
    ensures r.status == status && r.body.Message? && r.body.text == msg
  {
    Response(status, Message(msg))
  }

  /** The statements a handler sends to the store, with their arguments. */
  datatype Command =
    | Insert(name: string, email: string, age: Uint64)
    | SelectById(id: Int)
    | UpdateById(id: Int, name: string, email: string, age: Uint64)
    | DeleteById(id: Int)

  /** What a handler does once its checks are over: answer at once, or call the store. */
  datatype Step = Reply(response: Response) | Call(command: Command)

  /** db.Exec: an error, or LastInsertId and RowsAffected. */
  datatype ExecResult = ExecFailed(err: string) | Executed(lastInsertId: Int, rowsAffected: Int)

  /** db.QueryRow(...).Scan: sql.ErrNoRows, another error, or the row. */
  datatype RowResult = NoRows | RowFailed(err: string) | Found(user: User)

  /** One rows.Scan during the listing loop. */
  datatype Scan = Scanned(user: User) | ScanFailed(err: string)

  /** db.Query: an error, or the scans of the rows rows.Next produced followed
      by what rows.Err reports once rows.Next has returned false. */
  datatype QueryResult = QueryFailed(err: string) | Cursor(scans: seq<Scan>, iterErr: Option<string>)

  /** db.Ping. */
  datatype PingResult = Reachable | Unreachable(err: string)

  /** parseID: the id segment read by strconv.Atoi; anything Atoi refuses is
      answered with 400 "Invalid ID". */
  function ParseId(segment: string): (r: Result<Int, Response>)
    ensures r.Ok? <==> Atoi(segment).Some?
    ensures r.Ok? ==> r.value == Atoi(segment).value
    ensures r.Err? ==> r.error == Response(StatusBadRequest, Message(InvalidId))
  {
    match Atoi(segment)
    case None => Err(HttpError(InvalidId, StatusBadRequest))
    case Some(id) => Ok(id)
  }

  /** Every id a client writes in decimal reaches the store unchanged. */
  lemma ParseIdAcceptsEveryInt(id: Int)
    ensures ParseId(Itoa(id)) == Ok(id)
  {
    AtoiItoa(id);
  }

  // ---------------------------------------------------------------- POST /users

  /** createUser up to the store: a body that does not decode or does not
      validate is answered with 400; otherwise only name, email and age are
      inserted, and a client-supplied id is dropped. */
  function CreateStep(body: Option<User>): (s: Step)
    ensures s.Call? <==> body.Some? && UserIsValid(body.value)
    ensures s.Call? ==> s.command == Insert(body.value.name, body.value.email, body.value.age)
  {
    if body.None? then Reply(HttpError(MalformedCreateBody, StatusBadRequest))
    else
      var msg := ValidateUser(body.value);
      if msg != "" then Reply(HttpError(msg, StatusBadRequest))
      else Call(Insert(body.value.name, body.value.email, body.value.age))
  }

  /** createUser: 400 for an undecodable or invalid body, 500 with a fixed
      message when the insert fails, 201 with the generated id otherwise. */
  function CreateUser(body: Option<User>, exec: ExecResult): (r: Response)
    ensures body.None? ==> r == Response(StatusBadRequest, Message(MalformedCreateBody))
    ensures body.Some? && !UserIsValid(body.value) ==>
      r == Response(StatusBadRequest, Message(ValidateUser(body.value)))
    ensures body.Some? && UserIsValid(body.value) && exec.ExecFailed? ==>
      r == Response(StatusInternalServerError, Message(CreateFailed))
    ensures r.status == StatusCreated <==> body.Some? && UserIsValid(body.value) && exec.Executed?
    ensures r.status == StatusCreated ==>
      r.body == OneUser(User(ToUint64(exec.lastInsertId), body.value.name, body.value.email, body.value.age))
    ensures r.body.Message? ==> r.body.text in ClientMessages
  {
    match CreateStep(body)
    case Reply(early) => early
    case Call(_) =>
      match exec
      case ExecFailed(_) => HttpError(CreateFailed, StatusInternalServerError)
      case Executed(lastId, _) => WriteJSON(StatusCreated, OneUser(body.value.(id := ToUint64(lastId))))
  }

  /** The id a client puts in a create body is never seen: two bodies that
      differ only in it get the same answer and send the same insert. */
  lemma CreateIgnoresClientId(u: User, id1: Uint64, id2: Uint64, exec: ExecResult)
    ensures CreateStep(Some(u.(id := id1))) == CreateStep(Some(u.(id := id2)))
    ensures CreateUser(Some(u.(id := id1)), exec) == CreateUser(Some(u.(id := id2)), exec)
  {
  }

  // ---------------------------------------------------------------- GET /users

  /** The users the listing loop keeps: those of the rows that scanned, in row order. */
  function ScannedUsers(scans: seq<Scan>): seq<User> {
    if scans == [] then []
    else
      var last := scans[|scans| - 1];
      ScannedUsers(scans[..|scans| - 1]) + (if last.Scanned? then [last.user] else [])
  }

  /** Listing respects row order: the users of two runs of rows are those of
      the first run followed by those of the second. */
  lemma {:induction false} ScannedUsersAppend(a: seq<Scan>, b: seq<Scan>)
    ensures ScannedUsers(a + b) == ScannedUsers(a) + ScannedUsers(b)
  {
    if b == [] {
      assert a + b == a;
    } else {
      assert (a + b)[..|a + b| - 1] == a + b[..|b| - 1];
      ScannedUsersAppend(a, b[..|b| - 1]);
    }
  }

  /** A user is listed exactly when some row scanned to it, and when no scan
      failed every row is listed. */
  lemma {:induction false} ScannedUsersExact(scans: seq<Scan>)
    ensures forall u :: u in ScannedUsers(scans) <==> Scanned(u) in scans
    ensures (forall i | 0 <= i < |scans| :: scans[i].Scanned?) ==> |ScannedUsers(scans)| == |scans|
  {
    if scans != [] {
      var init := scans[..|scans| - 1];
      ScannedUsersExact(init);
      assert scans == init + [scans[|scans| - 1]];
    }
  }

  /** getUsers: 500 when the query fails or the iteration ends in an error,
      otherwise 200 with the users of the rows that scanned, in row order;
      zero rows give an empty list. */
  method GetUsers(query: QueryResult) returns (r: Response)
    ensures query.QueryFailed? ==> r == Response(StatusInternalServerError, Message(ListFailed))
    ensures query.Cursor? && query.iterErr.Some? ==>
      r == Response(StatusInternalServerError, Message(IterationFailed))
    ensures query.Cursor? && query.iterErr.None? ==>
      r == Response(StatusOK, UserList(ScannedUsers(query.scans)))
  {
    if query.QueryFailed? {
      return HttpError(ListFailed, StatusInternalServerError);
    }
    var users: seq<User> := [];
    var i := 0;
    while i < |query.scans|
      invariant 0 <= i <= |query.scans|
      invariant users == ScannedUsers(query.scans[..i])
    {
      assert query.scans[..i + 1][..i] == query.scans[..i];
      var scan := query.scans[i];
      if scan.Scanned? {
        users := users + [scan.user];
      }
      i := i + 1;
    }
    assert query.scans[..i] == query.scans;
    if query.iterErr.Some? {
      return HttpError(IterationFailed, StatusInternalServerError);
    }
    r := WriteJSON(StatusOK, UserList(users));
  }

  // ---------------------------------------------------------------- GET /users/{id}

  /** getUser up to the store: a bad id is answered with 400; otherwise the row with that id is selected. */
  function GetStep(segment: string): (s: Step)
    ensures s.Call? <==> Atoi(segment).Some?
    ensures s.Call? ==> s.command == SelectById(Atoi(segment).value)
  {
    match ParseId(segment)
    case Err(early) => Reply(early)
    case Ok(id) => Call(SelectById(id))
  }

  /** getUser: 400 for a bad id, 404 when no row matches, 500 for any other
      store error, 200 with the row otherwise. A missing row is never a 500. */
  function GetUser(segment: string, row: RowResult): (r: Response)
    ensures Atoi(segment).None? ==> r == Response(StatusBadRequest, Message(InvalidId))
    ensures Atoi(segment).Some? ==>
      && (r.status == StatusNotFound <==> row.NoRows?)
      && (r.status == StatusInternalServerError <==> row.RowFailed?)
      && (r.status == StatusOK <==> row.Found?)
    ensures r.status == StatusNotFound ==> r.body == Message(UserNotFound)
    ensures r.status == StatusInternalServerError ==> r.body == Message(GetFailed)
    ensures r.status == StatusOK ==> r.body == OneUser(row.user)
    ensures r.body.Message? ==> r.body.text in ClientMessages
  {
    match GetStep(segment)
    case Reply(early) => early
    case Call(_) =>
      match row
      case NoRows => HttpError(UserNotFound, StatusNotFound)
      case RowFailed(_) => HttpError(GetFailed, StatusInternalServerError)
      case Found(u) => WriteJSON(StatusOK, OneUser(u))
  }

  // ---------------------------------------------------------------- PUT /users/{id}

  /** updateUser up to the store, checking id, then body, then validation; only
      then is the row with the path id overwritten with name, email and age. */
  function UpdateStep(segment: string, body: Option<User>): (s: Step)
    ensures Atoi(segment).None? ==> s == Reply(Response(StatusBadRequest, Message(InvalidId)))
    ensures Atoi(segment).Some? && body.None? ==> s == Reply(Response(StatusBadRequest, Message(MalformedUpdateBody)))
    ensures Atoi(segment).Some? && body.Some? && !UserIsValid(body.value) ==>
      s == Reply(Response(StatusBadRequest, Message(ValidateUser(body.value))))
    ensures s.Call? <==> Atoi(segment).Some? && body.Some? && UserIsValid(body.value)
    ensures s.Call? ==>
      s.command == UpdateById(Atoi(segment).value, body.value.name, body.value.email, body.value.age)
  {
    match ParseId(segment)
    case Err(early) => Reply(early)
    case Ok(id) =>
      if body.None? then Reply(HttpError(MalformedUpdateBody, StatusBadRequest))
      else
        var msg := ValidateUser(body.value);
        if msg != "" then Reply(HttpError(msg, StatusBadRequest))
        else Call(UpdateById(id, body.value.name, body.value.email, body.value.age))
  }

  /** updateUser: the checks of UpdateStep, then 500 when the statement fails,
      404 when it affected no row, and 200 with the body's fields and the path
      id (which overrides any id in the body) otherwise. */
  function UpdateUser(segment: string, body: Option<User>, exec: ExecResult): (r: Response)
    ensures UpdateStep(segment, body).Reply? ==> r == UpdateStep(segment, body).response
    ensures UpdateStep(segment, body).Call? ==>
      && (r.status == StatusInternalServerError <==> exec.ExecFailed?)
      && (r.status == StatusNotFound <==> exec.Executed? && exec.rowsAffected == 0)
      && (r.status == StatusOK <==> exec.Executed? && exec.rowsAffected != 0)
    ensures r.status == StatusInternalServerError ==> r.body == Message(UpdateFailed)
    ensures r.status == StatusNotFound ==> r.body == Message(UserNotFound)
    ensures r.status == StatusOK ==>
      r.body == OneUser(User(ToUint64(Atoi(segment).value), body.value.name, body.value.email, body.value.age))
    ensures r.body.Message? ==> r.body.text in ClientMessages
  {
    match UpdateStep(segment, body)
    case Reply(early) => early
    case Call(cmd) =>
      match exec
      case ExecFailed(_) => HttpError(UpdateFailed, StatusInternalServerError)
      case Executed(_, rows) =>
        if rows == 0 then HttpError(UserNotFound, StatusNotFound)
        else WriteJSON(StatusOK, OneUser(body.value.(id := ToUint64(cmd.id))))
  }

  // ---------------------------------------------------------------- DELETE /users/{id}

  /** deleteUser up to the store: a bad id is answered with 400; otherwise the row with that id is deleted. */
  function DeleteStep(segment: string): (s: Step)
    ensures s.Call? <==> Atoi(segment).Some?
    ensures s.Call? ==> s.command == DeleteById(Atoi(segment).value)
  {
    match ParseId(segment)
    case Err(early) => Reply(early)
    case Ok(id) => Call(DeleteById(id))
  }

  /** deleteUser: 400 for a bad id, 500 when the statement fails, 404 when it
      affected no row, and 204 with no body otherwise. */
  function DeleteUser(segment: string, exec: ExecResult): (r: Response)
    ensures Atoi(segment).None? ==> r == Response(StatusBadRequest, Message(InvalidId))
    ensures Atoi(segment).Some? ==>
      && (r.status == StatusInternalServerError <==> exec.ExecFailed?)
      && (r.status == StatusNotFound <==> exec.Executed? && exec.rowsAffected == 0)
      && (r.status == StatusNoContent <==> exec.Executed? && exec.rowsAffected != 0)
    ensures r.status == StatusInternalServerError ==> r.body == Message(DeleteFailed)
    ensures r.status == StatusNotFound ==> r.body == Message(UserNotFound)
    ensures r.status == StatusNoContent ==> r.body == NoBody
    ensures r.body.Message? ==> r.body.text in ClientMessages
  {
    match DeleteStep(segment)
    case Reply(early) => early
    case Call(_) =>
      match exec
      case ExecFailed(_) => HttpError(DeleteFailed, StatusInternalServerError)
      case Executed(_, rows) =>
        if rows == 0 then HttpError(UserNotFound, StatusNotFound)
        else Response(StatusNoContent, NoBody)
  }

  // ---------------------------------------------------------------- GET /health

  /** healthCheck: 200 {"status":"OK"} when the store answers the ping, and
      503 {"status":"DB_UNAVAILABLE"} when it does not, whatever the reason. */
  function HealthCheck(ping: PingResult): (r: Response)
    ensures r.status == StatusOK <==> ping.Reachable?
    ensures r.status == StatusServiceUnavailable <==> ping.Unreachable?
    ensures r.body == HealthStatus(if ping.Reachable? then HealthOK else HealthDown)
  {
    match ping
    case Unreachable(_) => WriteJSON(StatusServiceUnavailable, HealthStatus(HealthDown))
    case Reachable => WriteJSON(StatusOK, HealthStatus(HealthOK))
  }
}
