/** The two dietary-settings endpoints. Each handler is a pure function from
    the table, the session validator, the request and the environment to the
    response and the new table. */
module DietarySettingsRoutes {
  import opened Wrappers
  import opened Json
  import opened DietaryRecords
  import opened GoalCalculator
  import opened SettingsStore
  import opened UpdateSchema

  type Token = string

  /** What the session validator returns: a session and its user, either of
      which may be null. */
  datatype SessionRecord = SessionRecord(session: Option<string>, user: Option<User>)

  /** The session validator: it sees the request's token, which may be absent,
      and may itself answer null. */
  type Validator = Option<Token> -> Option<SessionRecord>

  /** Exceptions the handlers catch and answer with a 500. */
  datatype Thrown =
    | ValidationError   // the update schema rejected the body
    | NullDereference   // a property was read from a null session or user

  datatype Payload =
    | Row(row: Settings)
    | Rows(rows: seq<Settings>)
    | Message(text: string)
    | Caught(thrown: Thrown)

  /** Status code, the `error` flag and the payload of the JSON answer. */
  datatype Response = Response(status: int, error: bool, payload: Payload)

  datatype Handled = Handled(response: Response, store: Store)

  const Unauthorized := Response(401, true, Message("Unauthorized"))
  const UserNotFound := Response(404, true, Message("User not found"))

  function ServerError(e: Thrown): Response
  {
    Response(500, true, Caught(e))
  }

  /** JavaScript truthiness of the request token: absent and "" are falsy. */
  predicate Present(token: Option<Token>)
    ensures Present(token) <==> token != None && token != Some("")
  {
    token.Some? && token.value != ""
  }

  /** The authenticated user: present only when both the session and its user are. */
  function SessionUser(rec: Option<SessionRecord>): (r: Option<User>)
    ensures r.Some? <==> rec.Some? && rec.value.session.Some? && rec.value.user.Some?
    ensures r.Some? ==> rec.value.user == r
  {
    match rec
    case Some(SessionRecord(Some(_), Some(u))) => Some(u)
    case _ => None
  }

  /** Returns the user's row, creating it from the default goals when missing. */
  function ReadOrCreate(store: Store, u: User, currentYear: int): (h: Handled)
    ensures h.response.status == 200 && h.response.payload.Row?
    ensures WellFormed(store) ==> h.response.payload.row.userId == u.id
    ensures u.id in store ==> h.store == store && h.response.payload.row == store[u.id]
    ensures u.id !in store ==> h.response.payload.row.goals == DefaultGoals(u, currentYear)
    ensures Find(h.store, u.id) == Some(h.response.payload.row)
    ensures h.store.Keys == store.Keys + {u.id}
    ensures forall k | k in store :: h.store[k] == store[k]
    ensures WellFormed(store) ==> WellFormed(h.store)
  {
    match Find(store, u.id)
    case Some(row) => Handled(Response(200, false, Row(row)), store)
    case None =>
      var row := Settings(u.id, DefaultGoals(u, currentYear));
      Handled(Response(200, false, Row(row)), Insert(store, row))
  }

  /** The read endpoint exactly as written: only a null validator answer is
      unauthorised; a record whose user is null is dereferenced and fails. */
  function GetAsWritten(store: Store, validate: Validator, token: Option<Token>, currentYear: int): (h: Handled)
    ensures validate(token).None? ==> h == Handled(Unauthorized, store)
    ensures validate(token).Some? && validate(token).value.user.None? ==> h == Handled(ServerError(NullDereference), store)
    ensures validate(token).Some? && validate(token).value.user.Some? ==>
      h.response.status == 200 && h.response.payload.Row?
      && Find(h.store, validate(token).value.user.value.id) == Some(h.response.payload.row)
    ensures h.response.status != 200 ==> h.store == store
    ensures forall k | k in store :: k in h.store && h.store[k] == store[k]
    ensures forall k | k in h.store && k !in store ::
      validate(token).Some? && validate(token).value.user.Some? && k == validate(token).value.user.value.id
    ensures WellFormed(store) ==> WellFormed(h.store)
  {
    match validate(token)
    case None => Handled(Unauthorized, store)
    case Some(rec) =>
      match rec.user
      case None => Handled(ServerError(NullDereference), store)
      case Some(u) => ReadOrCreate(store, u, currentYear)
  }

  /** The read endpoint with the session checked as the update endpoint checks
      it: every request without a session and user is answered 401. */
  function Get(store: Store, validate: Validator, token: Option<Token>, currentYear: int): (h: Handled)
    ensures h.response.status == 401 <==> SessionUser(validate(token)).None?
    ensures h.response.status != 401 ==> h.response.status == 200 && h.response.payload.Row?
    ensures h.response.status == 401 ==> h == Handled(Unauthorized, store)
    ensures forall k | k in store :: k in h.store && h.store[k] == store[k]
    ensures forall k | k in h.store && k !in store ::
      SessionUser(validate(token)).Some? && k == SessionUser(validate(token)).value.id
    ensures WellFormed(store) ==> WellFormed(h.store)
  {
    match SessionUser(validate(token))
    case None => Handled(Unauthorized, store)
    case Some(u) => ReadOrCreate(store, u, currentYear)
  }

  /** Builds the answer from the rows the upsert returned; no rows means 404. */
  function UpsertResponse(rows: seq<Settings>): (r: Response)
    ensures |rows| == 0 <==> r == UserNotFound
    ensures |rows| > 0 <==> r == Response(200, false, Rows(rows))
  {
    if |rows| < 1 then UserNotFound else Response(200, false, Rows(rows))
  }

  /** The partial-update endpoint: validate the body first, then the token,
      then the session, then upsert on the user id. */
  function Patch(store: Store, validate: Validator, token: Option<Token>, body: Value, defaults: Goals): (h: Handled)
    ensures !Conforms(body) ==> h == Handled(ServerError(ValidationError), store)
    ensures Conforms(body) && !Present(token) ==> h == Handled(Unauthorized, store)
    ensures h.response.status == 200 <==> Conforms(body) && Present(token) && SessionUser(validate(token)).Some?
    ensures h.response.status != 200 ==> h.store == store
    ensures WellFormed(store) ==> WellFormed(h.store)
  {
    match Parse(body)
    case None => Handled(ServerError(ValidationError), store)
    case Some(p) =>
      if !Present(token) then Handled(Unauthorized, store)
      else
        match validate(token)
        case None => Handled(ServerError(NullDereference), store)
        case Some(rec) =>
          if rec.session.None? then Handled(Unauthorized, store)
          else
            match rec.user
            case None => Handled(ServerError(NullDereference), store)
            case Some(u) =>
              var (store', row) := Upsert(store, u.id, p, defaults);
              Handled(UpsertResponse([row]), store')
  }
}
