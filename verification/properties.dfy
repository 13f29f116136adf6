/** Properties relating several calls of the two endpoints. */
module RouteProperties {
  import opened Wrappers
  import opened Json
  import opened DietaryRecords
  import opened GoalCalculator
  import opened SettingsStore
  import opened UpdateSchema
  import opened DietarySettingsRoutes

  /** A user who already has a row gets it back untouched, and nothing is inserted. */
  lemma GetReturnsExistingRow(store: Store, validate: Validator, token: Option<Token>, currentYear: int, u: User)
    requires SessionUser(validate(token)) == Some(u) && u.id in store
    ensures Get(store, validate, token, currentYear) == Handled(Response(200, false, Row(store[u.id])), store)
  {
  }

  /** A user without a row gets exactly one new row holding the default goals. */
  lemma GetCreatesDefaultRow(store: Store, validate: Validator, token: Option<Token>, currentYear: int, u: User)
    requires SessionUser(validate(token)) == Some(u) && u.id !in store
    ensures var h := Get(store, validate, token, currentYear);
      var row := Settings(u.id, DefaultGoals(u, currentYear));
      && h.response == Response(200, false, Row(row))
      && h.store == store[u.id := row]
      && |h.store| == |store| + 1
  {
  }

  /** A second read answers with the same row and leaves the table as the first
      read left it, even when the calendar year has moved on in between. */
  lemma GetIdempotent(store: Store, validate: Validator, token: Option<Token>, year1: int, year2: int)
    ensures var first := Get(store, validate, token, year1);
      var second := Get(first.store, validate, token, year2);
      && second.response == first.response
      && second.store == first.store
  {
  }

  /** The read endpoint as written is idempotent too: a second read answers
      the same and leaves the table as the first read left it. */
  lemma GetAsWrittenIdempotent(store: Store, validate: Validator, token: Option<Token>, year1: int, year2: int)
    ensures var first := GetAsWritten(store, validate, token, year1);
      var second := GetAsWritten(first.store, validate, token, year2);
      && second.response == first.response
      && second.store == first.store
  {
  }

  /** A record with a user but a null session passes the read endpoint as
      written, which then reads or creates that user's row; the corrected
      read refuses it. */
  lemma GetAsWrittenNullSessionWithUser(store: Store, validate: Validator, token: Option<Token>, currentYear: int, u: User)
    requires validate(token) == Some(SessionRecord(None, Some(u)))
    ensures GetAsWritten(store, validate, token, currentYear).response.status == 200
    ensures u.id !in store ==> u.id in GetAsWritten(store, validate, token, currentYear).store
    ensures Get(store, validate, token, currentYear) == Handled(Unauthorized, store)
  {
  }

  /** On every request that carries a session and its user, the read endpoint as
      written and the corrected one behave identically. */
  lemma GetAsWrittenAgrees(store: Store, validate: Validator, token: Option<Token>, currentYear: int)
    requires SessionUser(validate(token)).Some?
    ensures GetAsWritten(store, validate, token, currentYear) == Get(store, validate, token, currentYear)
  {
  }

  /** Neither version of the read endpoint touches the table without an
      authenticated user. */
  lemma GetWithoutSessionLeavesStore(store: Store, validate: Validator, token: Option<Token>, currentYear: int)
    requires validate(token).None? || validate(token).value.user.None?
    ensures GetAsWritten(store, validate, token, currentYear).store == store
    ensures Get(store, validate, token, currentYear) == Handled(Unauthorized, store)
  {
  }

  /** The validator's answer for an invalid token carries a null session and a
      null user. The read endpoint as written dereferences that user and answers
      500, where the corrected one answers 401. */
  lemma GetAsWrittenInvalidSessionIs500(store: Store, validate: Validator, token: Option<Token>, currentYear: int)
    requires validate(token) == Some(SessionRecord(None, None))
    ensures GetAsWritten(store, validate, token, currentYear).response.status == 500
    ensures Get(store, validate, token, currentYear).response.status == 401
  {
  }

  /** An authenticated update of an existing row overwrites exactly the supplied
      fields of that row and leaves every other user's row alone. */
  lemma PatchUpdatesExistingRow(
    store: Store, validate: Validator, token: Option<Token>, body: Value, defaults: Goals, u: User)
    requires Present(token) && SessionUser(validate(token)) == Some(u)
    requires Parse(body).Some? && u.id in store
    ensures var h := Patch(store, validate, token, body, defaults);
      var p := Parse(body).value;
      && h.store.Keys == store.Keys
      && h.store[u.id].userId == u.id
      && (forall f :: Supplied(p, f).Some? ==> GoalOf(h.store[u.id].goals, f) == Supplied(p, f).value)
      && (forall f :: Supplied(p, f).None? ==> GoalOf(h.store[u.id].goals, f) == GoalOf(store[u.id].goals, f))
      && (forall k | k in store && k != u.id :: h.store[k] == store[k])
      && h.response == Response(200, false, Rows([h.store[u.id]]))
  {
  }

  /** An authenticated update for a user without a row creates one from the
      supplied fields and the column defaults. */
  lemma PatchCreatesRow(
    store: Store, validate: Validator, token: Option<Token>, body: Value, defaults: Goals, u: User)
    requires Present(token) && SessionUser(validate(token)) == Some(u)
    requires Parse(body).Some? && u.id !in store
    ensures var h := Patch(store, validate, token, body, defaults);
      var p := Parse(body).value;
      && h.store.Keys == store.Keys + {u.id}
      && h.store[u.id] == Settings(u.id, Merge(defaults, p))
      && (forall k | k in store :: h.store[k] == store[k])
      && h.response == Response(200, false, Rows([h.store[u.id]]))
  {
  }

  /** Updating only the water goal keeps the stored calorie and macro goals. */
  lemma PatchWaterOnly(
    store: Store, validate: Validator, token: Option<Token>, defaults: Goals, u: User, water: real)
    requires Present(token) && SessionUser(validate(token)) == Some(u) && u.id in store
    ensures var h := Patch(store, validate, token, Object(map["waterGoal" := Number(water)]), defaults);
      h.store[u.id].goals == store[u.id].goals.(waterGoal := water)
  {
  }

  /** A body with a key outside the schema is rejected before the token is looked at. */
  lemma PatchRejectsUnknownKey(
    store: Store, validate: Validator, token: Option<Token>, fields: map<string, Value>, key: string, defaults: Goals)
    requires key in fields && key !in GoalKeys
    ensures Patch(store, validate, token, Object(fields), defaults) == Handled(ServerError(ValidationError), store)
  {
  }

  /** Without a session the update endpoint answers 401 and leaves the table alone. */
  lemma PatchWithoutSession(
    store: Store, validate: Validator, token: Option<Token>, body: Value, defaults: Goals)
    requires Conforms(body)
    requires !Present(token) || (validate(token).Some? && validate(token).value.session.None?)
    ensures Patch(store, validate, token, body, defaults) == Handled(Unauthorized, store)
  {
  }

  /** Sending the same update twice leaves the table as sending it once. */
  lemma PatchIdempotent(
    store: Store, validate: Validator, token: Option<Token>, body: Value, defaults: Goals)
    ensures var first := Patch(store, validate, token, body, defaults);
      var second := Patch(first.store, validate, token, body, defaults);
      second == first
  {
  }

  /** After a successful update, a read returns the updated row and creates nothing. */
  lemma GetAfterPatch(
    store: Store, validate: Validator, token: Option<Token>, body: Value, defaults: Goals, currentYear: int)
    requires Patch(store, validate, token, body, defaults).response.status == 200
    ensures var patched := Patch(store, validate, token, body, defaults);
      Get(patched.store, validate, token, currentYear)
        == Handled(Response(200, false, Row(patched.response.payload.rows[0])), patched.store)
  {
  }

  /** A request to either endpoint, served as the code is written. */
  datatype Request =
    | GetRequest(token: Option<Token>)
    | PatchRequest(token: Option<Token>, body: Value)

  function Handle(store: Store, validate: Validator, currentYear: int, defaults: Goals, req: Request): Handled
  {
    match req
    case GetRequest(t) => GetAsWritten(store, validate, t, currentYear)
    case PatchRequest(t, body) => Patch(store, validate, t, body, defaults)
  }

  /** The table after serving `reqs` in order. Over any history, every row stays
      under its own user's key (one row per user) and no row is ever deleted. */
  function Replay(store: Store, validate: Validator, currentYear: int, defaults: Goals, reqs: seq<Request>): (s': Store)
    ensures WellFormed(store) ==> WellFormed(s')
    ensures store.Keys <= s'.Keys
    decreases |reqs|
  {
    if |reqs| == 0 then store
    else
      var next := Handle(store, validate, currentYear, defaults, reqs[0]).store;
      Replay(next, validate, currentYear, defaults, reqs[1..])
  }
}
