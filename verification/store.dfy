/** The dietary-settings table as a map from user id to row. The table's
    unique constraint on the user id becomes the map's key; what remains to
    keep is that every row sits under its own user's key. */
module SettingsStore {
  import opened Wrappers
  import opened DietaryRecords

  type Store = map<UserId, Settings>

  /** Every row is stored under the id of the user it belongs to, so there is
      at most one row per user. */
  predicate WellFormed(s: Store)
  {
    forall k | k in s :: s[k].userId == k
  }

  /** The row whose user id is `uid`, if any (a lookup on the user-id column). */
  function Find(s: Store, uid: UserId): (r: Option<Settings>)
    ensures WellFormed(s) ==> (r.Some? <==> exists k | k in s :: s[k].userId == uid)
    ensures WellFormed(s) && r.Some? ==> r.value.userId == uid
    ensures r.Some? ==> r.value in s.Values
  {
    if uid in s then Some(s[uid]) else None
  }

  /** A plain insert; the unique constraint forbids a second row for a user. */
  function Insert(s: Store, row: Settings): (s': Store)
    requires Find(s, row.userId).None?
    ensures s'.Keys == s.Keys + {row.userId}
    ensures |s'| == |s| + 1
    ensures Find(s', row.userId) == Some(row)
    ensures forall k | k in s :: s'[k] == s[k]
    ensures WellFormed(s) ==> WellFormed(s')
  {
    s[row.userId := row]
  }

  /** Insert-or-update on the user id: an existing row gets the supplied
      fields overwritten, otherwise a row is created from the column defaults
      and the supplied fields. Returns the new table and the affected row. */
  function Upsert(s: Store, uid: UserId, p: PartialGoals, defaults: Goals): (r: (Store, Settings))
    ensures r.1.userId == uid
    ensures r.0.Keys == s.Keys + {uid}
    ensures Find(r.0, uid) == Some(r.1)
    ensures forall k | k in s && k != uid :: r.0[k] == s[k]
    ensures uid in s ==> forall f :: Supplied(p, f).None? ==> GoalOf(r.1.goals, f) == GoalOf(s[uid].goals, f)
    ensures uid !in s ==> forall f :: Supplied(p, f).None? ==> GoalOf(r.1.goals, f) == GoalOf(defaults, f)
    ensures forall f :: Supplied(p, f).Some? ==> GoalOf(r.1.goals, f) == Supplied(p, f).value
    ensures WellFormed(s) ==> WellFormed(r.0)
  {
    var base := if uid in s then s[uid].goals else defaults;
    var row := Settings(uid, Merge(base, p));
    (s[uid := row], row)
  }

  /** Repeating an upsert leaves the table as the first one did. */
  lemma {:induction false} UpsertIdempotent(s: Store, uid: UserId, p: PartialGoals, defaults: Goals)
    ensures var (s1, row1) := Upsert(s, uid, p, defaults);
      Upsert(s1, uid, p, defaults) == (s1, row1)
  {
    var (s1, row1) := Upsert(s, uid, p, defaults);
    var base := if uid in s then s[uid].goals else defaults;
    MergeIdempotent(base, p);
    assert s1[uid := row1] == s1;
  }
}
