/** The dietary-settings record: five nutrition goals keyed by user, and the
    partial update a client may send for them. */
module DietaryRecords {
  import opened Wrappers

  type UserId = string

  /** The five goal columns. Water is in millilitres, the others in kcal. */
  datatype Goals = Goals(
    waterGoal: real,
    calorieGoal: real,
    proteinGoal: real,
    fatGoal: real,
    carbsGoal: real)

  /** One stored row: the owning user and that user's goals. */
  datatype Settings = Settings(userId: UserId, goals: Goals)

  /** A partial update: `None` means the field was not supplied. */
  datatype PartialGoals = PartialGoals(
    waterGoal: Option<real>,
    calorieGoal: Option<real>,
    proteinGoal: Option<real>,
    fatGoal: Option<real>,
    carbsGoal: Option<real>)

  /** Names the five goal columns, so properties can speak of "every field". */
  datatype Field = Water | Calories | Protein | Fat | Carbs

  /** The column's name, which is also its key in a request body. */
  function Key(f: Field): string
  {
    match f
    case Water => "waterGoal"
    case Calories => "calorieGoal"
    case Protein => "proteinGoal"
    case Fat => "fatGoal"
    case Carbs => "carbsGoal"
  }

  function GoalOf(g: Goals, f: Field): real
  {
    match f
    case Water => g.waterGoal
    case Calories => g.calorieGoal
    case Protein => g.proteinGoal
    case Fat => g.fatGoal
    case Carbs => g.carbsGoal
  }

  function Supplied(p: PartialGoals, f: Field): Option<real>
  {
    match f
    case Water => p.waterGoal
    case Calories => p.calorieGoal
    case Protein => p.proteinGoal
    case Fat => p.fatGoal
    case Carbs => p.carbsGoal
  }

  /** The update that supplies no field. */
  const NoChange := PartialGoals(None, None, None, None, None)

  /** Two goal records that agree on every field are the same record. */
  lemma {:induction false} GoalsExtensional(a: Goals, b: Goals)
    requires forall f :: GoalOf(a, f) == GoalOf(b, f)
    ensures a == b
  {
    assert GoalOf(a, Water) == GoalOf(b, Water);
    assert GoalOf(a, Calories) == GoalOf(b, Calories);
    assert GoalOf(a, Protein) == GoalOf(b, Protein);
    assert GoalOf(a, Fat) == GoalOf(b, Fat);
    assert GoalOf(a, Carbs) == GoalOf(b, Carbs);
  }

  /** Overwrites exactly the supplied fields of `g` (the SET part of the upsert). */
  function Merge(g: Goals, p: PartialGoals): (r: Goals)
    ensures forall f :: Supplied(p, f).Some? ==> GoalOf(r, f) == Supplied(p, f).value
    ensures forall f :: Supplied(p, f).None? ==> GoalOf(r, f) == GoalOf(g, f)
  {
    Goals(
      GetOr(p.waterGoal, g.waterGoal),
      GetOr(p.calorieGoal, g.calorieGoal),
      GetOr(p.proteinGoal, g.proteinGoal),
      GetOr(p.fatGoal, g.fatGoal),
      GetOr(p.carbsGoal, g.carbsGoal))
  }

  /** Applying the same update twice is the same as applying it once. */
  lemma MergeIdempotent(g: Goals, p: PartialGoals)
    ensures Merge(Merge(g, p), p) == Merge(g, p)
  {
  }

  /** The empty update changes nothing. */
  lemma MergeNoChange(g: Goals)
    ensures Merge(g, NoChange) == g
  {
  }

  /** Only what the update supplies matters: merging onto two records that
      differ only in fields the update overwrites gives the same result. */
  lemma {:induction false} MergeOverwritesSupplied(g: Goals, g': Goals, p: PartialGoals)
    requires forall f :: Supplied(p, f).None? ==> GoalOf(g, f) == GoalOf(g', f)
    ensures Merge(g, p) == Merge(g', p)
  {
    GoalsExtensional(Merge(g, p), Merge(g', p));
  }
}
