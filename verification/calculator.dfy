/** Default goals for a user who has no stored settings yet: a fixed
    fallback when biometrics are incomplete, otherwise the Mifflin-St Jeor
    basal metabolic rate split 20/20/60 into fat, protein and carbs. */
module GoalCalculator {
  import opened Wrappers
  import opened DietaryRecords

  /** The profile the session validator hands over. `weight` is stored as a
      decimal string and `dateOfBirth` as a date; only the birth year is used. */
  datatype User = User(
    id: UserId,
    sex: string,
    weight: Option<real>,
    height: Option<real>,
    birthYear: Option<int>)

  /** JavaScript truthiness of the three biometric fields. A present weight is a
      non-empty decimal string and therefore truthy even when it reads "0";
      height is a number, so a height of 0 counts as missing. */
  predicate HasBiometrics(u: User)
    ensures !HasBiometrics(u) <==> u.weight.None? || u.height in {None, Some(0.0)} || u.birthYear.None?
  {
    && u.weight.Some?
    && u.height.Some? && u.height.value != 0.0
    && u.birthYear.Some?
  }

  const DailyWater: real := 2000.0

  /** Whole-year age from calendar years alone; month and day are ignored. */
  function Age(currentYear: int, birthYear: int): int
  {
    currentYear - birthYear
  }

  /** Mifflin-St Jeor: the male constant is +5, every other sex value gets -161. */
  function Bmr(sex: string, weight: real, height: real, age: int): (r: real)
    ensures sex == "M" ==> r == 10.0 * weight + 6.25 * height - 5.0 * (age as real) + 5.0
    ensures sex != "M" ==> r == 10.0 * weight + 6.25 * height - 5.0 * (age as real) - 161.0
  {
    var common := 10.0 * weight + 6.25 * height - 5.0 * (age as real);
    if sex == "M" then common + 5.0 else common - 161.0
  }

  function FallbackCalories(sex: string): real
  {
    if sex == "M" then 2000.0 else 1600.0
  }

  /** Splits a calorie budget into 20% fat, 20% protein and 60% carbs. */
  function Split(calories: real): (g: Goals)
    ensures g.calorieGoal == calories
    ensures g.waterGoal == DailyWater
    ensures g.fatGoal == g.proteinGoal
    ensures g.carbsGoal == 3.0 * g.fatGoal
    ensures g.fatGoal + g.proteinGoal + g.carbsGoal == g.calorieGoal
  {
    Goals(DailyWater, calories, 0.2 * calories, 0.2 * calories, 0.6 * calories)
  }

  /** The goals written for a user on their first read. */
  function DefaultGoals(u: User, currentYear: int): (g: Goals)
    ensures g.waterGoal == DailyWater
    ensures g.fatGoal + g.proteinGoal + g.carbsGoal == g.calorieGoal
    ensures g.fatGoal == g.proteinGoal == g.calorieGoal / 5.0
  {
    if !HasBiometrics(u) then
      Split(FallbackCalories(u.sex))
    else
      Split(Bmr(u.sex, u.weight.value, u.height.value, Age(currentYear, u.birthYear.value)))
  }

  /** With any biometric field missing the goals are fixed per sex. */
  lemma FallbackGoals(u: User, currentYear: int)
    requires !HasBiometrics(u)
    ensures u.sex == "M" ==> DefaultGoals(u, currentYear) == Goals(2000.0, 2000.0, 400.0, 400.0, 1200.0)
    ensures u.sex != "M" ==> DefaultGoals(u, currentYear) == Goals(2000.0, 1600.0, 320.0, 320.0, 960.0)
  {
  }

  /** With complete biometrics the calorie goal is the Mifflin-St Jeor BMR for
      an age of `currentYear - birthYear`, and the macros are 20/20/60 of it. */
  lemma BmrGoals(u: User, currentYear: int)
    requires HasBiometrics(u)
    ensures var g := DefaultGoals(u, currentYear);
      var w, h, age := u.weight.value, u.height.value, currentYear - u.birthYear.value;
      && g.calorieGoal == 10.0 * w + 6.25 * h - 5.0 * (age as real) + (if u.sex == "M" then 5.0 else -161.0)
      && g.fatGoal == 0.2 * g.calorieGoal
      && g.proteinGoal == 0.2 * g.calorieGoal
      && g.carbsGoal == 0.6 * g.calorieGoal
      && g.waterGoal == 2000.0
  {
  }

  /** For the same body, the male goal is 166 kcal above any other sex value's,
      and each macro differs by its share of those 166 kcal. */
  lemma SexOffset(u: User, currentYear: int, otherSex: string)
    requires HasBiometrics(u) && u.sex == "M" && otherSex != "M"
    ensures var m, o := DefaultGoals(u, currentYear), DefaultGoals(u.(sex := otherSex), currentYear);
      && m.calorieGoal - o.calorieGoal == 166.0
      && m.fatGoal - o.fatGoal == 33.2
      && m.carbsGoal - o.carbsGoal == 99.6
  {
  }

  /** A year later, the same profile gets a calorie goal 5 kcal lower. */
  lemma OneYearOlder(u: User, currentYear: int)
    requires HasBiometrics(u)
    ensures DefaultGoals(u, currentYear + 1).calorieGoal == DefaultGoals(u, currentYear).calorieGoal - 5.0
  {
  }

  /** Worked example: a male of 80 kg and 180 cm, 30 calendar years old. */
  lemma ExampleMale()
    ensures DefaultGoals(User("u1", "M", Some(80.0), Some(180.0), Some(1995)), 2025)
      == Goals(2000.0, 1780.0, 356.0, 356.0, 1068.0)
  {
  }

  /** A zero height is falsy and selects the fallback; a zero weight does not. */
  lemma ZeroHeightFallsBack(id: UserId, sex: string, w: real, year: int, currentYear: int)
    ensures DefaultGoals(User(id, sex, Some(w), Some(0.0), Some(year)), currentYear).calorieGoal
      == FallbackCalories(sex)
    ensures HasBiometrics(User(id, sex, Some(0.0), Some(170.0), Some(year)))
  {
  }
}
