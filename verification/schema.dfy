/** The strict update schema: an object whose keys are drawn from the five
    goal names, each optional and numeric, and nothing else. */
module UpdateSchema {
  import opened Wrappers
  import opened Json
  import opened DietaryRecords

  const GoalKeys: set<string> := {"waterGoal", "calorieGoal", "proteinGoal", "fatGoal", "carbsGoal"}

  /** What the schema accepts: an object, no unknown key, every value a number. */
  predicate Conforms(body: Value)
    ensures Conforms(body) <==>
      body.Object? && body.fields.Keys <= GoalKeys && forall v | v in body.fields.Values :: v.Number?
  {
    && body.Object?
    && forall k | k in body.fields :: k in GoalKeys && body.fields[k].Number?
  }

  function Read(fields: map<string, Value>, key: string): Option<real>
  {
    if key in fields && fields[key].Number? then Some(fields[key].n) else None
  }

  /** Parses a body; `None` stands for the validation error the schema throws. */
  function Parse(body: Value): (r: Option<PartialGoals>)
    ensures r.Some? <==> Conforms(body)
    ensures r.Some? ==> forall f :: (Supplied(r.value, f).Some? <==> Key(f) in body.fields)
    ensures r.Some? ==> forall f :: Key(f) in body.fields ==> body.fields[Key(f)] == Number(Supplied(r.value, f).value)
  {
    if !Conforms(body) then None
    else
      var o := body.fields;
      Some(PartialGoals(
        Read(o, "waterGoal"),
        Read(o, "calorieGoal"),
        Read(o, "proteinGoal"),
        Read(o, "fatGoal"),
        Read(o, "carbsGoal")))
  }

  function Put(m: map<string, Value>, key: string, v: Option<real>): map<string, Value>
  {
    if v.Some? then m[key := Number(v.value)] else m
  }

  function EncodeFields(p: PartialGoals): map<string, Value>
  {
    var m0 := map[];
    var m1 := Put(m0, "waterGoal", p.waterGoal);
    var m2 := Put(m1, "calorieGoal", p.calorieGoal);
    var m3 := Put(m2, "proteinGoal", p.proteinGoal);
    var m4 := Put(m3, "fatGoal", p.fatGoal);
    Put(m4, "carbsGoal", p.carbsGoal)
  }

  /** The encoded object holds a number under a field's key exactly when the
      field is supplied, and no other key. */
  lemma EncodeFieldsKeys(p: PartialGoals)
    ensures forall k | k in EncodeFields(p) :: k in GoalKeys && EncodeFields(p)[k].Number?
    ensures forall f :: (Key(f) in EncodeFields(p) <==> Supplied(p, f).Some?)
  {
  }

  /** The body a client sends for an update: one numeric key per supplied field. */
  function Encode(p: PartialGoals): (body: Value)
    ensures Conforms(body)
    ensures forall f :: (Key(f) in body.fields <==> Supplied(p, f).Some?)
  {
    EncodeFieldsKeys(p);
    Object(EncodeFields(p))
  }

  /** Every update survives encoding and parsing unchanged. */
  lemma ParseEncode(p: PartialGoals)
    ensures Parse(Encode(p)) == Some(p)
  {
  }

  /** Every accepted body is the encoding of what it parses to, so the schema
      accepts nothing beyond the five numeric keys. */
  lemma EncodeParse(body: Value)
    requires Parse(body).Some?
    ensures Encode(Parse(body).value) == body
  {
  }

  /** A body with a key outside the schema is rejected. */
  lemma UnknownKeyRejected(fields: map<string, Value>, key: string)
    requires key in fields && key !in GoalKeys
    ensures Parse(Object(fields)).None?
  {
  }
}
