/** The OPA-backed policy engine: decoding evaluation results, and the batch query that goes out
    through a set of ids and comes back as models. */
module PolicyEngine {
  import opened Specs
  import opened Policy

  /** A decoded OPA value. */
  datatype Value =
    | VNull
    | VBool(b: bool)
    | VNumber(n: int)
    | VString(s: string)
    | VArray(elems: seq<Value>)
    | VObject(fields: map<string, Value>)

  /** The prepared queries, seen from Go: each evaluation fails or yields a list of results, one
      expression value each. */
  datatype Evaluator = Evaluator(
    access: (UserSpec, ModelSpec) -> Result<seq<Value>>,
    allowed: (UserSpec, seq<ModelSpec>) -> Result<seq<Value>>)
  {
    /** Whatever is evaluated successfully is what the policy module says. */
    ghost predicate Sound() {
      && (forall u, m {:trigger access(u, m)} :: access(u, m).Ok? ==> access(u, m).value == [VBool(Decide(u, m))])
      && (forall u, ms {:trigger allowed(u, ms)} :: allowed(u, ms).Ok? ==>
            |allowed(u, ms).value| == 1 && RepresentsSet(allowed(u, ms).value[0], AllowedIds(u, ms)))
    }

    /** Evaluation never fails. */
    ghost predicate Total() {
      && (forall u, m {:trigger access(u, m)} :: access(u, m).Ok?)
      && (forall u, ms {:trigger allowed(u, ms)} :: allowed(u, ms).Ok?)
    }
  }

  /** OPA hands a set of strings over as an object with those keys or as an array of them. */
  ghost predicate RepresentsSet(v: Value, ids: set<string>) {
    match v
    case VObject(fields) => fields.Keys == ids
    case VArray(elems) =>
      && (forall i :: 0 <= i < |elems| ==> elems[i].VString? && elems[i].s in ids)
      && (forall id :: id in ids ==> VString(id) in elems)
    case _ => false
  }

  /** `OPAEngine.CheckAccess`: exactly one boolean is expected. */
  function DecodeAccess(results: seq<Value>): (r: Result<bool>) {
    if |results| == 0 then Err("no results from policy evaluation")
    else if results[0].VBool? then Ok(results[0].b)
    else Err("unexpected result type")
  }

  function CheckAccess(ev: Evaluator, user: UserSpec, model: ModelSpec): Result<bool> {
    match ev.access(user, model)
    case Err(_) => Err("policy evaluation failed")
    case Ok(results) =>
      match DecodeAccess(results)
      case Err(_) => Err("policy evaluation failed")
      case Ok(b) => Ok(b)
  }

  /** For any evaluator: access is granted only by a successful evaluation whose first value is the boolean
      true, refused only by one whose first value is false, and anything else is an error. */
  lemma AccessNeedsABoolean(ev: Evaluator, user: UserSpec, model: ModelSpec)
    ensures forall b :: CheckAccess(ev, user, model) == Ok(b) <==>
              var results := ev.access(user, model);
              results.Ok? && results.value != [] && results.value[0] == VBool(b)
  {
  }

  /** The ids named by a result value: the keys of an object, or the string elements of an array;
      anything else has none and is an error. */
  ghost predicate NamesIds(v: Value, ids: set<string>) {
    match v
    case VObject(fields) => ids == fields.Keys
    case VArray(elems) => forall id :: id in ids <==> VString(id) in elems
    case _ => false
  }

  /** No result, or one that is a set in either representation. */
  predicate IsIdSet(results: seq<Value>) {
    results == [] || results[0].VObject? || results[0].VArray?
  }

  ghost predicate NamedBy(results: seq<Value>, ids: set<string>) {
    if results == [] then ids == {} else NamesIds(results[0], ids)
  }

  /** `OPAEngine.GetAllowedModels`: no result means no model; the ids come back in any order. */
  method DecodeAllowed(results: seq<Value>) returns (r: Result<seq<string>>)
    ensures r.Ok? <==> IsIdSet(results)
    ensures r.Ok? ==> NamedBy(results, set id | id in r.value)
  {
    if |results| == 0 {
      return Ok([]);
    }
    var allowed: seq<string> := [];
    match results[0] {
      case VObject(fields) =>
        var todo := fields.Keys;
        while todo != {}
          invariant todo <= fields.Keys
          invariant forall id :: id in allowed <==> id in fields.Keys - todo
          decreases |todo|
        {
          var id :| id in todo;
          allowed := allowed + [id];
          todo := todo - {id};
        }
      case VArray(elems) =>
        for i := 0 to |elems|
          invariant forall id :: id in allowed <==> VString(id) in elems[..i]
        {
          assert elems[..i + 1] == elems[..i] + [elems[i]];
          if elems[i].VString? {
            allowed := allowed + [elems[i].s];
          }
        }
        assert elems[..|elems|] == elems;
      case _ =>
        return Err("unexpected result type");
    }
    return Ok(allowed);
  }

  /** `Engine.GetAllowedModels`: for any evaluator, the models of the input whose id the result names, or an
      error; for a sound one, those whose id some allowed model of the input has. Three loops: flatten the
      input, turn ids into a set, keep the models whose id is in it. */
  method GetAllowedModels(ev: Evaluator, user: UserSpec, models: seq<ModelSpec>) returns (r: Result<seq<ModelSpec>>)
    ensures r.Ok? <==> ev.allowed(user, models).Ok? && IsIdSet(ev.allowed(user, models).value)
    ensures r.Ok? ==> exists ids :: NamedBy(ev.allowed(user, models).value, ids) &&
                        r.value == Filter(models, (m: ModelSpec) => m.id in ids)
    ensures ev.Sound() ==> r == BatchSpec(ev, user, models)
  {
    var flat: seq<ModelSpec> := [];
    for i := 0 to |models|
      invariant flat == models[..i]
    {
      flat := flat + [models[i]];
    }
    assert flat == models;

    var results := ev.allowed(user, flat);
    if results.Err? {
      return Err("policy evaluation failed");
    }
    var ids := DecodeAllowed(results.value);
    if ids.Err? {
      return Err("policy evaluation failed");
    }

    var allowedSet: set<string> := {};
    for i := 0 to |ids.value|
      invariant allowedSet == set id | id in ids.value[..i]
    {
      assert ids.value[..i + 1] == ids.value[..i] + [ids.value[i]];
      allowedSet := allowedSet + {ids.value[i]};
    }
    assert ids.value[..|ids.value|] == ids.value;

    var result: seq<ModelSpec> := [];
    for i := 0 to |models|
      invariant result == Filter(models[..i], (m: ModelSpec) => m.id in allowedSet)
    {
      assert models[..i + 1][..i] == models[..i];
      if models[i].id in allowedSet {
        result := result + [models[i]];
      }
    }
    assert models[..|models|] == models;
    if ev.Sound() {
      NamedSetIsRepresented(results.value[0], allowedSet, AllowedIds(user, models));
      FilterCongruence(models, (m: ModelSpec) => m.id in allowedSet, (m: ModelSpec) => HasAllowedId(user, models, m));
    }
    return Ok(result);
  }

  lemma NamedSetIsRepresented(v: Value, named: set<string>, ids: set<string>)
    requires NamesIds(v, named) && RepresentsSet(v, ids)
    ensures named == ids
  {
    if v.VArray? {
      forall id | id in named ensures id in ids {
        var i :| 0 <= i < |v.elems| && v.elems[i] == VString(id);
      }
    }
  }

  lemma {:induction false} FilterCongruence(models: seq<ModelSpec>, p: ModelSpec -> bool, q: ModelSpec -> bool)
    requires forall m :: m in models ==> p(m) == q(m)
    ensures Filter(models, p) == Filter(models, q)
  {
    if models != [] {
      FilterCongruence(models[..|models| - 1], p, q);
    }
  }

  /** The model shares its id with some allowed model of the list. */
  predicate HasAllowedId(user: UserSpec, models: seq<ModelSpec>, m: ModelSpec) {
    exists i :: 0 <= i < |models| && models[i].id == m.id && Decide(user, models[i])
  }

  /** What the batch query returns: a failure, or the models whose id some allowed model has. */
  function BatchSpec(ev: Evaluator, user: UserSpec, models: seq<ModelSpec>): Result<seq<ModelSpec>> {
    if ev.allowed(user, models).Err? then Err("policy evaluation failed")
    else Ok(Filter(models, (m: ModelSpec) => HasAllowedId(user, models, m)))
  }

  /** No refused model of the list shares an id with an allowed one. */
  ghost predicate UnambiguousIds(user: UserSpec, models: seq<ModelSpec>) {
    forall i, j :: 0 <= i < |models| && 0 <= j < |models| && models[i].id == models[j].id ==>
      (Decide(user, models[i]) ==> Decide(user, models[j]))
  }

  /** The batch query is the order-preserving filter of its input by single-model access exactly when
      no refused model shares an id with an allowed one. */
  lemma BatchRefinesSingle(ev: Evaluator, user: UserSpec, models: seq<ModelSpec>)
    requires ev.allowed(user, models).Ok?
    ensures BatchSpec(ev, user, models).value == Filter(models, (m: ModelSpec) => Decide(user, m)) <==>
            UnambiguousIds(user, models)
  {
    var batch := (m: ModelSpec) => HasAllowedId(user, models, m);
    var single := (m: ModelSpec) => Decide(user, m);
    if UnambiguousIds(user, models) {
      forall m | m in models ensures batch(m) == single(m) {
        var j :| 0 <= j < |models| && models[j] == m;
        if batch(m) {
          var i :| 0 <= i < |models| && models[i].id == m.id && Decide(user, models[i]);
        }
      }
      FilterCongruence(models, batch, single);
    } else {
      var i, j :| 0 <= i < |models| && 0 <= j < |models| && models[i].id == models[j].id
                  && Decide(user, models[i]) && !Decide(user, models[j]);
      assert HasAllowedId(user, models, models[j]);
      FilterMembers(models, batch);
      FilterMembers(models, single);
      assert models[j] in Filter(models, batch) && models[j] !in Filter(models, single);
    }
  }

  /** Two models, one id: the batch query lets the refused one through. */
  lemma SharedIdWidensBatch(ev: Evaluator)
    requires ev.Total()
    ensures exists user: UserSpec, a: ModelSpec, b: ModelSpec ::
              !Decide(user, b) && b in BatchSpec(ev, user, [a, b]).value
  {
    var user := UserSpec("u", Present(map[]));
    var a := ModelSpec("m", MODEL_TYPE_LORA, "base", Present(map[]), Nil, Nil);
    var b := ModelSpec("m", MODEL_TYPE_LORA, "base", Present(map["role" := Present(["admin"])]), Nil, Nil);
    assert "role" in b.userAttributes.value.Keys;
    FilterMembers([a, b], (m: ModelSpec) => HasAllowedId(user, [a, b], m));
    assert Decide(user, [a, b][0]);
    assert HasAllowedId(user, [a, b], b);
    assert !Decide(user, b) && b in BatchSpec(ev, user, [a, b]).value;
  }

  /** Models listed from the store have distinct ids, so there the batch query and the single query
      agree model by model. */
  lemma BatchOnDistinctIds(ev: Evaluator, user: UserSpec, models: seq<ModelSpec>)
    requires ev.allowed(user, models).Ok? && DistinctIds(models)
    ensures BatchSpec(ev, user, models) == Ok(Filter(models, (m: ModelSpec) => Decide(user, m)))
  {
    forall i, j | 0 <= i < |models| && 0 <= j < |models| && models[i].id == models[j].id
      ensures i == j
    {
    }
    BatchRefinesSingle(ev, user, models);
  }
}
