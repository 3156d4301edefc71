/** The attribute-based access rule (access.rego) and the algebra of policies. */
module Policy {
  import opened Specs

  /** One turn of the `every`: the user has the attribute and some allowed value equals it.
      A nil list or a nil attribute map offers nothing to match. */
  predicate AttributeMatches(attributes: Nilable<map<string, string>>, name: string, allowed: Nilable<seq<string>>) {
    && attributes.Present?
    && name in attributes.value
    && allowed.Present?
    && exists i :: 0 <= i < |allowed.value| && allowed.value[i] == attributes.value[name]
  }

  /** `every` over a value that is not a collection is undefined, so a nil policy falls to the
      `else := false`. */
  predicate PolicyAllows(policy: Nilable<PolicyMap>, attributes: Nilable<map<string, string>>) {
    && policy.Present?
    && forall name | name in policy.value.Keys :: AttributeMatches(attributes, name, policy.value[name])
  }

  /** `is_user_allowed` for one user and one model. */
  predicate Decide(user: UserSpec, model: ModelSpec) {
    PolicyAllows(model.userAttributes, user.attributes)
  }

  /** The set `allowed_models`. */
  ghost function AllowedIds(user: UserSpec, models: seq<ModelSpec>): set<string> {
    set m | m in models && Decide(user, m) :: m.id
  }

  // ----- Algebra ---------------------------------------------------------------------------

  ghost function ValueSet(allowed: Nilable<seq<string>>): set<string> {
    if allowed.Nil? then {} else set i | 0 <= i < |allowed.value| :: allowed.value[i]
  }

  /** Some attribute of the policy allows no value at all. */
  ghost predicate Unsatisfiable(p: PolicyMap) {
    exists name :: name in p && ValueSet(p[name]) == {}
  }

  /** `p` constrains every attribute `q` constrains, to no more values than `q` allows. */
  ghost predicate AtLeastAsStrict(p: PolicyMap, q: PolicyMap) {
    forall name :: name in q ==> name in p && ValueSet(p[name]) <= ValueSet(q[name])
  }

  ghost predicate Grants(p: PolicyMap, attributes: map<string, string>) {
    PolicyAllows(Present(p), Present(attributes))
  }

  /** The rule, nil values included: there is a policy, and for every attribute it names the user has a
      value, and the value is one of the allowed. */
  lemma RuleByValueSet(policy: Nilable<PolicyMap>, attributes: Nilable<map<string, string>>)
    ensures PolicyAllows(policy, attributes) <==>
            && policy.Present?
            && forall name :: name in policy.value ==>
                 && attributes.Present?
                 && name in attributes.value
                 && attributes.value[name] in ValueSet(policy.value[name])
  {
    if policy.Present? {
      forall name | name in policy.value
        ensures AttributeMatches(attributes, name, policy.value[name]) <==>
                attributes.Present? && name in attributes.value
                && attributes.value[name] in ValueSet(policy.value[name])
      {
      }
      assert PolicyAllows(policy, attributes) <==>
        forall name | name in policy.value.Keys :: AttributeMatches(attributes, name, policy.value[name]);
    }
  }

  /** What is decided, field by field, for users and models of every kind: the model has a policy, and each
      attribute it names the user has, with one of the listed values. */
  lemma DecideExactly(user: UserSpec, model: ModelSpec)
    ensures Decide(user, model) <==>
            && model.userAttributes.Present?
            && forall name :: name in model.userAttributes.value ==>
                 var allowed := model.userAttributes.value[name];
                 && user.attributes.Present?
                 && name in user.attributes.value
                 && allowed.Present?
                 && user.attributes.value[name] in allowed.value
  {
    RuleByValueSet(model.userAttributes, user.attributes);
    if model.userAttributes.Present? && user.attributes.Present? {
      forall name | name in model.userAttributes.value && name in user.attributes.value
        ensures var allowed, v := model.userAttributes.value[name], user.attributes.value[name];
                v in ValueSet(allowed) <==> allowed.Present? && v in allowed.value
      {
      }
    }
  }

  /** One policy lets in only users another lets in exactly when it can never be met, or it
      constrains every attribute of the other to a subset of its values. */
  lemma PolicyInclusion(p: PolicyMap, q: PolicyMap)
    ensures (forall a :: Grants(p, a) ==> Grants(q, a)) <==> Unsatisfiable(p) || AtLeastAsStrict(p, q)
  {
    forall a ensures Grants(p, a) <==> forall name :: name in p ==> name in a && a[name] in ValueSet(p[name]) {
      RuleByValueSet(Present(p), Present(a));
    }
    forall a ensures Grants(q, a) <==> forall name :: name in q ==> name in a && a[name] in ValueSet(q[name]) {
      RuleByValueSet(Present(q), Present(a));
    }
    if !Unsatisfiable(p) && !AtLeastAsStrict(p, q) {
      var name :| name in q && !(name in p && ValueSet(p[name]) <= ValueSet(q[name]));
      var a := SeparatingUser(p, q, name);
      assert Grants(p, a) && !Grants(q, a);
    }
  }

  /** A user that `p` lets in and `q` refuses because of attribute `name`. */
  lemma SeparatingUser(p: PolicyMap, q: PolicyMap, name: string) returns (a: map<string, string>)
    requires !Unsatisfiable(p)
    requires name in q && !(name in p && ValueSet(p[name]) <= ValueSet(q[name]))
    ensures Grants(p, a) && !Grants(q, a)
  {
    assert forall k :: k in p ==> ValueSet(p[k]) != {};
    if name in p {
      var v :| v in ValueSet(p[name]) && v !in ValueSet(q[name]);
      a := map k | k in p :: if k == name then v else AnyOf(ValueSet(p[k]));
    } else {
      a := map k | k in p :: AnyOf(ValueSet(p[k]));
    }
    RuleByValueSet(Present(p), Present(a));
    RuleByValueSet(Present(q), Present(a));
  }

  ghost function AnyOf(values: set<string>): (v: string)
    requires values != {}
    ensures v in values
  {
    var v :| v in values; v
  }

  /** Union of keys, with the lists of a shared key intersected. */
  function Merge(p: PolicyMap, q: PolicyMap): PolicyMap {
    map name | name in p.Keys + q.Keys ::
      if name !in q then p[name]
      else if name !in p then q[name]
      else Intersect(p[name], q[name])
  }

  function Intersect(a: Nilable<seq<string>>, b: Nilable<seq<string>>): (r: Nilable<seq<string>>)
    ensures ValueSet(r) == ValueSet(a) * ValueSet(b)
  {
    if a.Nil? || b.Nil? then Nil
    else
      var r := Present(Common(a.value, b.value));
      assert forall v :: v in ValueSet(r) <==> v in r.value;
      assert forall v :: v in ValueSet(a) <==> v in a.value;
      assert forall v :: v in ValueSet(b) <==> v in b.value;
      r
  }

  function Common(a: seq<string>, b: seq<string>): (r: seq<string>)
    ensures forall v :: v in r <==> v in a && v in b
  {
    if a == [] then []
    else
      var rest := Common(a[..|a| - 1], b);
      assert a == a[..|a| - 1] + [a[|a| - 1]];
      if a[|a| - 1] in b then rest + [a[|a| - 1]] else rest
  }

  /** Merging two policies lets in exactly the users both let in. */
  lemma MergeIsConjunction(p: PolicyMap, q: PolicyMap, a: map<string, string>)
    ensures Grants(Merge(p, q), a) <==> Grants(p, a) && Grants(q, a)
  {
    RuleByValueSet(Present(p), Present(a));
    RuleByValueSet(Present(q), Present(a));
    RuleByValueSet(Present(Merge(p, q)), Present(a));
    var m := Merge(p, q);
    if Grants(m, a) {
      forall name | name in p ensures name in a && a[name] in ValueSet(p[name]) {
        assert name in m;
      }
      forall name | name in q ensures name in a && a[name] in ValueSet(q[name]) {
        assert name in m;
      }
    }
  }

  /** Attributes the policy does not name are irrelevant, and adding attributes under new keys never
      takes access away. */
  lemma OnlyNamedAttributesMatter(p: PolicyMap, a: map<string, string>, b: map<string, string>)
    ensures (forall k :: k in p ==> (k in a <==> k in b) && (k in a ==> a[k] == b[k])) ==>
              (Grants(p, a) <==> Grants(p, b))
    ensures (forall k :: k in a ==> k in b && b[k] == a[k]) ==> (Grants(p, a) ==> Grants(p, b))
  {
    RuleByValueSet(Present(p), Present(a));
    RuleByValueSet(Present(p), Present(b));
  }
}
