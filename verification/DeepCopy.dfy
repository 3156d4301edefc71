/** The spec records as heap objects, with maps and slices shared by reference as in Go, and their
    generated deep copies. `...Holds(o, repr, v)` says that `o` reads as the value `v` and that
    everything it reaches lies in `repr`. */
module DeepCopy {
  import opened Specs

  /** A Go `map[string]string`. */
  class StringMap {
    var entries: map<string, string>

    constructor ()
      ensures entries == map[]
    {
      entries := map[];
    }
  }

  /** A Go `map[string][]string`; a null element is a nil slice, an array of length 0 an empty one. */
  class SliceMap {
    var entries: map<string, array?<string>>

    constructor (entries: map<string, array?<string>>)
      ensures this.entries == entries
    {
      this.entries := entries;
    }
  }

  class UserObject {
    var id: string
    var attributes: StringMap?

    constructor ()
      ensures id == "" && attributes == null
    {
      id, attributes := "", null;
    }
  }

  class ModelObject {
    var id: string
    var modelType: string
    var baseModelId: string
    var userAttributes: SliceMap?
    var keyWords: array?<string>
    var descriptions: array?<string>

    constructor ()
      ensures id == "" && modelType == "" && baseModelId == ""
      ensures userAttributes == null && keyWords == null && descriptions == null
    {
      id, modelType, baseModelId := "", "", "";
      userAttributes, keyWords, descriptions := null, null, null;
    }

    /** Struct assignment, field by field. */
    method Assign(id: string, modelType: string, baseModelId: string, userAttributes: SliceMap?,
                  keyWords: array?<string>, descriptions: array?<string>)
      modifies this
      ensures this.id == id && this.modelType == modelType && this.baseModelId == baseModelId
      ensures this.userAttributes == userAttributes && this.keyWords == keyWords && this.descriptions == descriptions
    {
      this.id, this.modelType, this.baseModelId := id, modelType, baseModelId;
      this.userAttributes, this.keyWords, this.descriptions := userAttributes, keyWords, descriptions;
    }
  }

  function SliceValue(s: array?<string>): Nilable<seq<string>>
    reads s
  {
    if s == null then Nil else Present(s[..])
  }

  ghost predicate SliceHolds(s: array?<string>, repr: set<object>, v: Nilable<seq<string>>)
    reads repr
  {
    (s != null ==> s in repr) && SliceValue(s) == v
  }

  ghost predicate PolicyHolds(p: SliceMap?, repr: set<object>, v: Nilable<PolicyMap>)
    reads repr
  {
    if p == null then v.Nil?
    else
      && p in repr
      && v.Present?
      && p.entries.Keys == v.value.Keys
      && forall k :: k in p.entries ==> SliceHolds(p.entries[k], repr, v.value[k])
  }

  ghost predicate UserHolds(o: UserObject, repr: set<object>, v: UserSpec)
    reads repr
  {
    && o in repr
    && o.id == v.id
    && (if o.attributes == null then v.attributes.Nil?
        else o.attributes in repr && v.attributes == Present(o.attributes.entries))
  }

  ghost predicate ModelHolds(o: ModelObject, repr: set<object>, v: ModelSpec)
    reads repr
  {
    && o in repr
    && o.id == v.id && o.modelType == v.modelType && o.baseModelId == v.baseModelId
    && PolicyHolds(o.userAttributes, repr, v.userAttributes)
    && SliceHolds(o.keyWords, repr, v.keyWords)
    && SliceHolds(o.descriptions, repr, v.descriptions)
  }

  lemma ModelHoldsInMore(o: ModelObject, repr: set<object>, more: set<object>, v: ModelSpec)
    requires ModelHolds(o, repr, v) && repr <= more
    ensures ModelHolds(o, more, v)
  {
  }

  // ----- Reading records as values --------------------------------------------------------------------

  function UserValue(o: UserObject): UserSpec
    reads o, o.attributes
  {
    UserSpec(o.id, if o.attributes == null then Nil else Present(o.attributes.entries))
  }

  function PolicyValue(p: SliceMap?): Nilable<PolicyMap>
    reads p, if p == null then {} else set k | k in p.entries && p.entries[k] != null :: p.entries[k]
  {
    if p == null then Nil else Present(map k | k in p.entries :: SliceValue(p.entries[k]))
  }

  function ModelValue(o: ModelObject): ModelSpec
    reads o, o.userAttributes, o.keyWords, o.descriptions
    reads if o.userAttributes == null then {}
          else set k | k in o.userAttributes.entries && o.userAttributes.entries[k] != null
               :: o.userAttributes.entries[k]
  {
    ModelSpec(o.id, o.modelType, o.baseModelId,
              PolicyValue(o.userAttributes), SliceValue(o.keyWords), SliceValue(o.descriptions))
  }

  lemma UserValueIsHeld(o: UserObject, repr: set<object>, v: UserSpec)
    requires UserHolds(o, repr, v)
    ensures UserValue(o) == v
  {
  }

  lemma ModelValueIsHeld(o: ModelObject, repr: set<object>, v: ModelSpec)
    requires ModelHolds(o, repr, v)
    ensures ModelValue(o) == v
  {
    if o.userAttributes != null {
      assert PolicyValue(o.userAttributes).value == v.userAttributes.value;
    }
  }

  // ----- Deep copies --------------------------------------------------------------------------------

  /** `make` and `copy` of a slice, nil staying nil. */
  method CopySlice(s: array?<string>, ghost from: set<object>, ghost v: Nilable<seq<string>>)
    returns (r: array?<string>, ghost repr: set<object>)
    requires SliceHolds(s, from, v)
    ensures SliceHolds(r, repr, v) && fresh(repr)
  {
    if s == null {
      return null, {};
    }
    r := new string[s.Length];
    for i := 0 to s.Length
      invariant r[..i] == s[..i]
    {
      r[i] := s[i];
    }
    assert r[..] == r[..s.Length] == s[..s.Length] == s[..];
    repr := {r};
  }

  /** `UserSpec.DeepCopyInto` */
  method CopyUserInto(o: UserObject, out: UserObject, ghost from: set<object>, ghost v: UserSpec)
    returns (ghost repr: set<object>)
    requires UserHolds(o, from, v) && out !in from
    modifies out
    ensures UserHolds(out, repr, v) && fresh(repr - {out})
  {
    out.id, out.attributes := o.id, o.attributes;
    repr := {out};
    if o.attributes != null {
      var m := new StringMap();
      var todo := o.attributes.entries.Keys;
      while todo != {}
        modifies m
        invariant todo <= o.attributes.entries.Keys
        invariant m.entries == map k | k in o.attributes.entries.Keys - todo :: o.attributes.entries[k]
        decreases |todo|
      {
        var k :| k in todo;
        m.entries := m.entries[k := o.attributes.entries[k]];
        todo := todo - {k};
      }
      assert m.entries == o.attributes.entries;
      out.attributes := m;
      repr := {out, m};
    }
  }

  /** `UserSpec.DeepCopy` */
  method CopyUser(o: UserObject, ghost from: set<object>, ghost v: UserSpec)
    returns (out: UserObject, ghost repr: set<object>)
    requires UserHolds(o, from, v)
    ensures UserHolds(out, repr, v) && fresh(repr)
  {
    out := new UserObject();
    repr := CopyUserInto(o, out, from, v);
  }

  /** `ModelAccessPolicy.DeepCopyInto`: a fresh map of fresh slices. */
  method CopyPolicy(p: SliceMap?, ghost from: set<object>, ghost v: Nilable<PolicyMap>)
    returns (r: SliceMap?, ghost repr: set<object>)
    requires PolicyHolds(p, from, v)
    ensures PolicyHolds(r, repr, v) && fresh(repr)
  {
    if p == null {
      return null, {};
    }
    ghost var before := set o: object {:trigger allocated(o)} | allocated(o);
    var entries: map<string, array?<string>> := map[];
    repr := {};
    var todo := p.entries.Keys;
    while todo != {}
      invariant repr !! before
      invariant todo <= p.entries.Keys
      invariant entries.Keys == p.entries.Keys - todo
      invariant forall k :: k in entries && entries[k] != null ==> entries[k] in repr
      invariant forall k :: k in entries ==> SliceValue(entries[k]) == v.value[k]
      decreases |todo|
    {
      var k :| k in todo;
      var outVal, outRepr := CopySlice(p.entries[k], from, v.value[k]);
      entries := entries[k := outVal];
      repr := repr + outRepr;
      todo := todo - {k};
    }
    r := new SliceMap(entries);
    repr := repr + {r};
  }

  /** `ModelSpec.DeepCopyInto` */
  method CopyModelInto(o: ModelObject, out: ModelObject, ghost from: set<object>, ghost v: ModelSpec)
    returns (ghost repr: set<object>)
    requires ModelHolds(o, from, v) && out !in from
    modifies out
    ensures ModelHolds(out, repr, v) && fresh(repr - {out})
  {
    var policy, policyRepr := CopyPolicy(o.userAttributes, from, v.userAttributes);
    var keyWords, keyWordsRepr := CopySlice(o.keyWords, from, v.keyWords);
    var descriptions, descriptionsRepr := CopySlice(o.descriptions, from, v.descriptions);
    out.Assign(o.id, o.modelType, o.baseModelId, policy, keyWords, descriptions);
    repr := {out} + policyRepr + keyWordsRepr + descriptionsRepr;
  }

  /** `ModelSpec.DeepCopy` */
  method CopyModel(o: ModelObject, ghost from: set<object>, ghost v: ModelSpec)
    returns (out: ModelObject, ghost repr: set<object>)
    requires ModelHolds(o, from, v)
    ensures ModelHolds(out, repr, v) && fresh(repr)
  {
    out := new ModelObject();
    repr := CopyModelInto(o, out, from, v);
  }

  // ----- Records decoded from values ---------------------------------------------------------------

  method NewSlice(v: Nilable<seq<string>>) returns (r: array?<string>, ghost repr: set<object>)
    ensures SliceHolds(r, repr, v) && fresh(repr)
  {
    if v.Nil? {
      return null, {};
    }
    var n := |v.value|;
    r := new string[n];
    for i := 0 to n
      invariant r[..i] == v.value[..i]
    {
      r[i] := v.value[i];
    }
    assert r[..] == r[..n] == v.value[..n] == v.value;
    repr := {r};
  }

  method NewPolicy(v: Nilable<PolicyMap>) returns (r: SliceMap?, ghost repr: set<object>)
    ensures PolicyHolds(r, repr, v) && fresh(repr)
  {
    if v.Nil? {
      return null, {};
    }
    ghost var before := set o: object {:trigger allocated(o)} | allocated(o);
    var entries: map<string, array?<string>> := map[];
    repr := {};
    var todo := v.value.Keys;
    while todo != {}
      invariant repr !! before
      invariant todo <= v.value.Keys
      invariant entries.Keys == v.value.Keys - todo
      invariant forall k :: k in entries && entries[k] != null ==> entries[k] in repr
      invariant forall k :: k in entries ==> SliceValue(entries[k]) == v.value[k]
      decreases |todo|
    {
      var k :| k in todo;
      var s, sRepr := NewSlice(v.value[k]);
      entries := entries[k := s];
      repr := repr + sRepr;
      todo := todo - {k};
    }
    r := new SliceMap(entries);
    repr := repr + {r};
  }

  method NewModel(v: ModelSpec) returns (o: ModelObject, ghost repr: set<object>)
    ensures ModelHolds(o, repr, v) && fresh(repr)
  {
    var policy, policyRepr := NewPolicy(v.userAttributes);
    var keyWords, keyWordsRepr := NewSlice(v.keyWords);
    var descriptions, descriptionsRepr := NewSlice(v.descriptions);
    o := new ModelObject();
    o.Assign(v.id, v.modelType, v.baseModelId, policy, keyWords, descriptions);
    repr := {o} + policyRepr + keyWordsRepr + descriptionsRepr;
  }

  method NewUser(v: UserSpec) returns (o: UserObject, ghost repr: set<object>)
    ensures UserHolds(o, repr, v) && fresh(repr)
  {
    o := new UserObject();
    o.id := v.id;
    repr := {o};
    if v.attributes.Present? {
      var m := new StringMap();
      m.entries := v.attributes.value;
      o.attributes := m;
      repr := {o, m};
    }
  }
}
