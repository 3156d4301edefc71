/** Isolation of the store from its clients. A client keeps every record it made, passed in or was handed,
    and overwrites the memory of any of them at any time; still, all it ever observes is a store of plain
    values, and records that are values of their own. */
module Isolation {
  import opened Specs
  import opened DeepCopy
  import opened MemoryStore

  // ----- The same on values ----------------------------------------------------------------------------

  /** What a client does. Records are named by their position in the order in which it got hold of them. */
  datatype Call =
    | Make(v: Spec)
    | Overwrite(h: nat, v: Spec)
    | Sync(h: nat)
    | Delete(ref: Ref)
    | Get(ref: Ref)
    | List(modelType: string)

  /** What it sees: read off the records returned, when they are returned. */
  datatype Answer =
    | Done
    | NoRecord
    | Accepted(ok: bool)
    | Got(found: Option<Spec>)
    | Listed(models: seq<ModelSpec>)

  /** A store of values, and the value of each record of the client. */
  datatype Plain = Plain(store: Store, records: seq<Spec>)

  function Lookup(st: Store, ref: Ref): Option<Spec> {
    match ref
    case UserRef(id) => if id in st.users then Some(UserOf(st.users[id])) else None
    case ModelRef(id) => if id in st.models then Some(ModelOf(st.models[id])) else None
  }

  /** There is a record `h`, and it is of the kind of `v`. */
  predicate CanHold(records: seq<Spec>, h: nat, v: Spec) {
    h < |records| && (records[h].UserOf? <==> v.UserOf?)
  }

  ghost predicate Answers(call: Call, a: Answer, p: Plain) {
    match call
    case Make(_) => a == Done
    case Overwrite(h, v) => a == if CanHold(p.records, h, v) then Done else NoRecord
    case Sync(h) => a == if h < |p.records| then Accepted(p.records[h].Id() != "") else NoRecord
    case Delete(_) => a == Done
    case Get(ref) => a == Got(Lookup(p.store, ref))
    case List(t) => a.Listed? && ListsModels(a.models, p.store.models, t)
  }

  function ModelsAsSpecs(models: seq<ModelSpec>): seq<Spec> {
    seq(|models|, i requires 0 <= i < |models| => ModelOf(models[i]))
  }

  /** Overwriting a record changes that record; a Get or List adds records; nothing but Sync and Delete
      changes the store. */
  function After(call: Call, a: Answer, p: Plain): Plain {
    match call
    case Make(v) => p.(records := p.records + [v])
    case Overwrite(h, v) => if CanHold(p.records, h, v) then p.(records := p.records[h := v]) else p
    case Sync(h) => if h < |p.records| then p.(store := Apply(SyncWrite(p.records[h]), p.store)) else p
    case Delete(ref) => p.(store := Apply(DeleteWrite(ref), p.store))
    case Get(ref) =>
      var found := Lookup(p.store, ref);
      if found.Some? then p.(records := p.records + [found.value]) else p
    case List(_) => if a.Listed? then p.(records := p.records + ModelsAsSpecs(a.models)) else p
  }

  /** Where a script leads, given the answers (which matter for the order of listings only). */
  function Outcome(script: seq<Call>, answers: seq<Answer>): Plain
    requires |script| == |answers|
  {
    if script == [] then Plain(EMPTY_STORE, [])
    else
      var n := |script| - 1;
      After(script[n], answers[n], Outcome(script[..n], answers[..n]))
  }

  ghost predicate AnswersAll(script: seq<Call>, answers: seq<Answer>) {
    && |script| == |answers|
    && forall k :: 0 <= k < |script| ==> Answers(script[k], answers[k], Outcome(script[..k], answers[..k]))
  }

  lemma AnswersOneMore(script: seq<Call>, answers: seq<Answer>, call: Call, a: Answer)
    requires AnswersAll(script, answers) && Answers(call, a, Outcome(script, answers))
    ensures AnswersAll(script + [call], answers + [a])
    ensures Outcome(script + [call], answers + [a]) == After(call, a, Outcome(script, answers))
  {
    var s, h, n := script + [call], answers + [a], |script|;
    assert s[..n] == script && h[..n] == answers;
    forall k | 0 <= k < |s| ensures Answers(s[k], h[k], Outcome(s[..k], h[..k])) {
      assert s[..k] == script[..k] && h[..k] == answers[..k];
      assert script[..n] == script && answers[..n] == answers;
    }
  }

  // ----- Overwriting memory -----------------------------------------------------------------------------

  method TrampleSlice(s: array?<string>)
    modifies if s == null then {} else {s}
  {
    if s != null {
      for i := 0 to s.Length {
        s[i] := "trampled";
      }
    }
  }

  /** Every slice of the policy, and then the map itself. */
  method TramplePolicy(p: SliceMap?, ghost repr: set<object>, ghost v: Nilable<PolicyMap>)
    requires PolicyHolds(p, repr, v)
    modifies repr
  {
    if p != null {
      var entries := p.entries;
      var todo := entries.Keys;
      while todo != {}
        invariant todo <= entries.Keys
        decreases |todo|
      {
        var k :| k in todo;
        TrampleSlice(entries[k]);
        todo := todo - {k};
      }
      p.entries := map[];
    }
  }

  /** Writes over all that the record reaches, then has it read as `v`. */
  method OverwriteUser(o: UserObject, ghost repr: set<object>, ghost was: UserSpec, v: UserSpec)
    returns (ghost repr': set<object>)
    requires UserHolds(o, repr, was)
    modifies repr
    ensures UserHolds(o, repr', v) && fresh(repr' - {o})
  {
    if o.attributes != null {
      o.attributes.entries := map[];
    }
    var c, cRepr := NewUser(v);
    o.id, o.attributes := c.id, c.attributes;
    repr' := (cRepr - {c}) + {o};
  }

  method OverwriteModel(o: ModelObject, ghost repr: set<object>, ghost was: ModelSpec, v: ModelSpec)
    returns (ghost repr': set<object>)
    requires ModelHolds(o, repr, was)
    modifies repr
    ensures ModelHolds(o, repr', v) && fresh(repr' - {o})
  {
    var policy, keyWords, descriptions := o.userAttributes, o.keyWords, o.descriptions;
    TramplePolicy(policy, repr, was.userAttributes);
    TrampleSlice(keyWords);
    TrampleSlice(descriptions);
    var newPolicy, policyRepr := NewPolicy(v.userAttributes);
    var newWords, wordsRepr := NewSlice(v.keyWords);
    var newDescriptions, descriptionsRepr := NewSlice(v.descriptions);
    o.Assign(v.id, v.modelType, v.baseModelId, newPolicy, newWords, newDescriptions);
    repr' := {o} + policyRepr + wordsRepr + descriptionsRepr;
  }

  // ----- Records ------------------------------------------------------------------------------------------

  datatype Record = UserRecord(user: UserObject) | ModelRecord(model: ModelObject)

  /** What a record reads as. */
  function Reading(r: Record): Spec
    reads *
  {
    match r
    case UserRecord(u) => UserOf(UserValue(u))
    case ModelRecord(m) => ModelOf(ModelValue(m))
  }

  ghost predicate RecordHolds(r: Record, repr: set<object>, v: Spec)
    reads repr
  {
    match r
    case UserRecord(u) => v.UserOf? && UserHolds(u, repr, v.user)
    case ModelRecord(m) => v.ModelOf? && ModelHolds(m, repr, v.model)
  }

  lemma ReadingIsHeld(r: Record, repr: set<object>, v: Spec)
    requires RecordHolds(r, repr, v)
    ensures Reading(r) == v
  {
    match r {
      case UserRecord(u) => UserValueIsHeld(u, repr, v.user);
      case ModelRecord(m) => ModelValueIsHeld(m, repr, v.model);
    }
  }

  method NewRecord(v: Spec) returns (r: Record, ghost repr: set<object>)
    ensures RecordHolds(r, repr, v) && fresh(repr)
  {
    match v {
      case UserOf(u) =>
        var o, oRepr := NewUser(u);
        return UserRecord(o), oRepr;
      case ModelOf(m) =>
        var o, oRepr := NewModel(m);
        return ModelRecord(o), oRepr;
    }
  }

  method Trample(r: Record, ghost repr: set<object>, ghost was: Spec, v: Spec) returns (ghost repr': set<object>)
    requires RecordHolds(r, repr, was) && (r.UserRecord? <==> v.UserOf?)
    modifies repr
    ensures RecordHolds(r, repr', v) && fresh(repr' - repr)
  {
    match r {
      case UserRecord(u) => repr' := OverwriteUser(u, repr, was.user, v.user);
      case ModelRecord(m) => repr' := OverwriteModel(m, repr, was.model, v.model);
    }
  }

  method Fetch(ref: Ref, store: MemStore) returns (found: Option<Record>, ghost repr: set<object>)
    requires store.Valid()
    ensures fresh(repr) && (found.Some? <==> Lookup(store.View(), ref).Some?)
    ensures found.Some? ==> RecordHolds(found.value, repr, Lookup(store.View(), ref).value)
  {
    match ref {
      case UserRef(id) =>
        var r, rRepr := store.GetUser(id);
        return if r.Some? then Some(UserRecord(r.value)) else None, rRepr;
      case ModelRef(id) =>
        var r, rRepr := store.GetModel(id);
        return if r.Some? then Some(ModelRecord(r.value)) else None, rRepr;
    }
  }

  /** The values of listed models, read off their records. */
  method ModelValues(r: seq<ModelObject>, ghost reprs: seq<set<object>>, ghost values: seq<ModelSpec>,
                     ghost mem: set<object>)
    returns (models: seq<ModelSpec>)
    requires CopiesOf(r, reprs, values, mem)
    ensures models == values
  {
    models := [];
    for i := 0 to |r|
      invariant models == values[..i]
    {
      ModelValueIsHeld(r[i], reprs[i], values[i]);
      models := models + [ModelValue(r[i])];
    }
  }

  /** Each record holds its value in memory of its own, all of it within `mem`. */
  ghost predicate Held(records: seq<Record>, reprs: seq<set<object>>, values: seq<Spec>, mem: set<object>)
    reads mem
  {
    && |records| == |reprs| == |values|
    && (forall i :: 0 <= i < |records| ==> reprs[i] <= mem && RecordHolds(records[i], reprs[i], values[i]))
    && (forall i, j :: 0 <= i < j < |reprs| ==> reprs[i] !! reprs[j])
  }

  function ModelRecords(r: seq<ModelObject>): seq<Record> {
    seq(|r|, i requires 0 <= i < |r| => ModelRecord(r[i]))
  }

  lemma ListedRecordsHold(r: seq<ModelObject>, reprs: seq<set<object>>, values: seq<ModelSpec>, mem: set<object>)
    requires CopiesOf(r, reprs, values, mem)
    ensures Held(ModelRecords(r), reprs, ModelsAsSpecs(values), mem)
  {
  }

  method FetchAll(modelType: string, store: MemStore)
    returns (models: seq<ModelSpec>, records: seq<Record>, ghost reprs: seq<set<object>>, ghost mem: set<object>)
    requires store.Valid()
    ensures Held(records, reprs, ModelsAsSpecs(models), mem) && fresh(mem)
    ensures ListsModels(models, store.modelView, modelType)
  {
    var r, rReprs, values, rMem := store.ListModelsByType(modelType);
    models := ModelValues(r, rReprs, values, rMem);
    ListedRecordsHold(r, rReprs, values, rMem);
    records, reprs, mem := ModelRecords(r), rReprs, rMem;
  }

  // ----- The client -----------------------------------------------------------------------------------------

  class Client {
    var records: seq<Record>
    ghost var reprs: seq<set<object>>
    ghost var values: seq<Spec>
    ghost var mem: set<object>

    ghost predicate Valid()
      reads this, mem
    {
      this !in mem && Held(records, reprs, values, mem)
    }

    /** The client's records, and the store, have memory of their own each. */
    ghost predicate Apart(store: MemStore)
      reads this, mem, store, store.userRepr, store.modelRepr
    {
      Valid() && store.Valid() && this !in store.Repr() && mem !! store.Repr()
    }

    constructor ()
      ensures records == [] && reprs == [] && values == [] && mem == {}
    {
      records, reprs, values, mem := [], [], [], {};
    }

    method Hold(records: seq<Record>, ghost reprs: seq<set<object>>, ghost values: seq<Spec>, ghost mem: set<object>)
      requires this !in mem && Held(records, reprs, values, mem)
      modifies this
      ensures Valid()
      ensures this.records == records && this.reprs == reprs && this.values == values && this.mem == mem
    {
      this.records, this.reprs, this.values, this.mem := records, reprs, values, mem;
    }

    /** One more record. */
    method Keep(r: Record, ghost repr: set<object>, ghost v: Spec)
      requires Valid() && RecordHolds(r, repr, v) && repr !! mem && this !in repr
      modifies this
      ensures Valid()
      ensures values == old(values) + [v] && mem == old(mem) + repr
    {
      Hold(records + [r], reprs + [repr], values + [v], mem + repr);
    }

    method OverwriteRecord(h: nat, v: Spec, store: MemStore) returns (a: Answer)
      requires Apart(store)
      modifies this, mem
      ensures Apart(store) && fresh(mem - old(mem)) && store.View() == old(store.View())
      ensures a == if CanHold(old(values), h, v) then Done else NoRecord
      ensures values == if CanHold(old(values), h, v) then old(values)[h := v] else old(values)
    {
      if h >= |records| {
        return NoRecord;
      }
      if records[h].UserRecord? != v.UserOf? {
        return NoRecord;
      }
      ghost var repr := Trample(records[h], reprs[h], values[h], v);
      forall i | 0 <= i < |records| && i != h ensures RecordHolds(records[i], reprs[i], values[i]) && reprs[i] !! repr {
        assert reprs[i] !! reprs[h];
      }
      Hold(records, reprs[h := repr], values[h := v], mem + repr);
      return Done;
    }

    method SyncRecord(h: nat, store: MemStore) returns (a: Answer)
      requires Apart(store)
      modifies store
      ensures Apart(store) && fresh(store.Repr() - old(store.Repr()))
      ensures a == if h < |values| then Accepted(values[h].Id() != "") else NoRecord
      ensures store.View() == if h < |values| then Apply(SyncWrite(values[h]), old(store.View())) else old(store.View())
    {
      if h >= |records| {
        return NoRecord;
      }
      var ok;
      match records[h] {
        case UserRecord(u) => ok := store.SyncUser(u, reprs[h], values[h].user);
        case ModelRecord(m) => ok := store.SyncModel(m, reprs[h], values[h].model);
      }
      return Accepted(ok);
    }

    method DeleteEntry(ref: Ref, store: MemStore)
      requires Apart(store)
      modifies store
      ensures Apart(store) && store.Repr() == old(store.Repr())
      ensures store.View() == Apply(DeleteWrite(ref), old(store.View()))
    {
      match ref {
        case UserRef(id) => store.DeleteUser(id);
        case ModelRef(id) => store.DeleteModel(id);
      }
    }

    /** The record that comes back is kept. */
    method GetEntry(ref: Ref, store: MemStore) returns (a: Answer)
      requires Apart(store)
      modifies this
      ensures Apart(store) && fresh(mem - old(mem)) && store.View() == old(store.View())
      ensures a == Got(Lookup(store.View(), ref))
      ensures values == if a.found.Some? then old(values) + [a.found.value] else old(values)
    {
      var found, repr := Fetch(ref, store);
      if found.None? {
        return Got(None);
      }
      ghost var v := Lookup(store.View(), ref).value;
      a := Got(Some(Reading(found.value)));
      ReadingIsHeld(found.value, repr, v);
      Keep(found.value, repr, v);
    }

    /** All the records that come back are kept. */
    method ListEntries(modelType: string, store: MemStore) returns (a: Answer)
      requires Apart(store)
      modifies this
      ensures Apart(store) && fresh(mem - old(mem)) && store.View() == old(store.View())
      ensures a.Listed? && ListsModels(a.models, store.modelView, modelType)
      ensures values == old(values) + ModelsAsSpecs(a.models)
    {
      var models, r, rReprs, rMem := FetchAll(modelType, store);
      HeldTogether(records, reprs, values, mem, r, rReprs, ModelsAsSpecs(models), rMem);
      Hold(records + r, reprs + rReprs, values + ModelsAsSpecs(models), mem + rMem);
      return Listed(models);
    }

    /** One step of a script: the answer and what follows are those on values, and the memories stay apart. */
    method Perform(call: Call, store: MemStore) returns (a: Answer)
      requires Apart(store)
      modifies this, mem, store
      ensures Apart(store) && fresh(mem - old(mem)) && fresh(store.Repr() - old(store.Repr()))
      ensures Answers(call, a, Plain(old(store.View()), old(values)))
      ensures Plain(store.View(), values) == After(call, a, Plain(old(store.View()), old(values)))
    {
      match call {
        case Make(v) =>
          var r, repr := NewRecord(v);
          Keep(r, repr, v);
          a := Done;
        case Overwrite(h, v) => a := OverwriteRecord(h, v, store);
        case Sync(h) => a := SyncRecord(h, store);
        case Delete(ref) =>
          DeleteEntry(ref, store);
          a := Done;
        case Get(ref) => a := GetEntry(ref, store);
        case List(t) => a := ListEntries(t, store);
      }
    }
  }

  lemma HeldTogether(a: seq<Record>, aReprs: seq<set<object>>, aValues: seq<Spec>, aMem: set<object>,
                     b: seq<Record>, bReprs: seq<set<object>>, bValues: seq<Spec>, bMem: set<object>)
    requires Held(a, aReprs, aValues, aMem) && Held(b, bReprs, bValues, bMem) && aMem !! bMem
    ensures Held(a + b, aReprs + bReprs, aValues + bValues, aMem + bMem)
  {
  }

  // ----- Sessions -------------------------------------------------------------------------------------------

  method Run(script: seq<Call>, client: Client, store: MemStore) returns (answers: seq<Answer>)
    requires client.Apart(store) && store.View() == EMPTY_STORE && client.values == []
    modifies client, client.mem, store
    ensures client.Apart(store) && AnswersAll(script, answers)
    ensures Plain(store.View(), client.values) == Outcome(script, answers)
  {
    answers := [];
    for i := 0 to |script|
      invariant client.Apart(store) && fresh(client.mem - old(client.mem))
      invariant |answers| == i && AnswersAll(script[..i], answers)
      invariant Plain(store.View(), client.values) == Outcome(script[..i], answers)
    {
      var a := client.Perform(script[i], store);
      AnswersOneMore(script[..i], answers, script[i], a);
      assert script[..i + 1] == script[..i] + [script[i]];
      answers := answers + [a];
    }
    assert script[..|script|] == script;
  }

  /** After any script, every answer is the one a store of values gives, and every record the client made or
      was handed reads as what the client last made of it: neither passing a record in, nor being handed one,
      nor writing over any of them, shows anywhere else. */
  method Session(script: seq<Call>) returns (answers: seq<Answer>, records: seq<Record>)
    ensures AnswersAll(script, answers)
    ensures |records| == |Outcome(script, answers).records|
    ensures forall i :: 0 <= i < |records| ==> Reading(records[i]) == Outcome(script, answers).records[i]
  {
    var store := new MemStore();
    var client := new Client();
    answers := Run(script, client, store);
    records := client.records;
    forall i | 0 <= i < |records| ensures Reading(records[i]) == client.values[i] {
      ReadingIsHeld(records[i], client.reprs[i], client.values[i]);
    }
  }
}
