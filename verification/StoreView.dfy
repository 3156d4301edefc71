/** The store the reconcilers write, read as the two halves a request sees. */
module StoreView {
  import opened Specs
  import F = Finalizer

  /** The store of the reconcilers, as the two halves a request reads. */
  function AsStore(store: map<Ref, Spec>): Store {
    Store(UsersOf(store), ModelsOf(store))
  }

  function UsersOf(store: map<Ref, Spec>): map<string, UserSpec> {
    var ids := set r | r in store && r.UserRef? && store[r].UserOf? :: r.id;
    map id | id in ids && UserRef(id) in store && store[UserRef(id)].UserOf? :: store[UserRef(id)].user
  }

  function ModelsOf(store: map<Ref, Spec>): map<string, ModelSpec> {
    var ids := set r | r in store && r.ModelRef? && store[r].ModelOf? :: r.id;
    map id | id in ids && ModelRef(id) in store && store[ModelRef(id)].ModelOf? :: store[ModelRef(id)].model
  }

  // ----- A write by ref is the store's write ---------------------------------------------------

  /** `st` is what `store` reads as. */
  ghost predicate ReadsAs(store: map<Ref, Spec>, st: Store) {
    && (forall id :: id in st.users <==> UserRef(id) in store && store[UserRef(id)].UserOf?)
    && (forall id :: id in st.users ==> st.users[id] == store[UserRef(id)].user)
    && (forall id :: id in st.models <==> ModelRef(id) in store && store[ModelRef(id)].ModelOf?)
    && (forall id :: id in st.models ==> st.models[id] == store[ModelRef(id)].model)
  }

  lemma AsStoreReads(store: map<Ref, Spec>)
    ensures ReadsAs(store, AsStore(store))
  {
    forall id | UserRef(id) in store && store[UserRef(id)].UserOf? ensures id in UsersOf(store) {
      assert UserRef(id).id == id;
    }
    forall id | ModelRef(id) in store && store[ModelRef(id)].ModelOf? ensures id in ModelsOf(store) {
      assert ModelRef(id).id == id;
    }
  }

  lemma ReadsAsOne(store: map<Ref, Spec>, a: Store, b: Store)
    requires ReadsAs(store, a) && ReadsAs(store, b)
    ensures a == b
  {
    assert a.users.Keys == b.users.Keys && a.models.Keys == b.models.Keys;
  }

  lemma SyncReads(store: map<Ref, Spec>, st: Store, spec: Spec)
    requires ReadsAs(store, st) && spec.Id() != ""
    ensures ReadsAs(store[spec.Ref() := spec], Apply(SyncWrite(spec), st))
  {
  }

  /** The store refuses an empty id. */
  lemma EmptyIdIsRefused(st: Store, spec: Spec)
    requires spec.Id() == ""
    ensures Apply(SyncWrite(spec), st) == st
  {
  }

  lemma PurgeReads(store: map<Ref, Spec>, st: Store, spec: Spec)
    requires ReadsAs(store, st)
    ensures ReadsAs(store - {spec.Ref()}, Apply(DeleteWrite(spec.Ref()), st))
  {
  }

  lemma SyncProjects(store: map<Ref, Spec>, spec: Spec)
    requires spec.Id() != ""
    ensures AsStore(store[spec.Ref() := spec]) == Apply(SyncWrite(spec), AsStore(store))
  {
    AsStoreReads(store);
    SyncReads(store, AsStore(store), spec);
    AsStoreReads(store[spec.Ref() := spec]);
    ReadsAsOne(store[spec.Ref() := spec], AsStore(store[spec.Ref() := spec]), Apply(SyncWrite(spec), AsStore(store)));
  }

  lemma PurgeProjects(store: map<Ref, Spec>, spec: Spec)
    ensures AsStore(store - {spec.Ref()}) == Apply(DeleteWrite(spec.Ref()), AsStore(store))
  {
    AsStoreReads(store);
    PurgeReads(store, AsStore(store), spec);
    AsStoreReads(store - {spec.Ref()});
    ReadsAsOne(store - {spec.Ref()}, AsStore(store - {spec.Ref()}), Apply(DeleteWrite(spec.Ref()), AsStore(store)));
  }

  lemma WorkProjects(a: F.State, key: F.Key, w: F.Worker, fails: bool)
    ensures AsStore(F.WorkStep(a, key, w, fails).store) ==
            match w
            case ToSync(o) => Apply(SyncWrite(o.spec), AsStore(a.store))
            case ToPurge(o) => Apply(DeleteWrite(o.spec.Ref()), AsStore(a.store))
            case _ => AsStore(a.store)
  {
    match w {
      case ToSync(o) =>
        if o.spec.Id() == "" {
          EmptyIdIsRefused(AsStore(a.store), o.spec);
        } else {
          SyncProjects(a.store, o.spec);
        }
      case ToPurge(o) => PurgeProjects(a.store, o.spec);
      case _ =>
    }
  }
}
