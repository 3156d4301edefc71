/** The two reconcilers as procedures over an API server and the in-memory store, each proved to do
    what the protocol's steps say. */
module Reconciler {
  import opened Specs
  import opened DeepCopy
  import opened MemoryStore
  import opened StoreView
  import F = Finalizer
  import V = Convergence

  /** The API server: objects by key and the clock that stamps versions. */
  class ApiServer {
    var objects: map<F.Key, F.Object>
    var clock: nat

    constructor ()
      ensures objects == map[] && clock == 0
    {
      objects, clock := map[], 0;
    }

    method Get(key: F.Key) returns (r: Option<F.Object>)
      ensures r == if key in objects then Some(objects[key]) else None
    {
      return if key in objects then Some(objects[key]) else None;
    }

    /** Refused on a transport failure, when the object is gone, or when it has moved past the version
        that was fetched; otherwise the object is stamped and, if nothing holds it any more, removed. */
    method Update(key: F.Key, o: F.Object, fails: bool) returns (r: Option<F.Object>)
      modifies this
      ensures r.Some? <==> !fails && key in old(objects) && old(objects)[key].version == o.version
      ensures r.None? ==> objects == old(objects) && clock == old(clock)
      ensures r.Some? ==> clock == old(clock) + 1 && r.value == o.(version := clock)
      ensures r.Some? ==> objects == F.Stamped(old(objects), clock, key, o)
    {
      if fails || key !in objects || objects[key].version != o.version {
        return None;
      }
      clock := clock + 1;
      var stamped := o.(version := clock);
      if o.deleting && !o.finalizer && o.others == {} {
        objects := objects - {key};
      } else {
        objects := objects[key := stamped];
      }
      return Some(stamped);
    }
  }

  // ----- One reconcile as a function --------------------------------------------------------------

  /** The objects, the clock and the store, as seen from outside. */
  datatype World = World(objects: map<F.Key, F.Object>, clock: nat, store: Store)

  function Put(w: World, key: F.Key, o: F.Object): World {
    w.(clock := w.clock + 1, objects := F.Stamped(w.objects, w.clock + 1, key, o))
  }

  /** One undisturbed reconcile of `key`, its update failing if `fails`. */
  function ReconcileSpec(w: World, key: F.Key, fails: bool): World {
    if key !in w.objects then w
    else
      var o := w.objects[key];
      if o.deleting then (
        if !o.finalizer then w
        else
          var purged := w.(store := Apply(DeleteWrite(o.spec.Ref()), w.store));
          if fails then purged else Put(purged, key, o.(finalizer := false)))
      else if o.finalizer then w.(store := Apply(SyncWrite(o.spec), w.store))
      else if fails then w
      else Put(w, key, o.(finalizer := true)).(store := Apply(SyncWrite(o.spec), w.store))
  }

  // ----- It is what the protocol's steps add up to -------------------------------------------------

  /** The reconcile in flight runs to its end, its update failing if `fails`. */
  function RunOut(s: F.State, key: F.Key, fails: bool): F.State
    decreases V.Rank(s, key)
  {
    if key !in s.workers then s else RunOut(F.Step(s, F.Work(key, fails)), key, fails)
  }

  /** One whole reconcile of `key` in the protocol: the Get and the steps that follow. */
  function Attempt(s: F.State, key: F.Key, fails: bool): F.State {
    RunOut(F.Step(s, F.Get(key)), key, fails)
  }

  function Outside(s: F.State): World {
    World(s.api, s.clock, AsStore(s.store))
  }

  function Synced(store: map<Ref, Spec>, spec: Spec): map<Ref, Spec> {
    if spec.Id() == "" then store else store[spec.Ref() := spec]
  }

  lemma SyncedProjects(store: map<Ref, Spec>, spec: Spec)
    ensures AsStore(Synced(store, spec)) == Apply(SyncWrite(spec), AsStore(store))
  {
    if spec.Id() == "" {
      EmptyIdIsRefused(AsStore(store), spec);
    } else {
      SyncProjects(store, spec);
    }
  }

  lemma RunOutSync(s: F.State, key: F.Key, fails: bool, o: F.Object)
    requires key in s.workers && s.workers[key] == F.ToSync(o)
    ensures var r := RunOut(s, key, fails); r.api == s.api && r.clock == s.clock && r.store == Synced(s.store, o.spec)
  {
    var s' := F.Step(s, F.Work(key, fails));
    assert RunOut(s, key, fails) == RunOut(s', key, fails) == s';
  }

  lemma RunOutFinalize(s: F.State, key: F.Key, fails: bool, o: F.Object)
    requires key in s.workers && s.workers[key] == F.ToFinalize(o) && key in s.api && s.api[key] == o && !o.deleting
    ensures var r := RunOut(s, key, fails);
            if fails then r.api == s.api && r.clock == s.clock && r.store == s.store
            else
              && r.api == s.api[key := o.(finalizer := true, version := s.clock + 1)]
              && r.clock == s.clock + 1
              && r.store == Synced(s.store, o.spec)
  {
    var s' := F.Step(s, F.Work(key, fails));
    assert RunOut(s, key, fails) == RunOut(s', key, fails);
    if !fails {
      RunOutSync(s', key, fails, o.(finalizer := true, version := s.clock + 1));
    }
  }

  lemma RunOutRelease(s: F.State, key: F.Key, fails: bool, o: F.Object)
    requires key in s.workers && s.workers[key] == F.ToRelease(o) && key in s.api && s.api[key] == o && o.deleting
    ensures var r := RunOut(s, key, fails);
            && r.store == s.store
            && r.clock == (if fails then s.clock else s.clock + 1)
            && r.api == if fails then s.api
                        else if o.others == {} then s.api - {key}
                        else s.api[key := o.(finalizer := false, version := s.clock + 1)]
  {
    var s' := F.Step(s, F.Work(key, fails));
    assert RunOut(s, key, fails) == RunOut(s', key, fails) == s';
  }

  lemma RunOutPurge(s: F.State, key: F.Key, fails: bool, o: F.Object)
    requires key in s.workers && s.workers[key] == F.ToPurge(o) && key in s.api && s.api[key] == o && o.deleting
    ensures var r := RunOut(s, key, fails);
            && r.store == s.store - {o.spec.Ref()}
            && r.clock == (if fails then s.clock else s.clock + 1)
            && r.api == if fails then s.api
                        else if o.others == {} then s.api - {key}
                        else s.api[key := o.(finalizer := false, version := s.clock + 1)]
  {
    var s' := F.Step(s, F.Work(key, fails));
    assert RunOut(s, key, fails) == RunOut(s', key, fails);
    RunOutRelease(s', key, fails, o);
  }

  /** The store after a reconcile, by ref. */
  function StoreAfter(s: F.State, key: F.Key, fails: bool): map<Ref, Spec> {
    if key !in s.api then s.store
    else
      var o := s.api[key];
      if o.deleting then (if o.finalizer then s.store - {o.spec.Ref()} else s.store)
      else if o.finalizer || !fails then Synced(s.store, o.spec)
      else s.store
  }

  lemma AttemptOutcome(s: F.State, key: F.Key, fails: bool, w: World)
    requires key !in s.workers && w.objects == s.api && w.clock == s.clock
    ensures var r, after := Attempt(s, key, fails), ReconcileSpec(w, key, fails);
            r.api == after.objects && r.clock == after.clock && r.store == StoreAfter(s, key, fails)
  {
    if key in s.api {
      var o := s.api[key];
      var s1 := F.Step(s, F.Get(key));
      if o.deleting {
        if o.finalizer {
          RunOutPurge(s1, key, fails, o);
        }
      } else if o.finalizer {
        RunOutSync(s1, key, fails, o);
      } else {
        RunOutFinalize(s1, key, fails, o);
      }
    }
  }

  lemma StoreOutcome(s: F.State, key: F.Key, fails: bool, w: World)
    requires w.objects == s.api && w.store == AsStore(s.store)
    ensures AsStore(StoreAfter(s, key, fails)) == ReconcileSpec(w, key, fails).store
  {
    if key in s.api {
      var o := s.api[key];
      if o.deleting && o.finalizer {
        PurgeProjects(s.store, o.spec);
      } else if !o.deleting && (o.finalizer || !fails) {
        SyncedProjects(s.store, o.spec);
      }
    }
  }

  /** From any protocol state in which nothing is in flight for the key, what a reconcile does to the
      objects, the clock and the store is what the protocol's steps do. */
  lemma ReconcileIsProtocol(s: F.State, key: F.Key, fails: bool)
    requires key !in s.workers
    ensures Outside(Attempt(s, key, fails)) == ReconcileSpec(Outside(s), key, fails)
  {
    AttemptOutcome(s, key, fails, Outside(s));
    StoreOutcome(s, key, fails, Outside(s));
  }

  /** Without a failure it is also the reconcile of the convergence theorem. */
  lemma ReconcileConverges(s: F.State, key: F.Key)
    requires key !in s.workers
    ensures Outside(V.Reconcile(s, key)) == ReconcileSpec(Outside(s), key, false)
  {
    ReconcileIsProtocol(s, key, false);
    RunOutIsFinish(F.Step(s, F.Get(key)), key);
  }

  lemma {:induction false} RunOutIsFinish(s: F.State, key: F.Key)
    ensures RunOut(s, key, false) == V.Finish(s, key)
    decreases V.Rank(s, key)
  {
    if key in s.workers {
      V.WorkLowersRank(s, key);
      RunOutIsFinish(F.Step(s, F.Work(key, false)), key);
    }
  }

  // ----- The reconcilers -----------------------------------------------------------------------------

  /** The reconcile gets as far as syncing a spec the store accepts. */
  predicate Syncs(w: World, key: F.Key, fails: bool) {
    && key in w.objects
    && !w.objects[key].deleting
    && (w.objects[key].finalizer || !fails)
    && w.objects[key].spec.Id() != ""
  }

  /** The reconcile asks to be retried: its update failed, or the store refused an empty id. */
  predicate Errs(w: World, key: F.Key, fails: bool) {
    key in w.objects &&
    var o := w.objects[key];
    if o.deleting then o.finalizer && fails
    else (!o.finalizer && fails) || o.spec.Id() == ""
  }

  /** The object is where a reconcile is to bring it: gone; released, if deleting; or finalized and its spec in
      the store under its id. */
  predicate Done(w: World, key: F.Key) {
    key in w.objects ==>
      var o := w.objects[key];
      if o.deleting then !o.finalizer
      else o.finalizer && o.spec.Id() != "" && InStore(w.store, o.spec)
  }

  predicate InStore(st: Store, spec: Spec) {
    match spec
    case UserOf(u) => u.id in st.users && st.users[u.id] == u
    case ModelOf(m) => m.id in st.models && st.models[m.id] == m
  }

  /** A reconcile asks to be retried exactly when it has not brought its object there; the process counts as
      synced exactly when it has, for a live object. A deleting object that it released and that nobody else
      holds is gone. */
  lemma ErrsExactly(w: World, key: F.Key, fails: bool)
    ensures var after := ReconcileSpec(w, key, fails);
            && (Errs(w, key, fails) <==> !Done(after, key))
            && (Syncs(w, key, fails) <==> Done(after, key) && key in after.objects && !after.objects[key].deleting)
    ensures key in w.objects && w.objects[key].deleting && w.objects[key].finalizer && !fails ==>
              (key !in ReconcileSpec(w, key, fails).objects <==> w.objects[key].others == {})
  {
  }

  /** The flag both reconcilers set and the readiness check reads. */
  class Flag {
    var value: bool

    constructor ()
      ensures !value
    {
      value := false;
    }
  }

  class ModelReconciler {
    const api: ApiServer
    const store: MemStore
    const synced: Flag

    constructor (api: ApiServer, store: MemStore, synced: Flag)
      requires store.Valid() && api !in store.userRepr + store.modelRepr && synced !in store.userRepr + store.modelRepr
      ensures this.api == api && this.store == store && this.synced == synced && Valid()
    {
      this.api, this.store, this.synced := api, store, synced;
    }

    /** The store is in order, and its memory is its own. */
    ghost predicate Valid()
      reads this, store, store.userRepr, store.modelRepr
    {
      store.Valid() && api !in store.userRepr + store.modelRepr && synced !in store.userRepr + store.modelRepr
    }

    ghost function Sees(): World
      reads this, api, store
    {
      World(api.objects, api.clock, store.View())
    }

    /** `Reconcile`: fetch, then either purge and release, or finalize and sync; the process counts as
        synced once a spec went in. */
    method Reconcile(name: string, updateFails: bool) returns (err: bool)
      requires Valid()
      requires F.ModelKey(name) in api.objects ==> api.objects[F.ModelKey(name)].spec.ModelOf?
      modifies synced, api, store
      ensures Valid()
      ensures Sees() == ReconcileSpec(old(Sees()), F.ModelKey(name), updateFails)
      ensures synced.value <==> old(synced.value) || Syncs(old(Sees()), F.ModelKey(name), updateFails)
      ensures err <==> Errs(old(Sees()), F.ModelKey(name), updateFails)
    {
      var key := F.ModelKey(name);
      var fetched := api.Get(key);
      if fetched.None? {
        return false;
      }
      var o := fetched.value;
      if o.deleting {
        if o.finalizer {
          err := Cleanup(key, o, updateFails);
          return;
        }
        return false;
      }
      if !o.finalizer {
        o := o.(finalizer := true);
        var updated := api.Update(key, o, updateFails);
        if updated.None? {
          return true;
        }
        o := updated.value;
      }
      err := Sync(o.spec.model);
    }

    /** The deletion branch: out of the store first, then give up the finalizer. */
    method Cleanup(key: F.Key, o: F.Object, updateFails: bool) returns (err: bool)
      requires Valid() && key in api.objects && api.objects[key] == o && o.spec.ModelOf?
      modifies api, store
      ensures Valid() && err == updateFails
      ensures store.View() == Apply(DeleteWrite(o.spec.Ref()), old(store.View()))
      ensures updateFails ==> api.objects == old(api.objects) && api.clock == old(api.clock)
      ensures !updateFails ==> api.clock == old(api.clock) + 1
      ensures !updateFails ==> api.objects == F.Stamped(old(api.objects), api.clock, key, o.(finalizer := false))
    {
      store.DeleteModel(o.spec.model.id);
      var updated := api.Update(key, o.(finalizer := false), updateFails);
      return updated.None?;
    }

    /** The last part: sync to the store and mark the process as synced. */
    method Sync(v: ModelSpec) returns (err: bool)
      requires Valid()
      modifies synced, store
      ensures Valid() && err == (v.id == "") && (synced.value <==> old(synced.value) || v.id != "")
      ensures store.View() == Apply(Write.SyncModel(v), old(store.View()))
    {
      var spec, repr := NewModel(v);
      var ok := store.SyncModel(spec, repr, v);
      if !ok {
        return true;
      }
      synced.value := true;
      return false;
    }
  }

  class UserReconciler {
    const api: ApiServer
    const store: MemStore
    const synced: Flag

    constructor (api: ApiServer, store: MemStore, synced: Flag)
      requires store.Valid() && api !in store.userRepr + store.modelRepr && synced !in store.userRepr + store.modelRepr
      ensures this.api == api && this.store == store && this.synced == synced && Valid()
    {
      this.api, this.store, this.synced := api, store, synced;
    }

    /** The store is in order, and its memory is its own. */
    ghost predicate Valid()
      reads this, store, store.userRepr, store.modelRepr
    {
      store.Valid() && api !in store.userRepr + store.modelRepr && synced !in store.userRepr + store.modelRepr
    }

    ghost function Sees(): World
      reads this, api, store
    {
      World(api.objects, api.clock, store.View())
    }

    method Reconcile(name: string, updateFails: bool) returns (err: bool)
      requires Valid()
      requires F.UserKey(name) in api.objects ==> api.objects[F.UserKey(name)].spec.UserOf?
      modifies synced, api, store
      ensures Valid()
      ensures Sees() == ReconcileSpec(old(Sees()), F.UserKey(name), updateFails)
      ensures synced.value <==> old(synced.value) || Syncs(old(Sees()), F.UserKey(name), updateFails)
      ensures err <==> Errs(old(Sees()), F.UserKey(name), updateFails)
    {
      var key := F.UserKey(name);
      var fetched := api.Get(key);
      if fetched.None? {
        return false;
      }
      var o := fetched.value;
      if o.deleting {
        if o.finalizer {
          err := Cleanup(key, o, updateFails);
          return;
        }
        return false;
      }
      if !o.finalizer {
        o := o.(finalizer := true);
        var updated := api.Update(key, o, updateFails);
        if updated.None? {
          return true;
        }
        o := updated.value;
      }
      err := Sync(o.spec.user);
    }

    /** The deletion branch: out of the store first, then give up the finalizer. */
    method Cleanup(key: F.Key, o: F.Object, updateFails: bool) returns (err: bool)
      requires Valid() && key in api.objects && api.objects[key] == o && o.spec.UserOf?
      modifies api, store
      ensures Valid() && err == updateFails
      ensures store.View() == Apply(DeleteWrite(o.spec.Ref()), old(store.View()))
      ensures updateFails ==> api.objects == old(api.objects) && api.clock == old(api.clock)
      ensures !updateFails ==> api.clock == old(api.clock) + 1
      ensures !updateFails ==> api.objects == F.Stamped(old(api.objects), api.clock, key, o.(finalizer := false))
    {
      store.DeleteUser(o.spec.user.id);
      var updated := api.Update(key, o.(finalizer := false), updateFails);
      return updated.None?;
    }

    /** The last part: sync to the store and mark the process as synced. */
    method Sync(v: UserSpec) returns (err: bool)
      requires Valid()
      modifies synced, store
      ensures Valid() && err == (v.id == "") && (synced.value <==> old(synced.value) || v.id != "")
      ensures store.View() == Apply(Write.SyncUser(v), old(store.View()))
    {
      var spec, repr := NewUser(v);
      var ok := store.SyncUser(spec, repr, v);
      if !ok {
        return true;
      }
      synced.value := true;
      return false;
    }
  }
}
