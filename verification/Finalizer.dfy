/** The finalizer protocol of the two reconcilers as one state machine: the API objects, the store, and
    what each reconcile in flight has fetched and is about to do. */
module Finalizer {
  import opened Specs

  /** Kind, namespace and name of an API object. */
  datatype Key = UserKey(name: string) | ModelKey(name: string)

  predicate SameKind(key: Key, spec: Spec) {
    key.UserKey? <==> spec.UserOf?
  }

  /** An API object: resource version, spec, our finalizer, other owners' finalizers, deletion mark. */
  datatype Object = Object(version: nat, spec: Spec, finalizer: bool, others: set<string>, deleting: bool)

  /** A reconcile in flight, after its Get, by what it does next with the object it fetched. */
  datatype Worker =
    | ToFinalize(o: Object)  // update adding the finalizer
    | ToSync(o: Object)      // sync the spec to the store
    | ToPurge(o: Object)     // delete the id from the store
    | ToRelease(o: Object)   // update removing the finalizer

  /** What a version was issued for. */
  datatype Issue = Issue(key: Key, spec: Spec)

  /** `versions` and `log` only record history: the version of the spec last synced under each ref
      since the process started, and the object and spec that every version was issued for. */
  datatype State = State(
    api: map<Key, Object>,
    clock: nat,
    workers: map<Key, Worker>,
    store: map<Ref, Spec>,
    versions: map<Ref, nat>,
    log: map<nat, Issue>)

  datatype Event =
    | Create(key: Key, spec: Spec, finalizer: bool, others: set<string>)
    | Edit(key: Key, spec: Spec, others: set<string>)
    | Delete(key: Key)
    | Get(key: Key)
    | Work(key: Key, fails: bool)
    | Restart

  const START := State(map[], 0, map[], map[], map[], map[])

  /** The objects after `o` is committed under version `v`; one that is deleting and held by no
      finalizer disappears. */
  function Stamped(objects: map<Key, Object>, v: nat, key: Key, o: Object): map<Key, Object> {
    if o.deleting && !o.finalizer && o.others == {} then objects - {key} else objects[key := o.(version := v)]
  }

  /** The API server commits an object. */
  function Commit(s: State, key: Key, o: Object): State {
    s.(clock := s.clock + 1,
       log := s.log[s.clock + 1 := Issue(key, o.spec)],
       api := Stamped(s.api, s.clock + 1, key, o))
  }

  /** What `Reconcile` will do with the object it fetched; nothing when it is deleting and released. */
  function Plan(o: Object): Option<Worker> {
    if o.deleting then (if o.finalizer then Some(ToPurge(o)) else None)
    else if o.finalizer then Some(ToSync(o))
    else Some(ToFinalize(o))
  }

  function SetWorker(s: State, key: Key, w: Option<Worker>): State {
    s.(workers := if w.Some? then s.workers[key := w.value] else s.workers - {key})
  }

  /** An update carries the fetched version and is refused when the object has moved on. */
  predicate UpdateAccepted(s: State, key: Key, o: Object, fails: bool) {
    !fails && key in s.api && s.api[key].version == o.version
  }

  /** The fetched object has moved on, so an update carrying it will be refused. */
  ghost predicate Stale(s: State, k: Key, o: Object) {
    o.version <= s.clock && (k in s.api ==> s.api[k].version != o.version)
  }

  function WorkStep(s: State, key: Key, w: Worker, fails: bool): State {
    match w
    case ToFinalize(o) =>
      if UpdateAccepted(s, key, o, fails) then
        var added := o.(finalizer := true, version := s.clock + 1);
        SetWorker(Commit(s, key, added), key, Some(ToSync(added)))
      else SetWorker(s, key, None)
    case ToSync(o) =>
      var done := SetWorker(s, key, None);
      if o.spec.Id() == "" then done
      else done.(store := s.store[o.spec.Ref() := o.spec], versions := s.versions[o.spec.Ref() := o.version])
    case ToPurge(o) =>
      SetWorker(s, key, Some(ToRelease(o))).(store := s.store - {o.spec.Ref()})
    case ToRelease(o) =>
      if UpdateAccepted(s, key, o, fails) then SetWorker(Commit(s, key, o.(finalizer := false)), key, None)
      else SetWorker(s, key, None)
  }

  /** What may happen. Premises of the code: an id never changes after creation; only the reconciler takes
      its own finalizer away; finalizers are not added once the object is deleting; one reconcile per key
      at a time. That no two objects share an id is not among them: what needs `UniqueRefs` says so. */
  ghost predicate Enabled(s: State, e: Event) {
    match e
    case Create(key, spec, _, _) =>
      key !in s.api && SameKind(key, spec)
    case Edit(key, spec, others) =>
      key in s.api && spec.Ref() == s.api[key].spec.Ref() && (s.api[key].deleting ==> others <= s.api[key].others)
    case Delete(key) => key in s.api
    case Get(key) => key !in s.workers
    case Work(key, _) => key in s.workers
    case Restart => true
  }

  function Step(s: State, e: Event): State
    requires e.Edit? || e.Delete? ==> e.key in s.api
    requires e.Work? ==> e.key in s.workers
  {
    match e
    case Create(key, spec, finalizer, others) => Commit(s, key, Object(0, spec, finalizer, others, false))
    case Edit(key, spec, others) => Commit(s, key, s.api[key].(spec := spec, others := others))
    case Delete(key) => Commit(s, key, s.api[key].(deleting := true))
    case Get(key) => if key in s.api then SetWorker(s, key, Plan(s.api[key])) else s
    case Work(key, fails) => WorkStep(s, key, s.workers[key], fails)
    case Restart => s.(workers := map[], store := map[], versions := map[])
  }

  ghost predicate Next(s: State, e: Event, s': State) {
    Enabled(s, e) && s' == Step(s, e)
  }

  ghost predicate IsRun(trace: seq<State>, events: seq<Event>) {
    |trace| == |events| + 1
    && forall k {:trigger events[k]} :: 0 <= k < |events| ==> Next(trace[k], events[k], trace[k + 1])
  }

  // ----- What every reachable state satisfies ---------------------------------------------------

  /** No two objects of one kind share an id. */
  ghost predicate UniqueRefs(s: State) {
    forall k, l :: k in s.api && l in s.api && s.api[k].spec.Ref() == s.api[l].spec.Ref() ==> k == l
  }

  /** Versions are issued by the clock, and the log knows what each was issued for. */
  ghost predicate Dated(s: State, key: Key, o: Object) {
    o.version <= s.clock && o.version in s.log && s.log[o.version] == Issue(key, o.spec)
  }

  /** The entry under `r` is a spec that the object `k` had, at the recorded version. */
  ghost predicate Wrote(s: State, k: Key, r: Ref) {
    && r in s.store
    && r in s.versions
    && s.versions[r] in s.log
    && s.log[s.versions[r]] == Issue(k, s.store[r])
  }

  /** A fetched object is the current one while its version is. A reconcile that will touch the store
      does so for an object that is still there and still has the finalizer; about to sync, it has the
      object's ref; about to give the finalizer up, it has no entry in the store. */
  ghost predicate Holds(s: State, key: Key, w: Worker) {
    && SameKind(key, w.o.spec)
    && Dated(s, key, w.o)
    && (key in s.api && s.api[key].version == w.o.version ==> s.api[key] == w.o)
    && (w.ToFinalize? ==> !w.o.deleting)
    && (!w.ToFinalize? ==>
          && w.o.finalizer
          && key in s.api && s.api[key].finalizer
          && w.o.version <= s.api[key].version
          && w.o.deleting == !w.ToSync?
          && (w.o.deleting ==> s.api[key].deleting))
    && (w.ToSync? && w.o.spec.Id() != "" ==> s.api[key].spec.Ref() == w.o.spec.Ref())
    && (w.ToRelease? ==> !Wrote(s, key, w.o.spec.Ref()))
  }

  /** While ids are fixed, whatever is to be done to the store is done under the object's ref. */
  ghost predicate SameRef(s: State, key: Key, w: Worker) {
    !w.ToFinalize? ==> key in s.api && s.api[key].spec.Ref() == w.o.spec.Ref()
  }

  /** Object `k` keeps the ref `r` guarded. */
  ghost predicate Guards(s: State, k: Key, r: Ref) {
    k in s.api && s.api[k].spec.Ref() == r && s.api[k].finalizer
  }

  /** The entry under `r` belongs to `k`, which guards it and has had this very spec. */
  ghost predicate Traced(s: State, k: Key, r: Ref) {
    && Guards(s, k, r)
    && Wrote(s, k, r)
    && s.versions[r] <= s.api[k].version
    && s.store[r].Ref() == r
    && r.id != ""
  }

  ghost predicate ApiInv(s: State) {
    && (forall k :: k in s.api ==> Dated(s, k, s.api[k]) && SameKind(k, s.api[k].spec))
    && (forall v :: v in s.log ==> v <= s.clock)
  }

  ghost predicate WorkerInv(s: State) {
    forall k :: k in s.workers ==> Holds(s, k, s.workers[k])
  }

  ghost predicate StoreInv(s: State) {
    forall r :: r in s.store ==> exists k :: Traced(s, k, r)
  }

  /** What holds even after ids have been edited, as long as the edits were harmless. */
  ghost predicate LooseInv(s: State) {
    ApiInv(s) && WorkerInv(s) && StoreInv(s)
  }

  ghost predicate RefsAgree(s: State) {
    forall k :: k in s.workers ==> SameRef(s, k, s.workers[k])
  }

  ghost predicate Inv(s: State) {
    LooseInv(s) && RefsAgree(s)
  }

  lemma StartInv()
    ensures Inv(START)
  {
  }

  /** Nothing of the object is in the store under its ref, or about to be. */
  ghost predicate Unattached(s: State, key: Key)
    requires key in s.api
  {
    && !Wrote(s, key, s.api[key].spec.Ref())
    && !(key in s.workers && s.workers[key].ToSync? && s.workers[key].o.spec.Id() != "")
  }

  /** A commit that respects the premises: the ref stays, unless it is unattached; deletion marks stay, and
      so does our finalizer (unless the reconciler is releasing an id it has purged). */
  ghost predicate Respectful(s: State, key: Key, o: Object) {
    && SameKind(key, o.spec)
    && (if key in s.api then
          && (o.spec.Ref() == s.api[key].spec.Ref() || Unattached(s, key))
          && (s.api[key].deleting ==> o.deleting)
          && (s.api[key].finalizer ==> o.finalizer)
        else
          !o.deleting)
  }

  lemma CommitKeepsApi(s: State, key: Key, o: Object)
    requires ApiInv(s) && SameKind(key, o.spec)
    ensures ApiInv(Commit(s, key, o))
  {
  }

  /** The log of old versions stands, so entries keep their writer. */
  lemma CommitKeepsWriters(s: State, key: Key, o: Object, k: Key, r: Ref)
    requires LooseInv(s)
    ensures Wrote(Commit(s, key, o), k, r) <==> Wrote(s, k, r)
  {
    if r in s.store {
      var writer :| Traced(s, writer, r);
      assert s.versions[r] <= s.clock;
    }
  }

  lemma CommitKeepsWorkers(s: State, key: Key, o: Object)
    requires LooseInv(s) && Respectful(s, key, o)
    ensures WorkerInv(Commit(s, key, o))
  {
    var s' := Commit(s, key, o);
    forall k | k in s'.workers ensures Holds(s', k, s'.workers[k]) {
      assert Holds(s, k, s.workers[k]);
      CommitKeepsWriters(s, key, o, k, s.workers[k].o.spec.Ref());
    }
  }

  lemma CommitKeepsStore(s: State, key: Key, o: Object)
    requires LooseInv(s) && Respectful(s, key, o)
    ensures StoreInv(Commit(s, key, o))
  {
    var s' := Commit(s, key, o);
    forall r | r in s'.store ensures exists k :: Traced(s', k, r) {
      var k :| Traced(s, k, r);
      CommitKeepsWriters(s, key, o, k, r);
      assert Traced(s', k, r);
    }
  }

  lemma CommitKeepsLooseInv(s: State, key: Key, o: Object)
    requires LooseInv(s) && Respectful(s, key, o)
    ensures LooseInv(Commit(s, key, o))
  {
    CommitKeepsApi(s, key, o);
    CommitKeepsWorkers(s, key, o);
    CommitKeepsStore(s, key, o);
  }

  lemma SetWorkerKeepsLooseInv(s: State, key: Key, w: Option<Worker>)
    requires LooseInv(s) && (w.Some? ==> Holds(s, key, w.value))
    ensures LooseInv(SetWorker(s, key, w))
  {
    var s' := SetWorker(s, key, w);
    forall r | r in s'.store ensures exists k :: Traced(s', k, r) {
      var k :| Traced(s, k, r);
      assert Traced(s', k, r);
    }
    forall k | k in s'.workers ensures Holds(s', k, s'.workers[k]) {
      if k != key {
        assert Holds(s, k, s.workers[k]);
      }
    }
  }

  lemma SyncKeepsLooseInv(s: State, key: Key, o: Object)
    requires LooseInv(s) && key in s.workers && s.workers[key] == ToSync(o)
    ensures LooseInv(WorkStep(s, key, ToSync(o), false))
  {
    SetWorkerKeepsLooseInv(s, key, None);
    if o.spec.Id() != "" {
      assert Holds(s, key, ToSync(o));
      SyncKeepsWorkers(s, key, o);
      SyncKeepsStore(s, key, o);
    }
  }

  lemma SyncKeepsWorkers(s: State, key: Key, o: Object)
    requires ApiInv(s) && WorkerInv(s) && key in s.workers && s.workers[key] == ToSync(o)
    ensures WorkerInv(WorkStep(s, key, ToSync(o), false))
  {
    var s' := WorkStep(s, key, ToSync(o), false);
    assert Holds(s, key, ToSync(o));
    forall k | k in s'.workers ensures Holds(s', k, s'.workers[k]) {
      assert k != key && Holds(s, k, s.workers[k]) && s'.workers[k] == s.workers[k];
      SyncMakesWriter(s, key, o, k, s.workers[k].o.spec.Ref());
    }
  }

  lemma SyncMakesWriter(s: State, key: Key, o: Object, k: Key, r: Ref)
    requires Dated(s, key, o) && k != key
    ensures Wrote(WorkStep(s, key, ToSync(o), false), k, r) ==> Wrote(s, k, r)
  {
  }

  lemma SyncKeepsStore(s: State, key: Key, o: Object)
    requires ApiInv(s) && StoreInv(s) && Holds(s, key, ToSync(o)) && o.spec.Id() != ""
    ensures StoreInv(WorkStep(s, key, ToSync(o), false))
  {
    var s' := WorkStep(s, key, ToSync(o), false);
    forall r | r in s'.store ensures exists k :: Traced(s', k, r) {
      if r == o.spec.Ref() {
        assert Traced(s', key, r);
      } else {
        var k :| Traced(s, k, r);
        assert Traced(s', k, r);
      }
    }
  }

  lemma PurgeKeepsLooseInv(s: State, key: Key, o: Object)
    requires LooseInv(s) && key in s.workers && s.workers[key] == ToPurge(o)
    ensures LooseInv(WorkStep(s, key, ToPurge(o), false))
  {
    var s' := WorkStep(s, key, ToPurge(o), false);
    assert Holds(s, key, ToPurge(o));
    forall k | k in s'.workers ensures Holds(s', k, s'.workers[k]) {
      if k != key {
        assert Holds(s, k, s.workers[k]);
      }
    }
    forall r | r in s'.store ensures exists k :: Traced(s', k, r) {
      var k :| Traced(s, k, r);
      assert Traced(s', k, r);
    }
  }

  /** Giving up the finalizer is safe because the object's entry was purged and nothing has put it back. */
  lemma ReleaseKeepsLooseInv(s: State, key: Key, o: Object)
    requires LooseInv(s) && key in s.workers && s.workers[key] == ToRelease(o) && UpdateAccepted(s, key, o, false)
    ensures LooseInv(WorkStep(s, key, ToRelease(o), false))
  {
    assert Holds(s, key, ToRelease(o));
    CommitKeepsApi(s, key, o.(finalizer := false));
    ReleaseKeepsWorkers(s, key, o);
    ReleaseKeepsStore(s, key, o);
  }

  lemma ReleaseKeepsWorkers(s: State, key: Key, o: Object)
    requires LooseInv(s) && key in s.workers && s.workers[key] == ToRelease(o) && UpdateAccepted(s, key, o, false)
    ensures WorkerInv(WorkStep(s, key, ToRelease(o), false))
  {
    var s' := WorkStep(s, key, ToRelease(o), false);
    forall k | k in s'.workers ensures Holds(s', k, s'.workers[k]) {
      assert k != key && Holds(s, k, s.workers[k]);
      CommitKeepsWriters(s, key, o.(finalizer := false), k, s.workers[k].o.spec.Ref());
    }
  }

  lemma ReleaseKeepsStore(s: State, key: Key, o: Object)
    requires LooseInv(s) && key in s.workers && s.workers[key] == ToRelease(o) && UpdateAccepted(s, key, o, false)
    ensures StoreInv(WorkStep(s, key, ToRelease(o), false))
  {
    var s' := WorkStep(s, key, ToRelease(o), false);
    assert Holds(s, key, ToRelease(o));
    forall r | r in s'.store ensures exists k :: Traced(s', k, r) {
      var k :| Traced(s, k, r);
      assert k != key;
      CommitKeepsWriters(s, key, o.(finalizer := false), k, r);
      assert Traced(s', k, r);
    }
  }

  lemma FinalizeKeepsLooseInv(s: State, key: Key, o: Object)
    requires LooseInv(s) && key in s.workers && s.workers[key] == ToFinalize(o) && UpdateAccepted(s, key, o, false)
    ensures LooseInv(WorkStep(s, key, ToFinalize(o), false))
  {
    assert Holds(s, key, ToFinalize(o));
    var added := o.(finalizer := true, version := s.clock + 1);
    CommitKeepsLooseInv(s, key, added);
    SetWorkerKeepsLooseInv(Commit(s, key, added), key, Some(ToSync(added)));
  }

  lemma CreateKeepsLooseInv(s: State, key: Key, spec: Spec, finalizer: bool, others: set<string>)
    requires LooseInv(s) && Enabled(s, Create(key, spec, finalizer, others))
    ensures LooseInv(Step(s, Create(key, spec, finalizer, others)))
  {
    CommitKeepsLooseInv(s, key, Object(0, spec, finalizer, others, false));
  }

  lemma EditKeepsLooseInv(s: State, key: Key, spec: Spec, others: set<string>)
    requires LooseInv(s) && Enabled(s, Edit(key, spec, others))
    ensures LooseInv(Step(s, Edit(key, spec, others)))
  {
    CommitKeepsLooseInv(s, key, s.api[key].(spec := spec, others := others));
  }

  lemma DeleteKeepsLooseInv(s: State, key: Key)
    requires LooseInv(s) && Enabled(s, Delete(key))
    ensures LooseInv(Step(s, Delete(key)))
  {
    CommitKeepsLooseInv(s, key, s.api[key].(deleting := true));
  }

  lemma GetKeepsLooseInv(s: State, key: Key)
    requires LooseInv(s) && Enabled(s, Get(key))
    ensures LooseInv(Step(s, Get(key)))
  {
    if key in s.api {
      SetWorkerKeepsLooseInv(s, key, Plan(s.api[key]));
    }
  }

  lemma WorkKeepsLooseInv(s: State, key: Key, fails: bool)
    requires LooseInv(s) && key in s.workers
    ensures LooseInv(WorkStep(s, key, s.workers[key], fails))
  {
    SetWorkerKeepsLooseInv(s, key, None);
    match s.workers[key] {
      case ToFinalize(o) => if UpdateAccepted(s, key, o, fails) { FinalizeKeepsLooseInv(s, key, o); }
      case ToSync(o) => SyncKeepsLooseInv(s, key, o);
      case ToPurge(o) => PurgeKeepsLooseInv(s, key, o);
      case ToRelease(o) => if UpdateAccepted(s, key, o, fails) { ReleaseKeepsLooseInv(s, key, o); }
    }
  }

  lemma RestartKeepsLooseInv(s: State)
    requires LooseInv(s)
    ensures LooseInv(Step(s, Restart))
  {
  }

  lemma StepKeepsLooseInv(s: State, e: Event)
    requires LooseInv(s) && Enabled(s, e)
    ensures LooseInv(Step(s, e))
  {
    match e {
      case Create(key, spec, finalizer, others) => CreateKeepsLooseInv(s, key, spec, finalizer, others);
      case Edit(key, spec, others) => EditKeepsLooseInv(s, key, spec, others);
      case Delete(key) => DeleteKeepsLooseInv(s, key);
      case Get(key) => GetKeepsLooseInv(s, key);
      case Work(key, fails) => WorkKeepsLooseInv(s, key, fails);
      case Restart => RestartKeepsLooseInv(s);
    }
  }

  lemma StepKeepsRefs(s: State, e: Event)
    requires Inv(s) && Enabled(s, e)
    ensures RefsAgree(Step(s, e))
  {
    if e.Work? {
      WorkKeepsRefs(s, e.key, s.workers[e.key], e.fails);
    }
  }

  lemma WorkKeepsRefs(s: State, key: Key, w: Worker, fails: bool)
    requires WorkerInv(s) && RefsAgree(s) && key in s.workers && s.workers[key] == w
    ensures RefsAgree(WorkStep(s, key, w, fails))
  {
    match w {
      case ToFinalize(o) =>
      case ToSync(o) =>
      case ToPurge(o) => assert SameRef(s, key, w);
      case ToRelease(o) =>
    }
  }

  /** Every step of the protocol keeps the invariant. */
  lemma StepKeepsInv(s: State, e: Event)
    requires Inv(s) && Enabled(s, e)
    ensures Inv(Step(s, e))
  {
    StepKeepsLooseInv(s, e);
    StepKeepsRefs(s, e);
  }

  // ----- Reachable states -------------------------------------------------------------------------

  /** Some run from the empty cluster ends in `s`. */
  ghost predicate Reachable(s: State) {
    exists trace, events :: RunTo(trace, events, s)
  }

  ghost predicate RunTo(trace: seq<State>, events: seq<Event>, s: State) {
    IsRun(trace, events) && trace[0] == START && trace[|events|] == s
  }

  lemma {:induction false} RunInv(trace: seq<State>, events: seq<Event>, k: nat)
    requires IsRun(trace, events) && trace[0] == START && k < |trace|
    ensures Inv(trace[k])
  {
    if k == 0 {
      StartInv();
    } else {
      RunInv(trace, events, k - 1);
      assert Next(trace[k - 1], events[k - 1], trace[k]);
      StepKeepsInv(trace[k - 1], events[k - 1]);
    }
  }

  lemma ReachableInv(s: State)
    requires Reachable(s)
    ensures Inv(s)
  {
    var trace, events :| RunTo(trace, events, s);
    RunInv(trace, events, |events|);
  }

  lemma StepReachable(s: State, e: Event)
    requires Reachable(s) && Enabled(s, e)
    ensures Reachable(Step(s, e))
  {
    var trace, events :| RunTo(trace, events, s);
    var s' := Step(s, e);
    var trace', events' := trace + [s'], events + [e];
    forall k | 0 <= k < |events'| ensures Next(trace'[k], events'[k], trace'[k + 1]) {
      if k < |events| {
        assert Next(trace[k], events[k], trace[k + 1]);
      }
    }
    assert RunTo(trace', events', s');
  }

  /** An object that has been created, given the finalizer and synced. */
  function Deployed(key: Key, spec: Spec): State {
    Step(Step(Step(Step(START, Create(key, spec, false, {})), Get(key)), Work(key, false)), Work(key, false))
  }

  lemma DeployedReachable(key: Key, spec: Spec)
    requires SameKind(key, spec)
    ensures Reachable(Deployed(key, spec))
  {
    assert RunTo([START], [], START);
    StepReachable(START, Create(key, spec, false, {}));
    var s1 := Step(START, Create(key, spec, false, {}));
    StepReachable(s1, Get(key));
    var s2 := Step(s1, Get(key));
    StepReachable(s2, Work(key, false));
    StepReachable(Step(s2, Work(key, false)), Work(key, false));
  }
}
