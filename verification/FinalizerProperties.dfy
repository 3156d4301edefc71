/** Safety of the finalizer protocol over whole runs. */
module FinalizerProperties {
  import opened Specs
  import opened Finalizer
  import V = Convergence

  // ----- The finalizer guards the store -----------------------------------------------------------

  /** In every reachable state, after restarts and failed updates included, and even if ids are shared,
      each entry of the store belongs to an API object that still carries the finalizer, and is a spec
      that this very object had, at a version no newer than its current one. */
  lemma FinalizerGuard(s: State)
    requires Reachable(s)
    ensures forall r :: r in s.store ==> exists k :: Traced(s, k, r)
  {
    ReachableInv(s);
  }

  /** No object leaves the API while an entry of its own is in the store; nor, if ids are unique, any
      entry under its id. */
  lemma NoneLeavesUnpurged(s: State, e: Event, key: Key)
    requires Reachable(s) && Enabled(s, e) && key in s.api && key !in Step(s, e).api
    ensures !Wrote(s, key, s.api[key].spec.Ref())
    ensures UniqueRefs(s) ==> s.api[key].spec.Ref() !in s.store
  {
    ReachableInv(s);
    var r := s.api[key].spec.Ref();
    if r in s.store {
      var k :| Traced(s, k, r);
      if k == key && e.Work? {
        NoneLeavesByWork(s, e.key, e.fails, key);
      }
    }
  }

  lemma NoneLeavesByWork(s: State, worker: Key, fails: bool, key: Key)
    requires WorkerInv(s) && worker in s.workers && key in s.api
    requires key !in WorkStep(s, worker, s.workers[worker], fails).api
    ensures !Wrote(s, key, s.api[key].spec.Ref())
  {
    var w := s.workers[worker];
    assert Holds(s, worker, w);
    assert w.ToRelease? ==> key == worker;
  }

  /** A reconcile leaves specs, deletion marks, other owners' finalizers and all other objects alone; and an
      object that leaves is its own, deleting, and held by no other owner. */
  lemma OnlyItsFinalizer(s: State, key: Key, fails: bool, k: Key)
    requires Reachable(s) && key in s.workers && k in s.api
    ensures var b := Step(s, Work(key, fails));
            if k in b.api then
              && b.api[k].spec == s.api[k].spec && b.api[k].deleting == s.api[k].deleting
              && b.api[k].others == s.api[k].others
              && (k != key ==> b.api[k] == s.api[k])
            else k == key && s.api[k].deleting && s.api[k].others == {}
  {
    ReachableInv(s);
    WorkOnlyFinalizes(s, key, s.workers[key], fails, k);
  }

  lemma WorkOnlyFinalizes(s: State, key: Key, w: Worker, fails: bool, k: Key)
    requires WorkerInv(s) && key in s.workers && s.workers[key] == w && k in s.api
    ensures var b := WorkStep(s, key, w, fails);
            if k in b.api then
              && b.api[k].spec == s.api[k].spec && b.api[k].deleting == s.api[k].deleting
              && b.api[k].others == s.api[k].others
              && (k != key ==> b.api[k] == s.api[k])
            else k == key && s.api[k].deleting && s.api[k].others == {}
  {
    assert Holds(s, key, w);
    match w {
      case ToFinalize(o) =>
      case ToSync(o) =>
      case ToPurge(o) =>
      case ToRelease(o) =>
    }
  }

  // ----- No resurrection --------------------------------------------------------------------------

  /** The ref is out of the store, no live object has it, and no reconcile is about to sync it. */
  ghost predicate Gone(s: State, r: Ref) {
    && r !in s.store
    && (forall k :: k in s.api && s.api[k].spec.Ref() == r ==> s.api[k].deleting)
    && (forall k :: k in s.workers && s.workers[k].ToSync? ==> s.workers[k].o.spec.Ref() != r)
  }

  ghost predicate Purges(s: State, e: Event, r: Ref) {
    e.Work? && e.key in s.workers && s.workers[e.key].ToPurge? && s.workers[e.key].o.spec.Ref() == r
  }

  lemma PurgeMakesGone(a: State, e: Event, b: State, r: Ref)
    requires Next(a, e, b)
    ensures Inv(a) && UniqueRefs(a) && Purges(a, e, r) ==> Gone(b, r)
  {
    if Inv(a) && UniqueRefs(a) && Purges(a, e, r) {
      assert Holds(a, e.key, a.workers[e.key]);
      forall k | k in b.workers && b.workers[k].ToSync? ensures b.workers[k].o.spec.Ref() != r {
        assert Holds(a, k, a.workers[k]);
      }
    }
  }

  lemma GoneStays(a: State, e: Event, b: State, r: Ref)
    requires Next(a, e, b) && (e.Create? ==> e.spec.Ref() != r)
    ensures Inv(a) && Gone(a, r) ==> Gone(b, r)
  {
    if Inv(a) && Gone(a, r) && e.Work? {
      GoneStaysWork(a, e.key, a.workers[e.key], e.fails, r);
    }
  }

  lemma GoneStaysWork(s: State, key: Key, w: Worker, fails: bool, r: Ref)
    requires Holds(s, key, w) && key in s.workers && s.workers[key] == w && Gone(s, r)
    ensures Gone(WorkStep(s, key, w, fails), r)
  {
    match w {
      case ToFinalize(o) =>
      case ToSync(o) => assert o.spec.Ref() != r;
      case ToPurge(o) =>
      case ToRelease(o) =>
    }
  }

  lemma RunStepGone(trace: seq<State>, events: seq<Event>, k: nat, r: Ref)
    requires IsRun(trace, events) && trace[0] == START && k < |events|
    requires events[k].Create? ==> events[k].spec.Ref() != r
    ensures Gone(trace[k], r) || (UniqueRefs(trace[k]) && Purges(trace[k], events[k], r)) ==> Gone(trace[k + 1], r)
  {
    RunInv(trace, events, k);
    assert Next(trace[k], events[k], trace[k + 1]);
    PurgeMakesGone(trace[k], events[k], trace[k + 1], r);
    GoneStays(trace[k], events[k], trace[k + 1], r);
  }

  /** Once a reconcile has deleted an id that no other object shares, it stays out of the store, through
      failures, retries and restarts, until an object with that id is created. */
  lemma {:induction false} NoResurrection(trace: seq<State>, events: seq<Event>, p: nat, j: nat, r: Ref)
    requires IsRun(trace, events) && trace[0] == START
    requires p < j < |trace| && UniqueRefs(trace[p]) && Purges(trace[p], events[p], r)
    requires forall k :: p < k < j && events[k].Create? ==> events[k].spec.Ref() != r
    ensures Gone(trace[j], r)
  {
    if j > p + 1 {
      NoResurrection(trace, events, p, j - 1, r);
    }
    RunStepGone(trace, events, j - 1, r);
  }

  // ----- An id nobody edits --------------------------------------------------------------------------

  /** Wherever the ref occurs, it is with this spec; except where an update is going to be refused. */
  ghost predicate Steady(s: State, r: Ref, spec: Spec) {
    && (r in s.store ==> s.store[r] == spec)
    && (forall k :: k in s.api && s.api[k].spec.Ref() == r ==> s.api[k].spec == spec)
    && (forall k :: k in s.workers ==> Carries(s, k, s.workers[k], r, spec))
  }

  ghost predicate Carries(s: State, k: Key, w: Worker, r: Ref, spec: Spec) {
    w.o.spec.Ref() == r && (w.ToSync? || !Stale(s, k, w.o)) ==> w.o.spec == spec
  }

  /** The synced spec of a live object with nothing in flight is the only one around. */
  lemma SettledIsSteady(s: State, k: Key)
    requires Inv(s) && UniqueRefs(s) && V.Settled(s, k) && k in s.api && !s.api[k].deleting
    ensures Steady(s, s.api[k].spec.Ref(), s.api[k].spec)
  {
    var r := s.api[k].spec.Ref();
    if r in s.store {
      var g :| Traced(s, g, r);
    }
    forall l | l in s.workers ensures Carries(s, l, s.workers[l], r, s.api[k].spec) {
      assert l != k && Holds(s, l, s.workers[l]) && SameRef(s, l, s.workers[l]);
    }
  }

  lemma SteadyStays(a: State, e: Event, b: State, r: Ref, spec: Spec)
    requires Next(a, e, b) && (e.Create? || e.Edit? ==> e.spec.Ref() != r)
    ensures Steady(a, r, spec) ==> Steady(b, r, spec)
  {
    if Steady(a, r, spec) && e.Work? {
      WorkKeepsSteady(a, e.key, a.workers[e.key], e.fails, r, spec);
    }
  }

  lemma WorkKeepsSteady(s: State, key: Key, w: Worker, fails: bool, r: Ref, spec: Spec)
    requires key in s.workers && s.workers[key] == w && Steady(s, r, spec)
    ensures Steady(WorkStep(s, key, w, fails), r, spec)
  {
    assert Carries(s, key, w, r, spec);
    SetWorkerKeepsSteady(s, key, None, r, spec);
    match w {
      case ToFinalize(o) =>
        if UpdateAccepted(s, key, o, fails) {
          var added := o.(finalizer := true, version := s.clock + 1);
          CommitKeepsSteady(s, key, added, r, spec);
          SetWorkerKeepsSteady(Commit(s, key, added), key, Some(ToSync(added)), r, spec);
        }
      case ToSync(o) =>
        StoreKeepsSteady(SetWorker(s, key, None), WorkStep(s, key, w, fails), r, spec);
      case ToPurge(o) =>
        SetWorkerKeepsSteady(s, key, Some(ToRelease(o)), r, spec);
        StoreKeepsSteady(SetWorker(s, key, Some(ToRelease(o))), WorkStep(s, key, w, fails), r, spec);
      case ToRelease(o) =>
        if UpdateAccepted(s, key, o, fails) {
          CommitKeepsSteady(s, key, o.(finalizer := false), r, spec);
          SetWorkerKeepsSteady(Commit(s, key, o.(finalizer := false)), key, None, r, spec);
        }
    }
  }

  lemma StoreKeepsSteady(a: State, b: State, r: Ref, spec: Spec)
    requires b.api == a.api && b.workers == a.workers && b.clock == a.clock
    ensures Steady(a, r, spec) && (r in b.store ==> b.store[r] == spec) ==> Steady(b, r, spec)
  {
    forall k | k in b.workers && Carries(a, k, a.workers[k], r, spec) ensures Carries(b, k, b.workers[k], r, spec) {
    }
  }

  lemma SetWorkerKeepsSteady(s: State, key: Key, w: Option<Worker>, r: Ref, spec: Spec)
    ensures Steady(s, r, spec) && (w.Some? ==> Carries(s, key, w.value, r, spec)) ==>
              Steady(SetWorker(s, key, w), r, spec)
  {
    var b := SetWorker(s, key, w);
    forall k | k in b.workers && k != key && Carries(s, k, s.workers[k], r, spec)
      ensures Carries(b, k, b.workers[k], r, spec)
    {
    }
  }

  lemma CommitKeepsSteady(s: State, key: Key, o: Object, r: Ref, spec: Spec)
    ensures Steady(s, r, spec) && (o.spec.Ref() == r ==> o.spec == spec) ==> Steady(Commit(s, key, o), r, spec)
  {
    var b := Commit(s, key, o);
    forall k | k in b.workers && Carries(s, k, s.workers[k], r, spec) ensures Carries(b, k, b.workers[k], r, spec) {
    }
  }

  // ----- No going back ------------------------------------------------------------------------------

  /** Nothing that is there, or about to be synced, is older than what was last synced under its ref. */
  ghost predicate Ordered(s: State) {
    && (forall r :: r in s.versions ==> s.versions[r] <= s.clock)
    && (forall k :: k in s.api ==> NotOlder(s, s.api[k]))
    && (forall k :: k in s.workers && !s.workers[k].ToFinalize? ==> NotOlder(s, s.workers[k].o))
  }

  ghost predicate NotOlder(s: State, o: Object) {
    o.spec.Ref() in s.versions ==> s.versions[o.spec.Ref()] <= o.version
  }

  lemma StepKeepsOrdered(s: State, e: Event)
    requires Inv(s) && UniqueRefs(s) && Ordered(s) && Enabled(s, e)
    ensures Ordered(Step(s, e))
  {
    if e.Work? {
      WorkKeepsOrdered(s, e.key, s.workers[e.key], e.fails);
    }
  }

  lemma WorkKeepsOrdered(s: State, key: Key, w: Worker, fails: bool)
    requires Inv(s) && UniqueRefs(s) && Ordered(s) && key in s.workers && s.workers[key] == w
    ensures Ordered(WorkStep(s, key, w, fails))
  {
    assert Holds(s, key, w);
    match w {
      case ToFinalize(o) =>
      case ToSync(o) => SyncKeepsOrdered(s, key, o);
      case ToPurge(o) =>
      case ToRelease(o) =>
    }
  }

  lemma SyncKeepsOrdered(s: State, key: Key, o: Object)
    requires Inv(s) && UniqueRefs(s) && Ordered(s) && key in s.workers && s.workers[key] == ToSync(o)
    ensures Ordered(WorkStep(s, key, ToSync(o), false))
  {
    var s' := WorkStep(s, key, ToSync(o), false);
    assert Holds(s, key, ToSync(o));
    forall k | k in s'.workers && !s'.workers[k].ToFinalize? ensures NotOlder(s', s'.workers[k].o) {
      assert k != key && Holds(s, k, s.workers[k]) && SameRef(s, k, s.workers[k]);
    }
  }

  lemma {:induction false} OrderedHolds(trace: seq<State>, events: seq<Event>, j: nat)
    requires IsRun(trace, events) && trace[0] == START && j < |trace|
    requires forall k :: 0 <= k < j ==> UniqueRefs(trace[k])
    ensures Inv(trace[j]) && Ordered(trace[j])
  {
    RunInv(trace, events, j);
    if j > 0 {
      OrderedHolds(trace, events, j - 1);
      assert Next(trace[j - 1], events[j - 1], trace[j]);
      StepKeepsOrdered(trace[j - 1], events[j - 1]);
    }
  }

  lemma StepNeverGoesBack(a: State, e: Event, b: State, r: Ref)
    requires Next(a, e, b) && !e.Restart? && r in a.versions
    ensures Ordered(a) ==> r in b.versions && a.versions[r] <= b.versions[r]
  {
    if Ordered(a) && e.Work? && a.workers[e.key].ToSync? {
      assert NotOlder(a, a.workers[e.key].o);
    }
  }

  /** While ids are unique, the version synced under an id never decreases between restarts. (What the
      store holds for the id is the spec of that version, by FinalizerGuard.) */
  lemma {:induction false} NeverGoesBack(trace: seq<State>, events: seq<Event>, i: nat, j: nat, r: Ref)
    requires IsRun(trace, events) && trace[0] == START && i <= j < |trace| && r in trace[i].versions
    requires forall k :: 0 <= k < j ==> UniqueRefs(trace[k])
    requires forall k :: i <= k < j ==> !events[k].Restart?
    ensures r in trace[j].versions && trace[i].versions[r] <= trace[j].versions[r]
  {
    if i < j {
      NeverGoesBack(trace, events, i, j - 1, r);
      OrderedHolds(trace, events, j - 1);
      assert Next(trace[j - 1], events[j - 1], trace[j]);
      StepNeverGoesBack(trace[j - 1], events[j - 1], trace[j], r);
    }
  }

  /** A version is issued once: the log never changes what it says about one, and a commit gets a version
      above all before it. */
  lemma LogOnlyGrows(s: State, e: Event, v: nat)
    requires Reachable(s) && Enabled(s, e) && v in s.log
    ensures v in Step(s, e).log && Step(s, e).log[v] == s.log[v] && v <= s.clock <= Step(s, e).clock
  {
    ReachableInv(s);
    LogKept(s, e, v);
  }

  lemma LogKept(s: State, e: Event, v: nat)
    requires Enabled(s, e) && v in s.log && v <= s.clock
    ensures v in Step(s, e).log && Step(s, e).log[v] == s.log[v] && s.clock <= Step(s, e).clock
  {
    if e.Work? {
      WorkKeepsLog(s, e.key, s.workers[e.key], e.fails, v);
    }
  }

  lemma WorkKeepsLog(s: State, key: Key, w: Worker, fails: bool, v: nat)
    requires v in s.log && v <= s.clock
    ensures var b := WorkStep(s, key, w, fails); v in b.log && b.log[v] == s.log[v] && s.clock <= b.clock
  {
  }
}
