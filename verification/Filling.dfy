/** Filling the store after a restart: as long as nobody touches the API objects, what the store holds
    is part of what it will converge to. */
module Filling {
  import opened Specs
  import opened Finalizer
  import opened Convergence
  import opened Passes

  /** The reconcile has the spec and the deletion mark the object `k` has had since `start`. */
  predicate Current(start: State, k: Key, w: Worker) {
    && k in start.api
    && w.o.spec == start.api[k].spec
    && w.o.deleting == start.api[k].deleting
    && (w.ToFinalize? || w.ToSync? <==> !w.o.deleting)
  }

  ghost predicate UpToDate(start: State, s: State) {
    forall k :: k in s.workers ==> Current(start, k, s.workers[k])
  }

  /** Everything in the store is the spec of an object that was live at the start. */
  ghost predicate PartOfImage(start: State, store: map<Ref, Spec>) {
    forall r :: r in store ==> exists k :: Live(start, k, r) && store[r] == start.api[k].spec
  }

  /** What a restarted process keeps as it fills its store. */
  ghost predicate Fills(start: State, s: State) {
    UpToDate(start, s) && SameMarks(start, s) && PartOfImage(start, s.store)
  }

  lemma WorkKeepsMarks(start: State, s: State, key: Key, w: Worker, fails: bool)
    requires SameMarks(start, s) && key in s.workers && s.workers[key] == w && UpToDate(start, s)
    ensures SameMarks(start, WorkStep(s, key, w, fails))
  {
  }

  lemma WorkKeepsWorkers(start: State, s: State, key: Key, w: Worker, fails: bool)
    requires key in s.workers && s.workers[key] == w && UpToDate(start, s)
    ensures UpToDate(start, WorkStep(s, key, w, fails))
  {
    var s' := WorkStep(s, key, w, fails);
    forall k | k in s'.workers ensures Current(start, k, s'.workers[k]) {
      assert Current(start, key, w);
      if k != key {
        assert Current(start, k, s.workers[k]);
      }
    }
  }

  lemma GetKeepsWorkers(start: State, s: State, key: Key)
    requires SameMarks(start, s) && UpToDate(start, s)
    ensures UpToDate(start, Step(s, Get(key))) && SameMarks(start, Step(s, Get(key)))
  {
  }

  lemma QuietStepKeepsPart(start: State, s: State, e: Event)
    requires Enabled(s, e) && Quiet(e) && UpToDate(start, s) && PartOfImage(start, s.store)
    ensures PartOfImage(start, Step(s, e).store)
  {
    if e.Work? && s.workers[e.key].ToSync? {
      var o := s.workers[e.key].o;
      if o.spec.Id() != "" {
        assert Live(start, e.key, o.spec.Ref());
      }
    }
  }

  lemma QuietStepKeeps(start: State, s: State, e: Event)
    requires Enabled(s, e) && Quiet(e) && Fills(start, s)
    ensures Fills(start, Step(s, e))
  {
    if e.Work? {
      WorkKeepsMarks(start, s, e.key, s.workers[e.key], e.fails);
      WorkKeepsWorkers(start, s, e.key, s.workers[e.key], e.fails);
    } else {
      GetKeepsWorkers(start, s, e.key);
    }
    QuietStepKeepsPart(start, s, e);
  }

  /** From a state just after a restart (nothing stored, nothing in flight), as long as only the
      reconcilers act, the store stays part of the image of the live objects. */
  lemma {:induction false} FillingIsPartial(trace: seq<State>, events: seq<Event>, k: nat)
    requires IsRun(trace, events) && trace[0].store == map[] && trace[0].workers == map[] && k < |trace|
    requires forall i :: 0 <= i < k ==> Quiet(events[i])
    ensures Fills(trace[0], trace[k])
  {
    if k > 0 {
      FillingIsPartial(trace, events, k - 1);
      assert Next(trace[k - 1], events[k - 1], trace[k]);
      QuietStepKeeps(trace[0], trace[k - 1], events[k - 1]);
    }
  }
}
