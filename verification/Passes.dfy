/** Convergence: reconciles of all keys, interleaved in any way, and exactly when they leave the store as
    the image of the live API objects. */
module Passes {
  import opened Specs
  import opened Finalizer
  import opened Convergence

  /** Only the reconcilers act; their updates may fail. */
  predicate Quiet(e: Event) {
    e.Get? || e.Work?
  }

  /** ... but only if `faulty`. */
  predicate Tolerated(e: Event, faulty: bool) {
    e.Get? || (e.Work? && (e.fails ==> faulty))
  }

  ghost predicate QuietRun(s: State, trace: seq<State>, events: seq<Event>, faulty: bool) {
    IsRun(trace, events) && trace[0] == s && forall i :: 0 <= i < |events| ==> Tolerated(events[i], faulty)
  }

  /** A reconcile of `k` fetched its object at `i`, at `j` none is in flight, and in between no update for
      `k` failed. */
  ghost predicate CompletedAt(trace: seq<State>, events: seq<Event>, k: Key, i: int, j: int) {
    && 0 <= i < j < |trace| == |events| + 1
    && events[i] == Get(k)
    && k !in trace[j].workers
    && forall t :: i < t < j ==> events[t] != Work(k, true)
  }

  ghost predicate Completed(trace: seq<State>, events: seq<Event>, k: Key, t: nat) {
    exists i, j :: CompletedAt(trace, events, k, i, j) && j <= t
  }

  /** An interleaving in which a reconcile of every API object starts and ends, its own updates not failing.
      If `faulty`, any other update may fail. */
  ghost predicate Pass(s: State, trace: seq<State>, events: seq<Event>, faulty: bool) {
    QuietRun(s, trace, events, faulty) && forall k :: k in s.api ==> Completed(trace, events, k, |events|)
  }

  /** The live object `k` has the ref `r` and an id the store accepts. */
  ghost predicate Live(s: State, k: Key, r: Ref) {
    k in s.api && !s.api[k].deleting && s.api[k].spec.Ref() == r && r.id != ""
  }

  /** The store is exactly the image of the live API objects (an empty id is refused by the store). */
  ghost predicate IsImage(store: map<Ref, Spec>, s: State) {
    && (forall r :: r in store <==> exists k :: Live(s, k, r))
    && (forall k, r :: Live(s, k, r) ==> r in store && store[r] == s.api[k].spec)
  }

  /** A deleting object that some reconcile may still purge. One that only waits for a release that will be
      accepted is not, unless that may fail and be tried again. */
  predicate WillPurge(s: State, l: Key, faulty: bool) {
    && l in s.api && s.api[l].deleting && s.api[l].finalizer
    && (faulty || !(l in s.workers && s.workers[l].ToRelease? && s.workers[l].o.version == s.api[l].version))
  }

  /** A live object shares its ref only with live objects of the same spec and deleting ones that are
      purged for good. */
  ghost predicate NoClash(s: State, faulty: bool) {
    forall k, l, r :: Live(s, k, r) && l in s.api && s.api[l].spec.Ref() == r ==>
      if s.api[l].deleting then !WillPurge(s, l, faulty) else s.api[l].spec == s.api[k].spec
  }

  lemma UniqueRefsDoNotClash(s: State, faulty: bool)
    requires UniqueRefs(s)
    ensures NoClash(s, faulty)
  {
  }

  // ----- What quiet steps keep ----------------------------------------------------------------------

  lemma QuietKeepsMarks(s: State, e: Event, faulty: bool)
    requires Inv(s) && Enabled(s, e) && Tolerated(e, faulty)
    ensures SameLive(s, Step(s, e))
    ensures forall l :: WillPurge(Step(s, e), l, faulty) ==> WillPurge(s, l, faulty)
  {
    if e.Work? {
      assert Holds(s, e.key, s.workers[e.key]);
      WorkKeepsMarks(s, e.key, s.workers[e.key], e.fails, faulty);
    }
  }

  lemma WorkKeepsMarks(s: State, key: Key, w: Worker, fails: bool, faulty: bool)
    requires Holds(s, key, w) && key in s.workers && s.workers[key] == w && (fails ==> faulty)
    ensures SameLive(s, WorkStep(s, key, w, fails))
    ensures forall l :: WillPurge(WorkStep(s, key, w, fails), l, faulty) ==> WillPurge(s, l, faulty)
  {
    match w {
      case ToFinalize(o) =>
      case ToSync(o) =>
      case ToPurge(o) =>
      case ToRelease(o) =>
    }
  }

  lemma NoClashStays(a: State, b: State, faulty: bool)
    requires NoClash(a, faulty) && SameLive(a, b)
    requires forall l :: WillPurge(b, l, faulty) ==> WillPurge(a, l, faulty)
    ensures NoClash(b, faulty)
  {
    forall k, l, r | Live(b, k, r) && l in b.api && b.api[l].spec.Ref() == r
      ensures if b.api[l].deleting then !WillPurge(b, l, faulty) else b.api[l].spec == b.api[k].spec
    {
      assert Live(a, k, r);
    }
  }

  lemma {:induction false} QuietHolds(s: State, trace: seq<State>, events: seq<Event>, faulty: bool, t: nat)
    requires Inv(s) && NoClash(s, faulty) && QuietRun(s, trace, events, faulty) && t < |trace|
    ensures Inv(trace[t]) && NoClash(trace[t], faulty) && SameLive(s, trace[t])
  {
    if t > 0 {
      QuietHolds(s, trace, events, faulty, t - 1);
      assert Next(trace[t - 1], events[t - 1], trace[t]);
      StepKeepsInv(trace[t - 1], events[t - 1]);
      QuietKeepsMarks(trace[t - 1], events[t - 1], faulty);
      NoClashStays(trace[t - 1], trace[t], faulty);
      SameLiveTransitive(s, trace[t - 1], trace[t]);
    }
  }

  /** The object `l`, and what is in flight for it, are the same. */
  ghost predicate SameKey(a: State, b: State, l: Key) {
    At(a.api, l) == At(b.api, l) && At(a.workers, l) == At(b.workers, l)
  }

  function At<K, V>(m: map<K, V>, k: K): Option<V> {
    if k in m then Some(m[k]) else None
  }

  lemma CommitLeavesAlone(s: State, key: Key, o: Object, l: Key)
    requires key != l
    ensures SameKey(s, Commit(s, key, o), l)
  {
  }

  lemma SetWorkerLeavesAlone(s: State, key: Key, w: Option<Worker>, l: Key)
    requires key != l
    ensures SameKey(s, SetWorker(s, key, w), l)
  {
  }

  lemma WorkLeavesAlone(s: State, key: Key, w: Worker, fails: bool, l: Key)
    requires key != l
    ensures SameKey(s, WorkStep(s, key, w, fails), l)
  {
    SetWorkerLeavesAlone(s, key, None, l);
    match w {
      case ToFinalize(o) =>
        var added := o.(finalizer := true, version := s.clock + 1);
        CommitLeavesAlone(s, key, added, l);
        SetWorkerLeavesAlone(Commit(s, key, added), key, Some(ToSync(added)), l);
      case ToSync(o) =>
      case ToPurge(o) =>
        SetWorkerLeavesAlone(s, key, Some(ToRelease(o)), l);
      case ToRelease(o) =>
        CommitLeavesAlone(s, key, o.(finalizer := false), l);
        SetWorkerLeavesAlone(Commit(s, key, o.(finalizer := false)), key, None, l);
    }
  }

  // ----- One key: from its fresh Get to the end of the reconcile ---------------------------------------

  /** What is in flight for `k`, if anything, works on the current object. */
  ghost predicate Planned(s: State, k: Key) {
    k in s.workers ==>
      && k in s.api
      && var o := s.api[k];
         Plan(o) == Some(s.workers[k]) || (o.deleting && o.finalizer && s.workers[k] == ToRelease(o))
  }

  /** The object has done its part: a live one is in the store, a deleting one has no finalizer. */
  ghost predicate Reflected(s: State, k: Key) {
    k in s.api ==>
      var o := s.api[k];
      if o.deleting then !o.finalizer
      else o.spec.Id() != "" ==> o.spec.Ref() in s.store && s.store[o.spec.Ref()] == o.spec
  }

  lemma StaysPlanned(s: State, e: Event, k: Key)
    requires Enabled(s, e) && Quiet(e) && (Planned(s, k) || e == Get(k))
    ensures Planned(Step(s, e), k)
  {
    if e.Work? {
      WorkStaysPlanned(s, e.key, s.workers[e.key], e.fails, k);
    }
  }

  lemma WorkStaysPlanned(s: State, key: Key, w: Worker, fails: bool, k: Key)
    requires key in s.workers && s.workers[key] == w && Planned(s, k)
    ensures Planned(WorkStep(s, key, w, fails), k)
  {
    match w {
      case ToFinalize(o) =>
      case ToSync(o) =>
      case ToPurge(o) =>
      case ToRelease(o) =>
    }
  }

  lemma {:induction false} PlannedSince(s: State, trace: seq<State>, events: seq<Event>, faulty: bool,
                                        k: Key, i: nat, t: nat)
    requires QuietRun(s, trace, events, faulty) && i < t < |trace| && events[i] == Get(k)
    ensures Planned(trace[t], k)
  {
    if t > i + 1 {
      PlannedSince(s, trace, events, faulty, k, i, t - 1);
    }
    assert Next(trace[t - 1], events[t - 1], trace[t]);
    StaysPlanned(trace[t - 1], events[t - 1], k);
  }

  lemma LastStepReflects(s: State, e: Event, k: Key)
    requires Enabled(s, e) && Quiet(e) && e != Work(k, true) && (e == Get(k) || (k in s.workers && Planned(s, k)))
    requires k !in Step(s, e).workers
    ensures Reflected(Step(s, e), k)
  {
    match e {
      case Get(key) => if key == k { LastGetReflects(s, k); }
      case Work(key, fails) =>
        if key == k {
          LastWorkReflects(s, k, s.workers[k]);
        } else {
          WorkLeavesAlone(s, key, s.workers[key], fails, k);
        }
      case _ =>
    }
  }

  lemma LastGetReflects(s: State, k: Key)
    requires k !in Step(s, Get(k)).workers
    ensures Reflected(Step(s, Get(k)), k)
  {
  }

  lemma LastWorkReflects(s: State, k: Key, w: Worker)
    requires k in s.workers && s.workers[k] == w && Planned(s, k) && k !in WorkStep(s, k, w, false).workers
    ensures Reflected(WorkStep(s, k, w, false), k)
  {
    match w {
      case ToFinalize(o) =>
      case ToSync(o) =>
      case ToPurge(o) =>
      case ToRelease(o) =>
    }
  }

  /** The instant at which the first unfailing reconcile of `k` has ended. */
  lemma Lands(s: State, trace: seq<State>, events: seq<Event>, faulty: bool, k: Key, t: nat)
    requires QuietRun(s, trace, events, faulty) && 0 < t < |trace|
    requires Completed(trace, events, k, t) && !Completed(trace, events, k, t - 1)
    ensures Reflected(trace[t], k)
  {
    var i, j :| CompletedAt(trace, events, k, i, j) && j <= t;
    assert j == t;
    assert Next(trace[t - 1], events[t - 1], trace[t]);
    if i < t - 1 {
      assert k in trace[t - 1].workers by {
        assert !CompletedAt(trace, events, k, i, t - 1);
      }
      PlannedSince(s, trace, events, faulty, k, i, t - 1);
    }
    LastStepReflects(trace[t - 1], events[t - 1], k);
  }

  ghost predicate NoFinalizer(s: State, k: Key) {
    k in s.api ==> s.api[k].deleting && !s.api[k].finalizer
  }

  /** Nobody gives a deleting object the finalizer. */
  lemma StaysReleased(s: State, e: Event, k: Key)
    requires Inv(s) && Enabled(s, e) && Quiet(e) && NoFinalizer(s, k)
    ensures NoFinalizer(Step(s, e), k)
  {
    if e.Work? {
      assert Holds(s, e.key, s.workers[e.key]);
    }
  }

  lemma {:induction false} Released(s: State, trace: seq<State>, events: seq<Event>, faulty: bool, k: Key, t: nat)
    requires Inv(s) && NoClash(s, faulty) && QuietRun(s, trace, events, faulty) && t < |trace|
    requires k in s.api && s.api[k].deleting && Completed(trace, events, k, t)
    ensures NoFinalizer(trace[t], k)
  {
    QuietHolds(s, trace, events, faulty, t);
    if t > 0 && Completed(trace, events, k, t - 1) {
      Released(s, trace, events, faulty, k, t - 1);
      QuietHolds(s, trace, events, faulty, t - 1);
      assert Next(trace[t - 1], events[t - 1], trace[t]);
      StaysReleased(trace[t - 1], events[t - 1], k);
    } else {
      assert t > 0;
      Lands(s, trace, events, faulty, k, t);
    }
  }

  // ----- One ref: the last of its live objects to complete has the last word -----------------------------

  ghost predicate AllCompleted(s: State, trace: seq<State>, events: seq<Event>, r: Ref, t: nat) {
    forall k :: Live(s, k, r) ==> Completed(trace, events, k, t)
  }

  ghost predicate Stored(s: State, store: map<Ref, Spec>, k: Key, r: Ref)
    requires k in s.api
  {
    r in store && store[r] == s.api[k].spec
  }

  /** Once all the live objects of a ref work on their current specs, a step leaves the entry alone. */
  lemma StaysStored(s: State, e: Event, faulty: bool, k: Key, r: Ref)
    requires Inv(s) && NoClash(s, faulty) && Enabled(s, e) && Quiet(e) && Live(s, k, r) && Stored(s, s.store, k, r)
    requires forall l :: Live(s, l, r) ==> Planned(s, l)
    ensures Stored(s, Step(s, e).store, k, r)
  {
    if e.Work? {
      var w := s.workers[e.key];
      assert Holds(s, e.key, w) && SameRef(s, e.key, w);
      if w.o.spec.Ref() == r && (w.ToSync? || w.ToPurge?) {
        assert s.api[e.key].spec.Ref() == r && !WillPurge(s, e.key, faulty);
        assert Live(s, e.key, r) && Planned(s, e.key);
      }
    }
  }

  lemma PlannedWhenCompleted(s: State, trace: seq<State>, events: seq<Event>, faulty: bool, k: Key, t: nat)
    requires QuietRun(s, trace, events, faulty) && t < |trace| && Completed(trace, events, k, t)
    ensures Planned(trace[t], k)
  {
    var i, j :| CompletedAt(trace, events, k, i, j) && j <= t;
    PlannedSince(s, trace, events, faulty, k, i, t);
  }

  lemma {:induction false} StoredAfterAll(s: State, trace: seq<State>, events: seq<Event>, faulty: bool,
                                          k: Key, r: Ref, t: nat)
    requires Inv(s) && NoClash(s, faulty) && QuietRun(s, trace, events, faulty) && t < |trace|
    requires Live(s, k, r) && AllCompleted(s, trace, events, r, t)
    ensures Stored(s, trace[t].store, k, r)
  {
    assert Completed(trace, events, k, t);
    assert t > 0;
    if AllCompleted(s, trace, events, r, t - 1) {
      StoredAfterAll(s, trace, events, faulty, k, r, t - 1);
      StoredAfterStep(s, trace, events, faulty, k, r, t);
    } else {
      var l :| Live(s, l, r) && !Completed(trace, events, l, t - 1);
      QuietHolds(s, trace, events, faulty, t);
      Lands(s, trace, events, faulty, l, t);
      assert s.api[l].spec == s.api[k].spec;
    }
  }

  lemma StoredAfterStep(s: State, trace: seq<State>, events: seq<Event>, faulty: bool, k: Key, r: Ref, t: nat)
    requires Inv(s) && NoClash(s, faulty) && QuietRun(s, trace, events, faulty) && 0 < t < |trace|
    requires Live(s, k, r) && AllCompleted(s, trace, events, r, t - 1) && Stored(s, trace[t - 1].store, k, r)
    ensures Stored(s, trace[t].store, k, r)
  {
    QuietHolds(s, trace, events, faulty, t - 1);
    var a := trace[t - 1];
    forall l | Live(a, l, r) ensures Planned(a, l) {
      assert Live(s, l, r);
      PlannedWhenCompleted(s, trace, events, faulty, l, t - 1);
    }
    assert Next(a, events[t - 1], trace[t]);
    StaysStored(a, events[t - 1], faulty, k, r);
  }

  /** From any reachable state without a clash, reconciles in flight or not, every pass over the API
      objects leaves the store the exact image of the live ones. */
  lemma PassConverges(s: State, trace: seq<State>, events: seq<Event>, faulty: bool)
    requires Reachable(s) && NoClash(s, faulty) && Pass(s, trace, events, faulty)
    ensures IsImage(trace[|events|].store, s)
  {
    var n, b := |events|, trace[|events|];
    ReachableInv(s);
    QuietHolds(s, trace, events, faulty, n);
    forall k, r | Live(s, k, r) ensures Stored(s, b.store, k, r) {
      StoredAfterAll(s, trace, events, faulty, k, r, n);
    }
    forall r | r in b.store ensures exists k :: Live(s, k, r) {
      var k :| Traced(b, k, r);
      if s.api[k].deleting {
        Released(s, trace, events, faulty, k, n);
      }
      assert Live(s, k, r);
    }
  }

  // ----- A round is a pass ----------------------------------------------------------------------------

  lemma Extend(s: State, trace: seq<State>, events: seq<Event>, faulty: bool, e: Event)
    returns (trace': seq<State>, events': seq<Event>)
    requires QuietRun(s, trace, events, faulty) && Enabled(trace[|events|], e) && Tolerated(e, faulty)
    ensures trace' == trace + [Step(trace[|events|], e)] && events' == events + [e]
    ensures QuietRun(s, trace', events', faulty)
  {
    trace', events' := trace + [Step(trace[|events|], e)], events + [e];
    forall i | 0 <= i < |events'| ensures Next(trace'[i], events'[i], trace'[i + 1]) {
      if i < |events| {
        assert Next(trace[i], events[i], trace[i + 1]);
      }
    }
  }

  lemma PassExtends(s: State, trace: seq<State>, events: seq<Event>, faulty: bool, e: Event)
    returns (trace': seq<State>, events': seq<Event>)
    requires Pass(s, trace, events, faulty) && Enabled(trace[|events|], e) && Tolerated(e, faulty)
    ensures Pass(s, trace', events', faulty) && trace'[|events'|] == Step(trace[|events|], e)
  {
    trace', events' := Extend(s, trace, events, faulty, e);
    forall k | k in s.api ensures Completed(trace', events', k, |events'|) {
      StaysCompleted(trace, events, trace', events', k);
    }
  }

  /** `longer` goes on from where `events` end, and no update fails. */
  ghost predicate GoesOnWell(events: seq<Event>, longer: seq<Event>) {
    events <= longer && forall t :: |events| <= t < |longer| ==> Tolerated(longer[t], false)
  }

  lemma {:induction false} FinishRun(s: State, trace: seq<State>, events: seq<Event>, faulty: bool, key: Key)
    returns (trace': seq<State>, events': seq<Event>)
    requires QuietRun(s, trace, events, faulty)
    ensures QuietRun(s, trace', events', faulty) && trace <= trace' && GoesOnWell(events, events')
    ensures trace'[|events'|] == Finish(trace[|events|], key) && key !in trace'[|events'|].workers
    decreases Rank(trace[|events|], key)
  {
    trace', events' := trace, events;
    if key in trace[|events|].workers {
      WorkLowersRank(trace[|events|], key);
      trace', events' := Extend(s, trace, events, faulty, Work(key, false));
      trace', events' := FinishRun(s, trace', events', faulty, key);
    }
  }

  lemma ReconcileRun(s: State, trace: seq<State>, events: seq<Event>, faulty: bool, key: Key)
    returns (trace': seq<State>, events': seq<Event>)
    requires QuietRun(s, trace, events, faulty)
    ensures QuietRun(s, trace', events', faulty) && trace <= trace' && events <= events'
    ensures trace'[|events'|] == Reconcile(trace[|events|], key) && Completed(trace', events', key, |events'|)
  {
    trace', events' := FinishRun(s, trace, events, faulty, key);
    var i := |events'|;
    trace', events' := Extend(s, trace', events', faulty, Get(key));
    trace', events' := FinishRun(s, trace', events', faulty, key);
    assert CompletedAt(trace', events', key, i, |events'|);
  }

  lemma StaysCompleted(trace: seq<State>, events: seq<Event>, trace': seq<State>, events': seq<Event>, k: Key)
    requires |trace| == |events| + 1 && |trace'| == |events'| + 1
    requires trace <= trace' && events <= events' && Completed(trace, events, k, |events|)
    ensures Completed(trace', events', k, |events'|)
  {
    var i, j :| CompletedAt(trace, events, k, i, j) && j <= |events|;
    assert CompletedAt(trace', events', k, i, j);
  }

  /** The run goes on with a round. */
  lemma {:induction false} RoundRun(s: State, trace: seq<State>, events: seq<Event>, faulty: bool, order: seq<Key>)
    returns (trace': seq<State>, events': seq<Event>)
    requires QuietRun(s, trace, events, faulty)
    ensures QuietRun(s, trace', events', faulty) && trace'[|events'|] == Round(trace[|events|], order)
    ensures forall k :: k in order ==> Completed(trace', events', k, |events'|)
  {
    trace', events' := trace, events;
    if order != [] {
      var init, last := order[..|order| - 1], order[|order| - 1];
      var trace0, events0 := RoundRun(s, trace, events, faulty, init);
      trace', events' := ReconcileRun(s, trace0, events0, faulty, last);
      forall k | k in order ensures Completed(trace', events', k, |events'|) {
        if k != last {
          assert k in init;
          StaysCompleted(trace0, events0, trace', events', k);
        }
      }
    }
  }

  // ----- A clash makes some round diverge ----------------------------------------------------------------

  lemma {:induction false} FinishLeavesAlone(s: State, key: Key, l: Key)
    requires key != l
    ensures SameKey(s, Finish(s, key), l)
    decreases Rank(s, key)
  {
    if key in s.workers {
      WorkLowersRank(s, key);
      WorkLeavesAlone(s, key, s.workers[key], false, l);
      FinishLeavesAlone(Step(s, Work(key, false)), key, l);
    }
  }

  lemma {:induction false} RoundLeavesAlone(s: State, order: seq<Key>, l: Key)
    requires Reachable(s) && l !in order && WillPurge(s, l, false)
    ensures var b := Round(s, order); Reachable(b) && WillPurge(b, l, false) && b.api[l].spec == s.api[l].spec
  {
    if order != [] {
      var init, last := order[..|order| - 1], order[|order| - 1];
      RoundLeavesAlone(s, init, l);
      var a := Round(s, init);
      var idle := Finish(a, last);
      ReconcileSettles(a, last);
      FinishLeavesAlone(a, last, l);
      FinishLeavesAlone(Step(idle, Get(last)), last, l);
    }
  }

  /** The release goes through, or the object stays as it is. */
  lemma FinishReleases(s: State, l: Key, o: Object)
    requires l in s.workers && s.workers[l] == ToRelease(o)
    ensures var b := Finish(s, l);
            && b.store == s.store
            && l !in b.workers
            && (b.api == s.api || (l in b.api ==> b.api[l] == o.(finalizer := false, version := s.clock + 1)))
  {
    var b := WorkStep(s, l, ToRelease(o), false);
    assert l !in b.workers;
    assert Finish(s, l) == Finish(b, l) == b;
    if UpdateAccepted(s, l, o, false) {
      assert b.api == Commit(s, l, o.(finalizer := false)).api;
    }
  }

  /** A fresh reconcile of a deleting object purges its ref, unless it has no finalizer. */
  lemma FreshPurges(s: State, l: Key, r: Ref)
    requires l !in s.workers && (l in s.api ==> s.api[l].deleting && s.api[l].spec.Ref() == r)
    requires !(l in s.api && s.api[l].finalizer) ==> r !in s.store
    ensures r !in Finish(Step(s, Get(l)), l).store
  {
    if l in s.api && s.api[l].finalizer {
      var o := s.api[l];
      var s1 := Step(s, Get(l));
      assert s1.workers[l] == ToPurge(o);
      var s2 := Step(s1, Work(l, false));
      FinishReleases(s2, l, o);
      assert Finish(s1, l) == Finish(s2, l);
    }
  }

  lemma ReconcilePurges(s: State, l: Key, r: Ref)
    requires Reachable(s) && WillPurge(s, l, false) && s.api[l].spec.Ref() == r
    ensures r !in Reconcile(s, l).store
  {
    ReachableInv(s);
    FinishEnds(s, l);
    var b := Finish(s, l);
    if l in s.workers {
      var w := s.workers[l];
      assert Holds(s, l, w);
      var s1 := Step(s, Work(l, false));
      assert Finish(s, l) == Finish(s1, l);
      if w.ToPurge? {
        FinishReleases(s1, l, w.o);
      } else {
        assert l !in s1.workers && b == s1;
        assert b.api == s.api;
      }
    }
    FreshPurges(b, l, r);
  }

  lemma KeysInOrder(keys: set<Key>) returns (order: seq<Key>)
    ensures forall k :: k in order <==> k in keys
  {
    order := [];
    var todo := keys;
    while todo != {}
      invariant todo <= keys && forall k :: k in order <==> k in keys - todo
    {
      var k :| k in todo;
      order, todo := order + [k], todo - {k};
    }
  }

  ghost predicate Covers(order: seq<Key>, s: State) {
    forall k :: k in s.api ==> k in order
  }

  /** The purge comes last: the live object is out of the store. */
  lemma PurgedLast(s: State, k: Key, l: Key, r: Ref) returns (order: seq<Key>)
    requires Reachable(s) && Live(s, k, r) && WillPurge(s, l, false) && s.api[l].spec.Ref() == r
    ensures Covers(order, s) && !IsImage(Round(s, order).store, s)
  {
    var others := KeysInOrder(s.api.Keys - {l});
    order := others + [l];
    RoundLeavesAlone(s, others, l);
    assert order[..|order| - 1] == others;
    ReconcilePurges(Round(s, others), l, r);
  }

  lemma ClashDiverges(s: State) returns (order: seq<Key>)
    requires Reachable(s) && !NoClash(s, false)
    ensures Covers(order, s) && !IsImage(Round(s, order).store, s)
  {
    var k, l, r :| Live(s, k, r) && l in s.api && s.api[l].spec.Ref() == r &&
      !(if s.api[l].deleting then !WillPurge(s, l, false) else s.api[l].spec == s.api[k].spec);
    if s.api[l].deleting {
      order := PurgedLast(s, k, l, r);
    } else {
      order := KeysInOrder(s.api.Keys);
      assert Live(s, l, r);
    }
  }

  /** A pending release fails, and the purge is done again. */
  lemma RetriedPurgeDiverges(s: State, k: Key, l: Key, r: Ref) returns (trace: seq<State>, events: seq<Event>)
    requires Reachable(s) && Live(s, k, r) && l in s.api && s.api[l].spec.Ref() == r
    requires WillPurge(s, l, true) && !WillPurge(s, l, false)
    ensures Pass(s, trace, events, true) && !IsImage(trace[|events|].store, s)
  {
    var b := Step(s, Work(l, true));
    FailedRelease(s, l);
    StepReachable(s, Work(l, true));
    assert Live(b, k, r);
    var order := PurgedLast(b, k, l, r);
    OnlyTheApiCounts(s, b, Round(b, order).store);
    var trace0, events0 := Extend(s, [s], [], true, Work(l, true));
    trace, events := RoundRun(s, trace0, events0, true, order);
  }

  lemma FailedRelease(s: State, l: Key)
    requires WillPurge(s, l, true) && !WillPurge(s, l, false)
    ensures var b := Step(s, Work(l, true)); b.api == s.api && WillPurge(b, l, false)
  {
  }

  lemma OnlyTheApiCounts(a: State, b: State, store: map<Ref, Spec>)
    requires a.api == b.api && !IsImage(store, b)
    ensures !IsImage(store, a)
  {
    assert forall k, r :: Live(a, k, r) <==> Live(b, k, r);
  }

  // ----- Convergence, exactly ----------------------------------------------------------------------------

  lemma ClashIsSeen(s: State, faulty: bool) returns (trace: seq<State>, events: seq<Event>)
    requires Reachable(s) && !NoClash(s, faulty)
    ensures Pass(s, trace, events, faulty) && !IsImage(trace[|events|].store, s)
  {
    if NoClash(s, false) {
      var k, l, r :| Live(s, k, r) && l in s.api && s.api[l].spec.Ref() == r &&
        !(if s.api[l].deleting then !WillPurge(s, l, true) else s.api[l].spec == s.api[k].spec);
      trace, events := RetriedPurgeDiverges(s, k, l, r);
    } else {
      var order := ClashDiverges(s);
      trace, events := RoundRun(s, [s], [], faulty, order);
    }
  }

  /** From a reachable state, every pass makes the store the image of the live objects exactly when no
      live object shares its ref with one that will be purged or has another spec: with failures anywhere
      outside the reconcile of each key that completes, or without any. The latter also decides it for
      rounds, the passes that take one key after the other. */
  lemma ConvergesExactly(s: State, faulty: bool)
    requires Reachable(s)
    ensures (forall trace: seq<State>, events: seq<Event> ::
               Pass(s, trace, events, faulty) ==> IsImage(trace[|events|].store, s)) <==> NoClash(s, faulty)
    ensures (forall order :: Covers(order, s) ==> IsImage(Round(s, order).store, s)) <==> NoClash(s, false)
  {
    if NoClash(s, faulty) {
      forall trace: seq<State>, events: seq<Event> | Pass(s, trace, events, faulty)
        ensures IsImage(trace[|events|].store, s)
      {
        PassConverges(s, trace, events, faulty);
      }
    } else {
      var trace, events := ClashIsSeen(s, faulty);
    }
    RoundsConvergeExactly(s);
  }

  lemma RoundsConvergeExactly(s: State)
    requires Reachable(s)
    ensures (forall order :: Covers(order, s) ==> IsImage(Round(s, order).store, s)) <==> NoClash(s, false)
  {
    if NoClash(s, false) {
      forall order | Covers(order, s) ensures IsImage(Round(s, order).store, s) {
        var trace, events := RoundRun(s, [s], [], false, order);
        PassConverges(s, trace, events, false);
      }
    } else {
      var order := ClashDiverges(s);
    }
  }

  /** With unique ids every round converges, in whatever order, and every pass, with whatever failures. */
  lemma UniqueRefsConverge(s: State)
    requires Reachable(s) && UniqueRefs(s)
    ensures forall order :: Covers(order, s) ==> IsImage(Round(s, order).store, s)
    ensures forall trace: seq<State>, events: seq<Event> ::
              Pass(s, trace, events, true) ==> IsImage(trace[|events|].store, s)
  {
    UniqueRefsDoNotClash(s, true);
    UniqueRefsDoNotClash(s, false);
    ConvergesExactly(s, true);
  }

  // ----- Two objects, one id --------------------------------------------------------------------------------

  /** An object is created, reconciled and marked for deletion; another is created with the same spec. */
  function SharedId(a: Key, b: Key, spec: Spec): State
    requires a != b
  {
    Step(Step(Deployed(a, spec), Delete(a)), Create(b, spec, false, {}))
  }

  /** The premise on unique ids is needed: a state two creations lead to, from which the round that takes
      the live object first leaves it out of the store. */
  lemma SharedIdDiverges(a: Key, b: Key, spec: Spec)
    requires a != b && SameKind(a, spec) && SameKind(b, spec) && spec.Id() != ""
    ensures var s := SharedId(a, b, spec);
            Reachable(s) && Live(s, b, spec.Ref()) && Covers([b, a], s) && spec.Ref() !in Round(s, [b, a]).store
  {
    DeployedReachable(a, spec);
    var s1 := Deployed(a, spec);
    StepReachable(s1, Delete(a));
    StepReachable(Step(s1, Delete(a)), Create(b, spec, false, {}));
    var s := SharedId(a, b, spec);
    assert WillPurge(s, a, false) && Live(s, b, spec.Ref());
    RoundLeavesAlone(s, [b], a);
    assert [b, a][..1] == [b];
    ReconcilePurges(Round(s, [b]), a, spec.Ref());
  }
}
