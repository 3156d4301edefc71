/** Rounds: every key reconciled once, one after the other and with nobody interfering. A second round
    changes nothing. (What the first one leads to is the subject of `Passes`.) */
module Convergence {
  import opened Finalizer

  function Rank(s: State, key: Key): nat {
    if key !in s.workers then 0
    else match s.workers[key] case ToFinalize(_) => 2 case ToPurge(_) => 2 case ToSync(_) => 1 case ToRelease(_) => 1
  }

  /** The reconcile of `key` that is in flight, if any, runs to its end. */
  function Finish(s: State, key: Key): State
    decreases Rank(s, key)
  {
    if key !in s.workers then s else Finish(Step(s, Work(key, false)), key)
  }

  /** What is in flight for `key` ends, then one whole reconcile of it runs. */
  function Reconcile(s: State, key: Key): State {
    Finish(Step(Finish(s, key), Get(key)), key)
  }

  function Round(s: State, order: seq<Key>): State {
    if order == [] then s else Reconcile(Round(s, order[..|order| - 1]), order[|order| - 1])
  }

  /** The object is reflected in the store: if live, finalized and synced at its version; if deleting,
      released. */
  ghost predicate Settled(s: State, k: Key) {
    && k !in s.workers
    && (k in s.api ==>
          var o := s.api[k];
          if o.deleting then !o.finalizer
          else
            && o.finalizer
            && (o.spec.Id() != "" ==>
                  && o.spec.Ref() in s.store && s.store[o.spec.Ref()] == o.spec
                  && o.spec.Ref() in s.versions && s.versions[o.spec.Ref()] == o.version))
  }

  /** No object is new, or has got another spec or mark. */
  ghost predicate SameMarks(a: State, b: State) {
    forall k :: k in b.api ==>
      k in a.api && b.api[k].spec == a.api[k].spec && b.api[k].deleting == a.api[k].deleting
  }

  /** ... and the live objects are all still there. */
  ghost predicate SameLive(a: State, b: State) {
    SameMarks(a, b) && forall k :: k in a.api && !a.api[k].deleting ==> k in b.api
  }

  lemma SameLiveTransitive(a: State, b: State, c: State)
    requires SameLive(a, b) && SameLive(b, c)
    ensures SameLive(a, c)
  {
  }

  // ----- One step of one key's reconcile, seen from the others --------------------------------------

  lemma WorkLeavesOthers(s: State, key: Key, k: Key)
    requires Reachable(s) && UniqueRefs(s) && key in s.workers && k != key && Settled(s, k)
    ensures Settled(Step(s, Work(key, false)), k)
  {
    ReachableInv(s);
    assert Holds(s, key, s.workers[key]) && SameRef(s, key, s.workers[key]);
    HeldWorkLeavesOthers(s, key, s.workers[key], k);
  }

  lemma HeldWorkLeavesOthers(s: State, key: Key, w: Worker, k: Key)
    requires Holds(s, key, w) && SameRef(s, key, w) && k != key && Settled(s, k)
    requires UniqueRefs(s)
    ensures Settled(WorkStep(s, key, w, false), k)
  {
    if k in s.api && key in s.api {
      assert s.api[k].spec.Ref() != s.api[key].spec.Ref();
    }
  }

  lemma WorkKeepsLive(s: State, key: Key)
    requires Reachable(s) && key in s.workers
    ensures SameLive(s, Step(s, Work(key, false)))
  {
    ReachableInv(s);
    assert Holds(s, key, s.workers[key]);
    HeldWorkKeepsLive(s, key, s.workers[key]);
  }

  lemma HeldWorkKeepsLive(s: State, key: Key, w: Worker)
    requires Holds(s, key, w)
    ensures SameLive(s, WorkStep(s, key, w, false))
  {
  }

  lemma WorkLowersRank(s: State, key: Key)
    requires key in s.workers
    ensures Rank(Step(s, Work(key, false)), key) < Rank(s, key)
  {
  }

  lemma {:induction false} FinishEnds(s: State, key: Key)
    requires Reachable(s)
    ensures Reachable(Finish(s, key)) && key !in Finish(s, key).workers && SameLive(s, Finish(s, key))
    decreases Rank(s, key)
  {
    if key in s.workers {
      var next := Step(s, Work(key, false));
      StepReachable(s, Work(key, false));
      WorkKeepsLive(s, key);
      WorkLowersRank(s, key);
      FinishEnds(next, key);
      SameLiveTransitive(s, next, Finish(next, key));
    }
  }

  lemma {:induction false} FinishLeavesOthers(s: State, key: Key, k: Key)
    requires Reachable(s) && UniqueRefs(s) && k != key && Settled(s, k)
    ensures Settled(Finish(s, key), k)
    decreases Rank(s, key)
  {
    if key in s.workers {
      StepReachable(s, Work(key, false));
      WorkLeavesOthers(s, key, k);
      WorkKeepsLive(s, key);
      WorkLowersRank(s, key);
      FinishLeavesOthers(Step(s, Work(key, false)), key, k);
    }
  }

  // ----- A fresh reconcile, with nobody interfering, settles its object -------------------------------

  lemma FreshSync(s: State, key: Key, o: Object)
    requires key in s.workers && s.workers[key] == ToSync(o)
    requires key in s.api && s.api[key] == o && !o.deleting && o.finalizer
    ensures Settled(Finish(s, key), key)
  {
    var s' := Step(s, Work(key, false));
    assert key !in s'.workers && Finish(s, key) == Finish(s', key) == s';
  }

  lemma FreshFinalize(s: State, key: Key, o: Object)
    requires key in s.workers && s.workers[key] == ToFinalize(o)
    requires key in s.api && s.api[key] == o && !o.deleting
    ensures Settled(Finish(s, key), key)
  {
    var s' := Step(s, Work(key, false));
    var added := o.(finalizer := true, version := s.clock + 1);
    assert s'.workers[key] == ToSync(added) && s'.api[key] == added;
    FreshSync(s', key, added);
  }

  lemma FreshPurge(s: State, key: Key, o: Object)
    requires key in s.workers && s.workers[key] == ToPurge(o)
    requires key in s.api && s.api[key] == o && o.deleting
    ensures Settled(Finish(s, key), key)
  {
    var s' := Step(s, Work(key, false));
    assert s'.workers[key] == ToRelease(o) && s'.api[key] == o;
    var s'' := Step(s', Work(key, false));
    assert key !in s''.workers && Finish(s', key) == Finish(s'', key) == s'';
  }

  lemma FreshSettles(s: State, key: Key)
    requires key !in s.workers
    ensures Settled(Finish(Step(s, Get(key)), key), key)
  {
    if key in s.api && Plan(s.api[key]).Some? {
      var o := s.api[key];
      match Plan(o).value {
        case ToFinalize(_) => FreshFinalize(Step(s, Get(key)), key, o);
        case ToSync(_) => FreshSync(Step(s, Get(key)), key, o);
        case ToPurge(_) => FreshPurge(Step(s, Get(key)), key, o);
      }
    }
  }

  lemma GetChangesNothing(s: State, key: Key, k: Key)
    requires key !in s.workers
    ensures SameLive(s, Step(s, Get(key)))
    ensures k != key && Settled(s, k) ==> Settled(Step(s, Get(key)), k)
  {
  }

  lemma ReconcileSettles(s: State, key: Key)
    requires Reachable(s)
    ensures Reachable(Reconcile(s, key)) && SameLive(s, Reconcile(s, key)) && Settled(Reconcile(s, key), key)
  {
    FinishEnds(s, key);
    var idle := Finish(s, key);
    StepReachable(idle, Get(key));
    GetChangesNothing(idle, key, key);
    FinishEnds(Step(idle, Get(key)), key);
    FreshSettles(idle, key);
    SameLiveTransitive(s, idle, Step(idle, Get(key)));
    SameLiveTransitive(s, Step(idle, Get(key)), Reconcile(s, key));
  }

  lemma ReconcileLeavesOthers(s: State, key: Key, k: Key)
    requires Reachable(s) && UniqueRefs(s) && k != key && Settled(s, k)
    ensures Settled(Reconcile(s, key), k)
  {
    FinishEnds(s, key);
    FinishLeavesOthers(s, key, k);
    var idle := Finish(s, key);
    StepReachable(idle, Get(key));
    GetChangesNothing(idle, key, k);
    FinishLeavesOthers(Step(idle, Get(key)), key, k);
  }

  lemma {:induction false} RoundSettles(s: State, order: seq<Key>)
    requires Reachable(s) && UniqueRefs(s)
    ensures Reachable(Round(s, order)) && SameLive(s, Round(s, order))
    ensures forall k :: k in order ==> Settled(Round(s, order), k)
  {
    if order != [] {
      var init, last := order[..|order| - 1], order[|order| - 1];
      RoundSettles(s, init);
      ReconcileSettles(Round(s, init), last);
      SameLiveTransitive(s, Round(s, init), Round(s, order));
      forall k | k in order ensures Settled(Round(s, order), k) {
        if k != last {
          assert k in init;
          ReconcileLeavesOthers(Round(s, init), last, k);
        }
      }
    }
  }

  // ----- A second round ------------------------------------------------------------------------------

  lemma SettledIsFixed(s: State, key: Key)
    requires Settled(s, key)
    ensures Reconcile(s, key) == s
  {
    var s1 := Step(s, Get(key));
    assert Finish(s, key) == s;
    if key in s.api && !s.api[key].deleting {
      SyncIsFixed(s, key, s.api[key]);
    } else {
      assert s1.workers == s.workers;
    }
  }

  lemma SyncIsFixed(s: State, key: Key, o: Object)
    requires Settled(s, key) && key in s.api && s.api[key] == o && !o.deleting
    ensures Finish(Step(s, Get(key)), key) == s
  {
    var s1 := Step(s, Get(key));
    assert s1.workers == s.workers[key := ToSync(o)];
    var s2 := Step(s1, Work(key, false));
    assert s2.workers == s.workers;
    assert s2.store == s.store && s2.versions == s.versions;
    assert s2 == s;
    assert Finish(s1, key) == Finish(s2, key);
  }

  lemma {:induction false} SettledRoundIsFixed(s: State, order: seq<Key>)
    requires forall k :: k in order ==> Settled(s, k)
    ensures Round(s, order) == s
  {
    if order != [] {
      SettledRoundIsFixed(s, order[..|order| - 1]);
      SettledIsFixed(s, order[|order| - 1]);
    }
  }

  /** With unique ids, a second round over the same keys, in any order, changes nothing at all: no object,
      no version, no entry. */
  lemma SecondRoundChangesNothing(s: State, order: seq<Key>, again: seq<Key>)
    requires Reachable(s) && UniqueRefs(s) && forall k :: k in again ==> k in order
    ensures Round(Round(s, order), again) == Round(s, order)
  {
    RoundSettles(s, order);
    SettledRoundIsFixed(Round(s, order), again);
  }
}
