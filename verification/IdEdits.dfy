/** Editing an id. The protocol takes ids to be fixed after creation, but nothing enforces it: exactly when
    an edit does no harm, and what is left behind when it does. */
module IdEdits {
  import opened Specs
  import opened Finalizer

  /** An edit that may also change the id. */
  ghost predicate MayEdit(s: State, key: Key, spec: Spec, others: set<string>) {
    key in s.api && SameKind(key, spec) && (s.api[key].deleting ==> others <= s.api[key].others)
  }

  /** The edit keeps the ref; or nothing of the object is stored under the old one, or about to be. */
  ghost predicate Harmless(s: State, key: Key, spec: Spec)
    requires key in s.api
  {
    spec.Ref() == s.api[key].spec.Ref() || Unattached(s, key)
  }

  /** Every entry has an object that keeps its ref guarded. */
  ghost predicate Guarded(s: State) {
    forall r :: r in s.store ==> exists k :: Guards(s, k, r)
  }

  lemma TracedIsGuarded(s: State)
    requires StoreInv(s)
    ensures Guarded(s)
  {
    forall r | r in s.store ensures exists k :: Guards(s, k, r) {
      var k :| Traced(s, k, r);
    }
  }

  // ----- The instant of the edit --------------------------------------------------------------------------

  /** If entries belong to objects, then one that `key` wrote belongs to `key`. */
  lemma WriterGuards(s: State, key: Key, r: Ref)
    requires Wrote(s, key, r)
    ensures StoreInv(s) ==> Guards(s, key, r)
  {
    if StoreInv(s) {
      var k :| Traced(s, k, r);
    }
  }

  /** Right after the edit every entry still belongs to an object that guards it, exactly when the ref is
      kept or the object had no entry under the old one; with unique ids, exactly when there was none. */
  lemma EditGuardExactly(s: State, key: Key, spec: Spec, others: set<string>)
    requires LooseInv(s) && MayEdit(s, key, spec, others)
    ensures var b, was := Step(s, Edit(key, spec, others)), s.api[key].spec.Ref();
            && (StoreInv(b) <==> spec.Ref() == was || !Wrote(s, key, was))
            && (UniqueRefs(s) ==> (Guarded(b) <==> spec.Ref() == was || was !in s.store))
  {
    var o := s.api[key].(spec := spec, others := others);
    var b, r := Commit(s, key, o), s.api[key].spec.Ref();
    CommitKeepsWriters(s, key, o, key, r);
    if spec.Ref() == r || !Wrote(s, key, r) {
      EditKeepsEntries(s, key, o);
      TracedIsGuarded(b);
    } else {
      WriterGuards(b, key, r);
    }
    if UniqueRefs(s) && r in s.store {
      var k :| Traced(s, k, r);
      assert k == key;
    }
  }

  lemma EditKeepsEntries(s: State, key: Key, o: Object)
    requires LooseInv(s) && key in s.api && o.deleting == s.api[key].deleting && o.finalizer == s.api[key].finalizer
    requires o.spec.Ref() == s.api[key].spec.Ref() || !Wrote(s, key, s.api[key].spec.Ref())
    ensures StoreInv(Commit(s, key, o))
  {
    var b := Commit(s, key, o);
    forall r | r in b.store ensures exists k :: Traced(b, k, r) {
      var k :| Traced(s, k, r);
      CommitKeepsWriters(s, key, o, k, r);
      assert Traced(b, k, r);
    }
  }

  // ----- Everything after it --------------------------------------------------------------------------------

  /** On every run from `s` that keeps ids fixed, every entry always belongs to an object that carries the
      finalizer and had that spec. */
  ghost predicate StaysTraced(s: State) {
    forall trace: seq<State>, events: seq<Event>, k ::
      IsRun(trace, events) && trace[0] == s && 0 <= k < |trace| ==> StoreInv(trace[k])
  }

  /** The same for entries that any object guards. */
  ghost predicate StaysGuarded(s: State) {
    forall trace: seq<State>, events: seq<Event>, k ::
      IsRun(trace, events) && trace[0] == s && 0 <= k < |trace| ==> Guarded(trace[k])
  }

  lemma {:induction false} RunLooseInv(trace: seq<State>, events: seq<Event>, k: nat)
    requires IsRun(trace, events) && LooseInv(trace[0]) && k < |trace|
    ensures LooseInv(trace[k])
  {
    if k > 0 {
      RunLooseInv(trace, events, k - 1);
      assert Next(trace[k - 1], events[k - 1], trace[k]);
      StepKeepsLooseInv(trace[k - 1], events[k - 1]);
    }
  }

  lemma LooseStays(s: State)
    requires LooseInv(s)
    ensures StaysTraced(s) && StaysGuarded(s)
  {
    forall trace: seq<State>, events: seq<Event>, k | IsRun(trace, events) && trace[0] == s && 0 <= k < |trace|
      ensures StoreInv(trace[k]) && Guarded(trace[k])
    {
      RunLooseInv(trace, events, k);
      TracedIsGuarded(trace[k]);
    }
  }

  /** The two runs that show it otherwise: none, and the one step of a reconcile about to sync. */
  lemma ShortRuns(s: State)
    ensures IsRun([s], [])
    ensures forall key :: key in s.workers ==>
              IsRun([s, Step(s, Work(key, false))], [Work(key, false)])
  {
  }

  lemma HarmfulNow(s: State, key: Key, spec: Spec, others: set<string>)
    requires LooseInv(s) && MayEdit(s, key, spec, others)
    requires spec.Ref() != s.api[key].spec.Ref() && Wrote(s, key, s.api[key].spec.Ref())
    ensures var b := Step(s, Edit(key, spec, others));
            !StaysTraced(b) && (UniqueRefs(s) ==> !StaysGuarded(b))
  {
    var b := Step(s, Edit(key, spec, others));
    EditGuardExactly(s, key, spec, others);
    ShortRuns(b);
    assert [b][0] == b;
  }

  lemma HarmfulNext(s: State, key: Key, spec: Spec, others: set<string>)
    requires LooseInv(s) && MayEdit(s, key, spec, others) && spec.Ref() != s.api[key].spec.Ref()
    requires key in s.workers && s.workers[key].ToSync? && s.workers[key].o.spec.Id() != ""
    ensures var b := Step(s, Edit(key, spec, others));
            !StaysTraced(b) && (UniqueRefs(s) ==> !StaysGuarded(b))
  {
    var o, r := s.workers[key].o, s.api[key].spec.Ref();
    assert Holds(s, key, s.workers[key]);
    var b := Step(s, Edit(key, spec, others));
    var c := Step(b, Work(key, false));
    assert c == WorkStep(b, key, ToSync(o), false);
    assert Wrote(c, key, r) && !Guards(c, key, r);
    WriterGuards(c, key, r);
    ShortRuns(b);
    assert [b, c][0] == b && [b, c][1] == c;
    if UniqueRefs(s) {
      assert r in c.store && forall k :: !Guards(c, k, r);
    }
  }

  /** From any state with sound bookkeeping (every reachable one, and those harmless edits lead to): the
      store stays guarded on all the runs that follow the edit exactly when the edit keeps the ref, or
      nothing of the object is stored under the old one and no sync of it is in flight. */
  lemma IdEditExactly(s: State, key: Key, spec: Spec, others: set<string>)
    requires LooseInv(s) && MayEdit(s, key, spec, others)
    ensures StaysTraced(Step(s, Edit(key, spec, others))) <==> Harmless(s, key, spec)
    ensures UniqueRefs(s) ==> (StaysGuarded(Step(s, Edit(key, spec, others))) <==> Harmless(s, key, spec))
    ensures Harmless(s, key, spec) ==> LooseInv(Step(s, Edit(key, spec, others)))
  {
    if Harmless(s, key, spec) {
      CommitKeepsLooseInv(s, key, s.api[key].(spec := spec, others := others));
      LooseStays(Step(s, Edit(key, spec, others)));
    } else if Wrote(s, key, s.api[key].spec.Ref()) {
      HarmfulNow(s, key, spec, others);
    } else {
      HarmfulNext(s, key, spec, others);
    }
  }

  // ----- What a harmful edit leaves behind --------------------------------------------------------------------

  /** An object is created, reconciled, and then given another id: its old entry has no object. */
  lemma ChangedIdBreaksGuard(key: Key, spec: Spec, newSpec: Spec)
    requires SameKind(key, spec) && SameKind(key, newSpec) && spec.Id() != "" && newSpec.Ref() != spec.Ref()
    ensures var s := Deployed(key, spec);
            Reachable(s) && UniqueRefs(s) && MayEdit(s, key, newSpec, {}) &&
            Orphaned(Step(s, Edit(key, newSpec, {})), spec.Ref())
  {
    DeployedReachable(key, spec);
    var s := Deployed(key, spec);
    var o := s.api[key].(spec := newSpec, others := {});
    ChangedIdIsOrphaned(s, key, o, spec.Ref());
  }

  /** An entry with no object to guard it, and that no reconcile in flight will touch. */
  ghost predicate Orphaned(s: State, r: Ref) {
    && r in s.store
    && (forall k :: k in s.api ==> s.api[k].spec.Ref() != r)
    && (forall k :: k in s.workers && s.workers[k].o.spec.Ref() == r ==>
          s.workers[k].ToFinalize? && Stale(s, k, s.workers[k].o))
  }

  /** An edit that gives a synced object another id, while no reconcile of it is in flight, orphans the old
      entry. */
  lemma ChangedIdIsOrphaned(s: State, key: Key, o: Object, r: Ref)
    requires Reachable(s) && UniqueRefs(s) && r in s.store && Guards(s, key, r)
    requires key !in s.workers && o.spec.Ref() != r
    ensures Orphaned(Commit(s, key, o), r)
  {
    ReachableInv(s);
    var s' := Commit(s, key, o);
    forall k | k in s'.workers && s'.workers[k].o.spec.Ref() == r
      ensures s'.workers[k].ToFinalize? && Stale(s', k, s'.workers[k].o)
    {
      assert k != key && Holds(s, k, s.workers[k]);
    }
  }

  /** `Step` is defined; ids need not be fixed or unique. */
  predicate CanStep(s: State, e: Event) {
    match e
    case Create(key, _, _, _) => key !in s.api
    case Edit(key, _, _) => key in s.api
    case Delete(key) => key in s.api
    case Get(key) => key !in s.workers
    case Work(key, _) => key in s.workers
    case Restart => true
  }

  lemma OrphanStaysWork(s: State, key: Key, w: Worker, fails: bool, r: Ref)
    requires Orphaned(s, r) && key in s.workers && s.workers[key] == w
    ensures Orphaned(WorkStep(s, key, w, fails), r)
  {
    match w {
      case ToFinalize(o) =>
        if UpdateAccepted(s, key, o, fails) {
          assert o.spec.Ref() != r;
        }
      case ToSync(o) =>
      case ToPurge(o) =>
      case ToRelease(o) =>
    }
  }

  lemma OrphanStaysStep(s: State, e: Event, r: Ref)
    requires Orphaned(s, r) && CanStep(s, e) && !e.Restart?
    requires (e.Create? || e.Edit?) ==> e.spec.Ref() != r
    ensures Orphaned(Step(s, e), r)
  {
    if e.Work? {
      OrphanStaysWork(s, e.key, s.workers[e.key], e.fails, r);
    }
  }

  /** ... and there it stays: the current id is the only one ever deleted. On every run that does not
      restart, or create or edit an object to have that id, the orphan is in the store. */
  lemma {:induction false} OrphanStays(trace: seq<State>, events: seq<Event>, r: Ref, j: nat)
    requires |trace| == |events| + 1 && j < |trace| && Orphaned(trace[0], r)
    requires forall k :: 0 <= k < |events| ==> CanStep(trace[k], events[k]) && trace[k + 1] == Step(trace[k], events[k])
    requires forall k :: 0 <= k < |events| ==> !events[k].Restart?
    requires forall k :: 0 <= k < |events| && (events[k].Create? || events[k].Edit?) ==> events[k].spec.Ref() != r
    ensures Orphaned(trace[j], r)
  {
    if j > 0 {
      OrphanStays(trace, events, r, j - 1);
      assert CanStep(trace[j - 1], events[j - 1]) && trace[j] == Step(trace[j - 1], events[j - 1]);
      OrphanStaysStep(trace[j - 1], events[j - 1], r);
    }
  }
}
