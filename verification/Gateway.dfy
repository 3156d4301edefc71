/** The whole gateway: requests are checked while both reconcilers run over one shared store. */
module Gateway {
  import opened Specs
  import opened Policy
  import opened Requests
  import opened Check
  import opened Decisions
  import C = CheckRuns
  import R = RunProperties
  import F = Finalizer
  import P = FinalizerProperties
  import V = Passes
  import W = Convergence
  import L = Filling
  import opened StoreView

  datatype State = State(cluster: F.State, pc: C.Pc)

  /** A step of the API server or of a reconciler, or of the request. A restart would end the request. */
  datatype Event = Cluster(e: F.Event) | Request(listing: seq<ModelSpec>)

  ghost predicate Next(s: Server, a: State, e: Event, b: State) {
    match e
    case Cluster(f) => !f.Restart? && F.Next(a.cluster, f, b.cluster) && b.pc == a.pc
    case Request(listing) =>
      && !a.pc.Done?
      && (a.pc.AskLoras? ==> ListsModels(listing, AsStore(a.cluster.store).models, MODEL_TYPE_LORA))
      && b == State(a.cluster, C.Advance(s, a.pc, AsStore(a.cluster.store), listing))
  }

  ghost predicate Steps(s: Server, trace: seq<State>, events: seq<Event>) {
    && |trace| == |events| + 1
    && forall k {:trigger events[k]} :: 0 <= k < |events| ==> Next(s, trace[k], events[k], trace[k + 1])
  }

  /** A request that arrives in a reachable state of the cluster, interleaved with everything else. */
  ghost predicate IsRun(s: Server, req: HttpRequest, trace: seq<State>, events: seq<Event>) {
    && Steps(s, trace, events)
    && F.Reachable(trace[0].cluster)
    && trace[0].pc == C.Enter(s, req)
  }

  ghost predicate Answered(trace: seq<State>, resp: Response) {
    |trace| > 0 && trace[|trace| - 1].pc == C.Done(resp)
  }

  // ----- A run of the gateway is a run of the check ----------------------------------------------

  /** What a cluster step does to the store. */
  function StoreEvent(a: F.State, e: F.Event): C.Event {
    if e.Work? && e.key in a.workers then
      match a.workers[e.key]
      case ToSync(o) => C.Wrote(SyncWrite(o.spec))
      case ToPurge(o) => C.Wrote(DeleteWrite(o.spec.Ref()))
      case _ => C.Idle
    else C.Idle
  }

  function ProjectState(x: State): C.State {
    C.State(AsStore(x.cluster.store), x.pc)
  }

  function ProjectEvent(x: State, e: Event): C.Event {
    match e case Cluster(f) => StoreEvent(x.cluster, f) case Request(listing) => C.Read(listing)
  }

  function Project(trace: seq<State>): seq<C.State> {
    seq(|trace|, i requires 0 <= i < |trace| => ProjectState(trace[i]))
  }

  function ProjectEvents(trace: seq<State>, events: seq<Event>): seq<C.Event>
    requires |trace| == |events| + 1
  {
    seq(|events|, i requires 0 <= i < |events| => ProjectEvent(trace[i], events[i]))
  }

  lemma KindsAgree(s: F.State)
    requires F.Reachable(s)
    ensures AsStore(s.store).Valid()
  {
    F.ReachableInv(s);
    AsStoreReads(s.store);
    forall r | r in s.store ensures s.store[r].Ref() == r && r.id != "" {
      var k :| F.Traced(s, k, r);
    }
  }

  /** Every step of the cluster is, to the store, one of its atomic writes or nothing. */
  lemma ClusterStepProjects(a: F.State, e: F.Event)
    requires F.Enabled(a, e) && !e.Restart?
    ensures var w := StoreEvent(a, e);
            AsStore(F.Step(a, e).store) == if w.Wrote? then Apply(w.w, AsStore(a.store)) else AsStore(a.store)
  {
    if e.Work? {
      WorkProjects(a, e.key, a.workers[e.key], e.fails);
    }
  }

  lemma NextProjects(s: Server, a: State, e: Event, b: State)
    requires Next(s, a, e, b)
    ensures C.Next(s, ProjectState(a), ProjectEvent(a, e), ProjectState(b))
  {
    match e {
      case Cluster(f) => ClusterNextProjects(s, a, f, b);
      case Request(_) =>
    }
  }

  lemma ClusterNextProjects(s: Server, a: State, f: F.Event, b: State)
    requires F.Enabled(a.cluster, f) && !f.Restart? && b == State(F.Step(a.cluster, f), a.pc)
    ensures C.Next(s, ProjectState(a), StoreEvent(a.cluster, f), ProjectState(b))
  {
    ClusterStepProjects(a.cluster, f);
    var w := StoreEvent(a.cluster, f);
    assert w.Wrote? || w.Idle?;
  }

  lemma {:induction false} ClusterInv(s: Server, req: HttpRequest, trace: seq<State>, events: seq<Event>, k: nat)
    requires IsRun(s, req, trace, events) && k < |trace|
    ensures F.Inv(trace[k].cluster)
  {
    if k == 0 {
      F.ReachableInv(trace[0].cluster);
    } else {
      ClusterInv(s, req, trace, events, k - 1);
      var a, e, b := trace[k - 1], events[k - 1], trace[k];
      assert Next(s, a, e, b);
      if e.Cluster? {
        F.StepKeepsInv(a.cluster, e.e);
      }
    }
  }

  lemma StepProjects(s: Server, req: HttpRequest, trace: seq<State>, events: seq<Event>, k: nat)
    requires IsRun(s, req, trace, events) && k < |events|
    ensures C.Next(s, Project(trace)[k], ProjectEvents(trace, events)[k], Project(trace)[k + 1])
  {
    assert Next(s, trace[k], events[k], trace[k + 1]);
    NextProjects(s, trace[k], events[k], trace[k + 1]);
  }

  lemma RunProjects(s: Server, req: HttpRequest, trace: seq<State>, events: seq<Event>)
    requires IsRun(s, req, trace, events)
    ensures C.IsRun(s, req, Project(trace), ProjectEvents(trace, events))
  {
    KindsAgree(trace[0].cluster);
    var t, es := Project(trace), ProjectEvents(trace, events);
    forall k | 0 <= k < |es| ensures C.Next(s, t[k], es[k], t[k + 1]) {
      StepProjects(s, req, trace, events, k);
    }
  }

  // ----- End to end --------------------------------------------------------------------------------

  /** At instant `i`, the store holds `spec`, and an API object is there with the finalizer that had
      exactly this spec, at a version no newer than its current one. */
  ghost predicate BackedByApi(trace: seq<State>, i: int, spec: Spec) {
    && 0 <= i < |trace|
    && var c := trace[i].cluster;
       && spec.Ref() in c.store && c.store[spec.Ref()] == spec
       && exists k, v ::
            F.Guards(c, k, spec.Ref()) && v <= c.api[k].version && v in c.log && c.log[v] == F.Issue(k, spec)
  }

  lemma StoredIsBacked(s: Server, req: HttpRequest, trace: seq<State>, events: seq<Event>, i: nat, r: Ref)
    requires IsRun(s, req, trace, events) && i < |trace| && r in trace[i].cluster.store
    ensures trace[i].cluster.store[r].Ref() == r && BackedByApi(trace, i, trace[i].cluster.store[r])
  {
    var c := trace[i].cluster;
    ClusterInv(s, req, trace, events, i);
    var k :| F.Traced(c, k, r);
    assert c.log[c.versions[r]] == F.Issue(k, c.store[r]);
  }

  /** A decision that rests on specs API objects declared: at `i` of the user and, later, at `j` of the
      model. */
  ghost predicate RestsOn(trace: seq<State>, uid: string, mid: string,
                          user: UserSpec, model: ModelSpec, i: int, j: int) {
    && user.id == uid && model.id == mid && Decide(user, model)
    && i < j && BackedByApi(trace, i, UserOf(user)) && BackedByApi(trace, j, ModelOf(model))
  }

  /** A rewrite that rests on the spec an API object declared, after instant `j`, usable by that user. */
  ghost predicate RewriteRestsOn(trace: seq<State>, mid: string, user: UserSpec, j: int, id: string) {
    exists l, lora ::
      j < l && BackedByApi(trace, l, ModelOf(lora)) && lora.id == id && UsableAdapter(user, lora, mid)
  }

  /** In every interleaving of a request with API edits, reconciles and their failures, an allowed
      completion rests on a user spec and, later, a model spec that API objects of those ids declared,
      with a true decision on the pair; the LoRA of a rewrite likewise, later still. */
  lemma AllowRestsOnTheApi(s: Server, req: HttpRequest, trace: seq<State>, events: seq<Event>, resp: Response,
                           uid: string, mid: string)
    requires s.engine.Sound() && IsRun(s, req, trace, events) && Answered(trace, resp)
    requires Completes(s, req, uid, mid) && resp.Allowed?
    ensures exists user, model, i, j :: RestsOn(trace, uid, mid, user, model, i, j) &&
              (resp.rewrite.Some? ==> RewriteRestsOn(trace, mid, user, j, resp.rewrite.value))
  {
    var t, es := Project(trace), ProjectEvents(trace, events);
    RunProjects(s, req, trace, events);
    C.AllowIsJustified(s, req, t, es, resp, uid, mid);
    var user, model, i, j :| C.Justified(t, |es|, uid, mid, user, model, i, j) &&
      (resp.rewrite.Some? ==> C.RewriteJustified(t, |es|, mid, user, model, j, resp.rewrite.value));
    JustifiedRests(s, req, trace, events, uid, mid, user, model, i, j);
    if resp.rewrite.Some? {
      RewriteRests(s, req, trace, events, mid, user, model, j, resp.rewrite.value);
    }
  }

  lemma JustifiedRests(s: Server, req: HttpRequest, trace: seq<State>, events: seq<Event>, uid: string, mid: string,
                       user: UserSpec, model: ModelSpec, i: int, j: int)
    requires IsRun(s, req, trace, events) && C.Justified(Project(trace), |events|, uid, mid, user, model, i, j)
    ensures RestsOn(trace, uid, mid, user, model, i, j)
  {
    AsStoreReads(trace[i].cluster.store);
    AsStoreReads(trace[j].cluster.store);
    StoredIsBacked(s, req, trace, events, i, UserRef(uid));
    StoredIsBacked(s, req, trace, events, j, ModelRef(mid));
    assert BackedByApi(trace, i, UserOf(user)) && BackedByApi(trace, j, ModelOf(model));
  }

  lemma RewriteRests(s: Server, req: HttpRequest, trace: seq<State>, events: seq<Event>, mid: string,
                     user: UserSpec, model: ModelSpec, j: int, id: string)
    requires IsRun(s, req, trace, events) && C.RewriteJustified(Project(trace), |events|, mid, user, model, j, id)
    ensures RewriteRestsOn(trace, mid, user, j, id)
  {
    var l, lora := C.JustifyingLora(Project(trace), |events|, mid, user, model, j, id);
    AsStoreReads(trace[l].cluster.store);
    StoredIsBacked(s, req, trace, events, l, ModelRef(id));
    assert BackedByApi(trace, l, ModelOf(lora));
  }

  ghost predicate NeverCreates(events: seq<Event>, r: Ref) {
    forall k :: 0 <= k < |events| && events[k].Cluster? && events[k].e.Create? ==> events[k].e.spec.Ref() != r
  }

  lemma {:induction false} GoneThroughout(s: Server, req: HttpRequest, trace: seq<State>, events: seq<Event>,
                                           r: Ref, k: nat)
    requires IsRun(s, req, trace, events) && P.Gone(trace[0].cluster, r) && NeverCreates(events, r) && k < |trace|
    ensures P.Gone(trace[k].cluster, r)
  {
    if k > 0 {
      GoneThroughout(s, req, trace, events, r, k - 1);
      assert Next(s, trace[k - 1], events[k - 1], trace[k]);
      if events[k - 1].Cluster? {
        ClusterInv(s, req, trace, events, k - 1);
        P.GoneStays(trace[k - 1].cluster, events[k - 1].e, trace[k].cluster, r);
      }
    }
  }

  lemma GoneIsNeverSynced(s: Server, req: HttpRequest, trace: seq<State>, events: seq<Event>, r: Ref)
    requires IsRun(s, req, trace, events) && P.Gone(trace[0].cluster, r) && NeverCreates(events, r)
    ensures r.UserRef? ==> R.NeverSyncsUser(ProjectEvents(trace, events), r.id)
    ensures r.ModelRef? ==> R.NeverSyncsModel(ProjectEvents(trace, events), r.id)
  {
    var es := ProjectEvents(trace, events);
    forall k | 0 <= k < |es| && es[k].Wrote?
      ensures es[k].w.SyncUser? && r.UserRef? ==> es[k].w.user.id != r.id
      ensures es[k].w.SyncModel? && r.ModelRef? ==> es[k].w.model.id != r.id
    {
      GoneThroughout(s, req, trace, events, r, k);
      assert Next(s, trace[k], events[k], trace[k + 1]);
      assert es[k] == ProjectEvent(trace[k], events[k]);
    }
  }

  lemma GoneIsNeverAllowed(s: Server, req: HttpRequest, trace: seq<State>, events: seq<Event>, resp: Response,
                           uid: string, mid: string, r: Ref)
    requires s.engine.Sound() && IsRun(s, req, trace, events) && Answered(trace, resp) && Completes(s, req, uid, mid)
    requires r == UserRef(uid) || r == ModelRef(mid)
    requires P.Gone(trace[0].cluster, r) && NeverCreates(events, r)
    ensures !resp.Allowed?
  {
    RunProjects(s, req, trace, events);
    GoneIsNeverSynced(s, req, trace, events, r);
    R.RevokedIsNeverAllowed(s, req, Project(trace), ProjectEvents(trace, events), resp, uid, mid);
  }

  /** Once a reconciler has purged a user or a model whose id no other object shares, no request that
      arrives later, however much later, is allowed a completion with it, whatever the reconcilers and the
      API do meanwhile, until it is created anew. */
  lemma RevocationEndToEnd(s: Server, req: HttpRequest, past: seq<F.State>, pastEvents: seq<F.Event>, p: nat,
                           trace: seq<State>, events: seq<Event>, resp: Response, uid: string, mid: string, r: Ref)
    requires s.engine.Sound() && IsRun(s, req, trace, events) && Answered(trace, resp) && Completes(s, req, uid, mid)
    requires r == UserRef(uid) || r == ModelRef(mid)
    requires F.IsRun(past, pastEvents) && past[0] == F.START && past[|pastEvents|] == trace[0].cluster
    requires p < |pastEvents| && F.UniqueRefs(past[p]) && P.Purges(past[p], pastEvents[p], r)
    requires forall k :: p < k < |pastEvents| && pastEvents[k].Create? ==> pastEvents[k].spec.Ref() != r
    requires NeverCreates(events, r)
    ensures !resp.Allowed?
  {
    P.NoResurrection(past, pastEvents, p, |pastEvents|, r);
    GoneIsNeverAllowed(s, req, trace, events, resp, uid, mid, r);
  }

  // ----- Revocation by an edit ---------------------------------------------------------------------

  ghost predicate NeverGives(events: seq<Event>, r: Ref) {
    forall k :: 0 <= k < |events| && events[k].Cluster? && (events[k].e.Create? || events[k].e.Edit?) ==>
      events[k].e.spec.Ref() != r
  }

  lemma {:induction false} SteadyThroughout(s: Server, trace: seq<State>, events: seq<Event>,
                                            r: Ref, spec: Spec, k: nat)
    requires Steps(s, trace, events) && P.Steady(trace[0].cluster, r, spec) && NeverGives(events, r) && k < |trace|
    ensures P.Steady(trace[k].cluster, r, spec)
  {
    if k > 0 {
      SteadyThroughout(s, trace, events, r, spec, k - 1);
      assert Next(s, trace[k - 1], events[k - 1], trace[k]);
      if events[k - 1].Cluster? {
        P.SteadyStays(trace[k - 1].cluster, events[k - 1].e, trace[k].cluster, r, spec);
      }
    }
  }

  /** A user and a model, live and synced, with nothing in flight for them and no other object of their ids:
      if the policy refuses the pair, then no request is allowed it, whatever the reconcilers and the API do
      meanwhile, until an object of one of the ids is created or edited. */
  lemma RevocationByEdit(s: Server, req: HttpRequest, trace: seq<State>, events: seq<Event>, resp: Response,
                         uid: string, mid: string, userKey: F.Key, modelKey: F.Key)
    requires s.engine.Sound() && IsRun(s, req, trace, events) && Answered(trace, resp) && Completes(s, req, uid, mid)
    requires var c := trace[0].cluster;
             && F.UniqueRefs(c) && V.Live(c, userKey, UserRef(uid)) && V.Live(c, modelKey, ModelRef(mid))
             && W.Settled(c, userKey) && W.Settled(c, modelKey)
             && !Decide(c.api[userKey].spec.user, c.api[modelKey].spec.model)
    requires NeverGives(events, UserRef(uid)) && NeverGives(events, ModelRef(mid))
    ensures !resp.Allowed?
  {
    if resp.Allowed? {
      var c := trace[0].cluster;
      F.ReachableInv(c);
      P.SettledIsSteady(c, userKey);
      P.SettledIsSteady(c, modelKey);
      AllowRestsOnTheApi(s, req, trace, events, resp, uid, mid);
      var user, model, i, j :| RestsOn(trace, uid, mid, user, model, i, j);
      SteadyThroughout(s, trace, events, UserRef(uid), c.api[userKey].spec, i);
      SteadyThroughout(s, trace, events, ModelRef(mid), c.api[modelKey].spec, j);
      assert false;
    }
  }

  // ----- What the live objects permit ----------------------------------------------------------------

  /** Live API objects declare this user and this model, and the policy allows the pair. */
  ghost predicate LivePermits(c: F.State, uid: string, mid: string, user: UserSpec, model: ModelSpec) {
    && (exists k :: V.Live(c, k, UserRef(uid)) && c.api[k].spec == UserOf(user))
    && (exists k :: V.Live(c, k, ModelRef(mid)) && c.api[k].spec == ModelOf(model))
    && Decide(user, model)
  }

  /** A live API object declares this adapter of the model, and the user may use it. */
  ghost predicate LiveAdapter(c: F.State, mid: string, user: UserSpec, id: string) {
    exists k, lora :: V.Live(c, k, ModelRef(id)) && c.api[k].spec == ModelOf(lora) && UsableAdapter(user, lora, mid)
  }

  /** The allow rests on live objects of `c`, and so does its rewrite. */
  ghost predicate LiveAllows(c: F.State, uid: string, mid: string, rewrite: Option<string>) {
    exists user, model :: LivePermits(c, uid, mid, user, model) &&
      (rewrite.Some? ==> LiveAdapter(c, mid, user, rewrite.value))
  }

  lemma BackedIsLive(start: F.State, trace: seq<State>, i: int, spec: Spec)
    requires BackedByApi(trace, i, spec) && L.PartOfImage(start, trace[i].cluster.store)
    ensures exists k :: V.Live(start, k, spec.Ref()) && start.api[k].spec == spec
  {
    var r := spec.Ref();
    assert r in trace[i].cluster.store;
    var k :| V.Live(start, k, r) && trace[i].cluster.store[r] == start.api[k].spec;
  }

  /** If the store only ever holds specs of live objects of `start`, an allow rests on them. */
  lemma AllowWithinImage(s: Server, req: HttpRequest, trace: seq<State>, events: seq<Event>, resp: Response,
                         uid: string, mid: string, start: F.State)
    requires s.engine.Sound() && IsRun(s, req, trace, events) && Answered(trace, resp) && Completes(s, req, uid, mid)
    requires forall k :: 0 <= k < |trace| ==> L.PartOfImage(start, trace[k].cluster.store)
    ensures resp.Allowed? ==> LiveAllows(start, uid, mid, resp.rewrite)
  {
    if resp.Allowed? {
      AllowRestsOnTheApi(s, req, trace, events, resp, uid, mid);
      var user, model, i, j :| RestsOn(trace, uid, mid, user, model, i, j) &&
        (resp.rewrite.Some? ==> RewriteRestsOn(trace, mid, user, j, resp.rewrite.value));
      BackedIsLive(start, trace, i, UserOf(user));
      BackedIsLive(start, trace, j, ModelOf(model));
      assert LivePermits(start, uid, mid, user, model);
      if resp.rewrite.Some? {
        var l, lora :| j < l && BackedByApi(trace, l, ModelOf(lora)) && lora.id == resp.rewrite.value
                       && UsableAdapter(user, lora, mid);
        BackedIsLive(start, trace, l, ModelOf(lora));
        assert LiveAdapter(start, mid, user, resp.rewrite.value);
      }
    }
  }

  // ----- Serving during the initial sync -----------------------------------------------------------

  ghost predicate QuietCluster(events: seq<Event>) {
    forall k :: 0 <= k < |events| && events[k].Cluster? ==> V.Quiet(events[k].e)
  }

  lemma {:induction false} FillingThroughout(s: Server, trace: seq<State>, events: seq<Event>,
                                             start: F.State, k: nat)
    requires Steps(s, trace, events) && QuietCluster(events) && k < |trace| && L.Fills(start, trace[0].cluster)
    ensures L.Fills(start, trace[k].cluster)
  {
    if k > 0 {
      FillingThroughout(s, trace, events, start, k - 1);
      assert Next(s, trace[k - 1], events[k - 1], trace[k]);
      if events[k - 1].Cluster? {
        L.QuietStepKeeps(start, trace[k - 1].cluster, events[k - 1].e);
      }
    }
  }

  /** The process has just been started, or started again. */
  ghost predicate FreshProcess(s: F.State) {
    s == F.START || exists before :: s == F.Step(before, F.Restart)
  }

  /** Serving before the initial sync is complete: a process was started in `past[0]`, only the reconcilers
      have acted since, and a request arrives. Whatever it is allowed or rewritten to rests on API objects
      that are live; also where several share an id. */
  lemma InitialSyncFailsClosed(s: Server, req: HttpRequest, past: seq<F.State>, pastEvents: seq<F.Event>,
                               trace: seq<State>, events: seq<Event>, resp: Response, uid: string, mid: string)
    requires s.engine.Sound() && IsRun(s, req, trace, events) && Answered(trace, resp) && Completes(s, req, uid, mid)
    requires F.IsRun(past, pastEvents) && past[|pastEvents|] == trace[0].cluster
    requires FreshProcess(past[0])
    requires (forall k :: 0 <= k < |pastEvents| ==> V.Quiet(pastEvents[k])) && QuietCluster(events)
    ensures resp.Allowed? ==> LiveAllows(past[0], uid, mid, resp.rewrite)
  {
    L.FillingIsPartial(past, pastEvents, |pastEvents|);
    forall k | 0 <= k < |trace| ensures L.PartOfImage(past[0], trace[k].cluster.store) {
      FillingThroughout(s, trace, events, past[0], k);
    }
    AllowWithinImage(s, req, trace, events, resp, uid, mid, past[0]);
  }

  /** The store the live API objects of `c` call for; there is one if those of one id agree. */
  ghost predicate IsTarget(full: Store, c: F.State) {
    && (forall k, id :: V.Live(c, k, UserRef(id)) ==> id in full.users && UserOf(full.users[id]) == c.api[k].spec)
    && (forall k, id :: V.Live(c, k, ModelRef(id)) ==> id in full.models && ModelOf(full.models[id]) == c.api[k].spec)
  }

  /** What rests on live objects, the store they call for permits. */
  lemma TargetPermits(c: F.State, full: Store, uid: string, mid: string, rewrite: Option<string>)
    requires IsTarget(full, c) && LiveAllows(c, uid, mid, rewrite)
    ensures Permits(full, uid, mid)
    ensures rewrite.Some? ==>
              && Permits(full, uid, rewrite.value)
              && UsableAdapter(full.users[uid], full.models[rewrite.value], mid)
  {
    var user, model :| LivePermits(c, uid, mid, user, model) &&
      (rewrite.Some? ==> LiveAdapter(c, mid, user, rewrite.value));
    TargetHoldsPair(c, full, uid, mid, user, model);
    if rewrite.Some? {
      var k, lora :| V.Live(c, k, ModelRef(rewrite.value)) && c.api[k].spec == ModelOf(lora)
                     && UsableAdapter(user, lora, mid);
      assert LivePermits(c, uid, rewrite.value, user, lora);
      TargetHoldsPair(c, full, uid, rewrite.value, user, lora);
    }
  }

  lemma TargetHoldsPair(c: F.State, full: Store, uid: string, mid: string, user: UserSpec, model: ModelSpec)
    requires IsTarget(full, c) && LivePermits(c, uid, mid, user, model)
    ensures R.HoldsPair(full, uid, mid, user, model)
  {
  }

  // ----- After convergence -------------------------------------------------------------------------

  /** With the cluster's part of the first `k` steps appended, a pass is still a pass. */
  lemma {:induction false} PassGoesOn(start: F.State, past: seq<F.State>, pastEvents: seq<F.Event>,
                                      s: Server, trace: seq<State>, events: seq<Event>, k: nat)
    returns (longer: seq<F.State>, longerEvents: seq<F.Event>)
    requires Steps(s, trace, events) && QuietCluster(events) && k < |trace|
    requires V.Pass(start, past, pastEvents, true) && past[|pastEvents|] == trace[0].cluster
    ensures V.Pass(start, longer, longerEvents, true) && longer[|longerEvents|] == trace[k].cluster
  {
    if k == 0 {
      return past, pastEvents;
    }
    longer, longerEvents := PassGoesOn(start, past, pastEvents, s, trace, events, k - 1);
    assert Next(s, trace[k - 1], events[k - 1], trace[k]);
    if events[k - 1].Cluster? {
      longer, longerEvents := V.PassExtends(start, longer, longerEvents, true, events[k - 1].e);
    }
  }

  /** The store is the image at every instant of the request. */
  lemma ImageAlways(start: F.State, past: seq<F.State>, pastEvents: seq<F.Event>,
                    s: Server, req: HttpRequest, trace: seq<State>, events: seq<Event>)
    requires F.Reachable(start) && V.NoClash(start, true)
    requires IsRun(s, req, trace, events) && QuietCluster(events)
    requires V.Pass(start, past, pastEvents, true) && past[|pastEvents|] == trace[0].cluster
    ensures forall k :: 0 <= k < |trace| ==> V.IsImage(trace[k].cluster.store, start)
  {
    forall k | 0 <= k < |trace| ensures V.IsImage(trace[k].cluster.store, start) {
      var longer, longerEvents := PassGoesOn(start, past, pastEvents, s, trace, events, k);
      V.PassConverges(start, longer, longerEvents, true);
    }
  }

  lemma ImageHoldsPair(start: F.State, store: map<Ref, Spec>, uid: string, mid: string,
                       user: UserSpec, model: ModelSpec)
    requires V.IsImage(store, start) && LivePermits(start, uid, mid, user, model)
    ensures R.HoldsPair(AsStore(store), uid, mid, user, model) && mid != ""
  {
    AsStoreReads(store);
    var k :| V.Live(start, k, UserRef(uid)) && start.api[k].spec == UserOf(user);
    var l :| V.Live(start, l, ModelRef(mid)) && start.api[l].spec == ModelOf(model);
    assert UserRef(uid) in store && ModelRef(mid) in store;
  }

  lemma ImageIsPart(start: F.State, store: map<Ref, Spec>)
    requires V.IsImage(store, start)
    ensures L.PartOfImage(start, store)
  {
    forall r | r in store ensures exists k :: V.Live(start, k, r) && store[r] == start.api[k].spec {
      var k :| V.Live(start, k, r);
    }
  }

  /** If the store stays the image of the live objects, what they permit is allowed. */
  lemma ImageIsServed(s: Server, req: HttpRequest, start: F.State, trace: seq<State>, events: seq<Event>,
                      resp: Response, uid: string, mid: string, user: UserSpec, model: ModelSpec)
    requires s.engine.Sound() && s.engine.Total()
    requires IsRun(s, req, trace, events) && Answered(trace, resp) && Completes(s, req, uid, mid)
    requires forall k :: 0 <= k < |trace| ==> V.IsImage(trace[k].cluster.store, start)
    requires LivePermits(start, uid, mid, user, model)
    ensures resp.Allowed?
  {
    RunProjects(s, req, trace, events);
    forall k | 0 <= k < |trace| ensures R.HoldsPair(Project(trace)[k].store, uid, mid, user, model) && mid != "" {
      ImageHoldsPair(start, trace[k].cluster.store, uid, mid, user, model);
    }
    assert mid != "" by {
      ImageHoldsPair(start, trace[0].cluster.store, uid, mid, user, model);
    }
    R.PairIsDecided(s, req, Project(trace), ProjectEvents(trace, events), resp, uid, mid, user, model);
  }

  /** After a pass, as long as nobody touches the API objects, a completion is allowed exactly when live
      objects permit it, reconciles still going on and failing; and a rewrite rests on a live one. */
  lemma AfterConvergence(s: Server, req: HttpRequest, start: F.State, past: seq<F.State>, pastEvents: seq<F.Event>,
                         trace: seq<State>, events: seq<Event>, resp: Response, uid: string, mid: string)
    requires s.engine.Sound() && IsRun(s, req, trace, events) && Answered(trace, resp) && Completes(s, req, uid, mid)
    requires F.Reachable(start) && V.NoClash(start, true)
    requires V.Pass(start, past, pastEvents, true) && past[|pastEvents|] == trace[0].cluster && QuietCluster(events)
    ensures resp.Allowed? ==> LiveAllows(start, uid, mid, resp.rewrite)
    ensures s.engine.Total() ==> (resp.Allowed? <==> exists user, model :: LivePermits(start, uid, mid, user, model))
  {
    ImageAlways(start, past, pastEvents, s, req, trace, events);
    forall k | 0 <= k < |trace| ensures L.PartOfImage(start, trace[k].cluster.store) {
      ImageIsPart(start, trace[k].cluster.store);
    }
    AllowWithinImage(s, req, trace, events, resp, uid, mid, start);
    forall user, model | LivePermits(start, uid, mid, user, model) && s.engine.Total() ensures resp.Allowed? {
      ImageIsServed(s, req, start, trace, events, resp, uid, mid, user, model);
    }
  }
}
