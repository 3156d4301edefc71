/** Consequences over whole runs: decisions of a single instant, revocation, and serving while the
    store is being filled. */
module RunProperties {
  import opened Specs
  import opened Policy
  import opened PolicyEngine
  import opened Requests
  import opened Check
  import opened Decisions
  import opened CheckRuns

  // ----- Decisions of a single instant ---------------------------------------------------------

  /** Between the two captures, the user `uid` is written only if `users`, and the model `mid` only if
      `models`. */
  ghost predicate OnlyTouches(trace: seq<State>, events: seq<Event>, uid: string, mid: string,
                              users: bool, models: bool)
    requires |trace| == |events| + 1
  {
    forall k :: 0 <= k < |events| && trace[k].pc.AskModel? && events[k].Wrote? ==>
      (WritesUser(events[k].w, uid) ==> users) && (WritesModel(events[k].w, mid) ==> models)
  }

  ghost predicate RunTouching(s: Server, req: HttpRequest, trace: seq<State>, events: seq<Event>, resp: Response,
                              uid: string, mid: string, users: bool, models: bool) {
    && IsRun(s, req, trace, events)
    && Answered(trace, resp)
    && OnlyTouches(trace, events, uid, mid, users, models)
  }

  /** There is an instant of the request at which an atomic check would have answered the same. */
  ghost predicate SingleInstant(s: Server, req: HttpRequest, trace: seq<State>, resp: Response) {
    exists t :: 0 <= t < |trace| && !trace[t].pc.Done? &&
      forall l :: CheckSpec(s, trace[t].store, req, l).Allowed? <==> resp.Allowed?
  }

  ghost predicate SameModel(a: Store, b: Store, mid: string) {
    (mid in a.models <==> mid in b.models) && (mid in a.models ==> a.models[mid] == b.models[mid])
  }

  /** An instant of the request, before `k`, at which the store admits exactly what was decided. */
  ghost predicate DecidedAt(s: Server, trace: seq<State>, t: int, k: int, uid: string, mid: string, allow: bool) {
    0 <= t < k <= |trace| && !trace[t].pc.Done? && (allow <==> Admits(s, trace[t].store, uid, mid))
  }

  ghost predicate Coherent(s: Server, trace: seq<State>, k: int, uid: string, mid: string, models: bool)
    requires 0 <= k < |trace|
  {
    match trace[k].pc
    case AskUserExists(ir, u) => u == uid && ir.modelId == mid && !ir.requestType.ListModels?
    case AskUser(ir, u) => u == uid && ir.modelId == mid && mid != ""
    case AskModel(ir, user) =>
      && ir.modelId == mid && mid != ""
      && (!models ==>
            exists i :: i < k && SawUser(trace, i, uid, user) && SameModel(trace[i].store, trace[k].store, mid))
      && (models ==> uid in trace[k].store.users && trace[k].store.users[uid] == user)
    case AskLoras(ir, user) => exists t :: DecidedAt(s, trace, t, k, uid, mid, true)
    case Done(resp) => exists t :: DecidedAt(s, trace, t, k, uid, mid, resp.Allowed?)
  }

  lemma {:induction false} CoherentHolds(s: Server, req: HttpRequest, trace: seq<State>, events: seq<Event>, k: nat,
                                         uid: string, mid: string, models: bool)
    requires IsRun(s, req, trace, events) && Completes(s, req, uid, mid) && k < |trace|
    requires OnlyTouches(trace, events, uid, mid, !models, models)
    ensures Coherent(s, trace, k, uid, mid, models)
  {
    if k > 0 {
      CoherentHolds(s, req, trace, events, k - 1, uid, mid, models);
      assert Next(s, trace[k - 1], events[k - 1], trace[k]);
      if events[k - 1].Read? {
        CoherentRead(s, trace, events[k - 1], k, uid, mid, models);
      } else {
        CoherentKeeps(s, trace, events[k - 1], k, uid, mid, models);
      }
    }
  }

  lemma CoherentKeeps(s: Server, trace: seq<State>, e: Event, k: nat, uid: string, mid: string, models: bool)
    requires 0 < k < |trace| && Coherent(s, trace, k - 1, uid, mid, models) && trace[k].pc == trace[k - 1].pc
    requires trace[k].store == trace[k - 1].store || (e.Wrote? && trace[k].store == Apply(e.w, trace[k - 1].store))
    requires e.Wrote? && trace[k - 1].pc.AskModel? ==> if models then !WritesUser(e.w, uid) else !WritesModel(e.w, mid)
    ensures Coherent(s, trace, k, uid, mid, models)
  {
    match trace[k].pc {
      case AskModel(ir, user) =>
        if !models {
          var i :| i < k - 1 && SawUser(trace, i, uid, user) && SameModel(trace[i].store, trace[k - 1].store, mid);
          assert SameModel(trace[i].store, trace[k].store, mid);
        }
      case AskLoras(_, _) =>
        var t :| DecidedAt(s, trace, t, k - 1, uid, mid, true);
        assert DecidedAt(s, trace, t, k, uid, mid, true);
      case Done(resp) =>
        var t :| DecidedAt(s, trace, t, k - 1, uid, mid, resp.Allowed?);
        assert DecidedAt(s, trace, t, k, uid, mid, resp.Allowed?);
      case _ =>
    }
  }

  lemma CoherentRead(s: Server, trace: seq<State>, e: Event, k: nat, uid: string, mid: string, models: bool)
    requires 0 < k < |trace| && Coherent(s, trace, k - 1, uid, mid, models)
    requires e.Read? && Next(s, trace[k - 1], e, trace[k])
    ensures Coherent(s, trace, k, uid, mid, models)
  {
    var a := trace[k - 1];
    match a.pc {
      case AskUserExists(ir, u) =>
        if trace[k].pc.Done? {
          assert DecidedAt(s, trace, k - 1, k, uid, mid, trace[k].pc.resp.Allowed?);
        }
      case AskUser(ir, u) =>
        if trace[k].pc.Done? {
          assert DecidedAt(s, trace, k - 1, k, uid, mid, trace[k].pc.resp.Allowed?);
        } else {
          assert SawUser(trace, k - 1, uid, a.store.users[uid]);
          assert SameModel(a.store, trace[k].store, mid);
        }
      case AskModel(ir, user) =>
        var allow := if trace[k].pc.Done? then trace[k].pc.resp.Allowed? else true;
        assert allow <==> mid in a.store.models && CheckAccess(s.engine, user, a.store.models[mid]) == Ok(true);
        if models {
          assert DecidedAt(s, trace, k - 1, k, uid, mid, allow);
        } else {
          var i :| i < k - 1 && SawUser(trace, i, uid, user) && SameModel(trace[i].store, a.store, mid);
          assert DecidedAt(s, trace, i, k, uid, mid, allow);
        }
      case AskLoras(ir, user) =>
        var t :| DecidedAt(s, trace, t, k - 1, uid, mid, true);
        assert trace[k].pc.resp.Allowed?;
        assert DecidedAt(s, trace, t, k, uid, mid, trace[k].pc.resp.Allowed?);
    }
  }

  lemma DecidedIsSingleInstant(s: Server, req: HttpRequest, trace: seq<State>, resp: Response, t: int,
                               uid: string, mid: string)
    requires Completes(s, req, uid, mid) && DecidedAt(s, trace, t, |trace|, uid, mid, resp.Allowed?)
    ensures SingleInstant(s, req, trace, resp)
  {
    forall l ensures CheckSpec(s, trace[t].store, req, l).Allowed? <==> resp.Allowed? {
      AllowedMeansAdmitted(s, trace[t].store, req, l, uid, mid);
    }
  }

  /** If between the captures of the user and of the model at most one of the two records is written,
      the outcome is the one an atomic check would have had at a single instant of the request. */
  lemma SingleInstantDecision(s: Server, req: HttpRequest, trace: seq<State>, events: seq<Event>, resp: Response,
                              uid: string, mid: string, models: bool)
    requires IsRun(s, req, trace, events) && Answered(trace, resp) && Completes(s, req, uid, mid)
    requires OnlyTouches(trace, events, uid, mid, !models, models)
    ensures SingleInstant(s, req, trace, resp)
  {
    CoherentHolds(s, req, trace, events, |events|, uid, mid, models);
    var t :| DecidedAt(s, trace, t, |events|, uid, mid, resp.Allowed?);
    DecidedIsSingleInstant(s, req, trace, resp, t, uid, mid);
  }

  // ----- Torn decisions ----------------------------------------------------------------------------

  /** The engine says yes to the records, if both are there. */
  ghost predicate SaysYes(s: Server, user: Option<UserSpec>, model: Option<ModelSpec>) {
    user.Some? && model.Some? && CheckAccess(s.engine, user.value, model.value) == Ok(true)
  }

  ghost predicate NeverAdmits(s: Server, trace: seq<State>, uid: string, mid: string) {
    forall t :: 0 <= t < |trace| ==> !Admits(s, trace[t].store, uid, mid)
  }

  /** A store that holds at most these two records. */
  function Holding(uid: string, mid: string, user: Option<UserSpec>, model: Option<ModelSpec>): Store {
    Store(if user.Some? then map[uid := user.value] else map[], if model.Some? then map[mid := model.value] else map[])
  }

  /** The user `uid` becomes `user`, or is deleted. */
  function WriteUser(uid: string, user: Option<UserSpec>): Write {
    if user.Some? then SyncUser(user.value) else DeleteUser(uid)
  }

  lemma Extend(s: Server, req: HttpRequest, trace: seq<State>, events: seq<Event>, e: Event, b: State,
               uid: string, mid: string) returns (trace': seq<State>, events': seq<Event>)
    requires IsRun(s, req, trace, events) && Next(s, trace[|events|], e, b)
    requires NeverAdmits(s, trace, uid, mid) && !Admits(s, b.store, uid, mid)
    ensures trace' == trace + [b] && events' == events + [e]
    ensures IsRun(s, req, trace', events') && NeverAdmits(s, trace', uid, mid)
  {
    trace', events' := trace + [b], events + [e];
    forall k | 0 <= k < |events'| ensures Next(s, trace'[k], events'[k], trace'[k + 1]) {
      if k < |events| {
        assert Next(s, trace[k], events[k], trace[k + 1]);
      }
    }
  }

  /** Up to the capture of the user. */
  lemma CaptureUser(s: Server, req: HttpRequest, uid: string, mid: string, user: UserSpec, model: Option<ModelSpec>)
    returns (trace: seq<State>, events: seq<Event>)
    requires Completes(s, req, uid, mid) && uid != "" && mid != "" && user.id == uid
    requires (model.Some? ==> model.value.id == mid) && !SaysYes(s, Some(user), model)
    ensures IsRun(s, req, trace, events) && NeverAdmits(s, trace, uid, mid)
    ensures trace[|events|] == State(Holding(uid, mid, Some(user), model), AskModel(ParseSpec(req).value, user))
  {
    var ir, st := ParseSpec(req).value, Holding(uid, mid, Some(user), model);
    trace, events := [State(st, AskUserExists(ir, uid))], [];
    trace, events := Extend(s, req, trace, events, Read([]), State(st, AskUser(ir, uid)), uid, mid);
    trace, events := Extend(s, req, trace, events, Read([]), State(st, AskModel(ir, user)), uid, mid);
  }

  /** A granting pair is captured, the rest of the request following from it. */
  lemma CaptureModel(s: Server, req: HttpRequest, uid: string, mid: string, user: UserSpec, model: ModelSpec,
                     trace0: seq<State>, events0: seq<Event>)
    returns (trace: seq<State>, events: seq<Event>, resp: Response)
    requires Completes(s, req, uid, mid) && mid != "" && model.id == mid && SaysYes(s, Some(user), Some(model))
    requires IsRun(s, req, trace0, events0) && NeverAdmits(s, trace0, uid, mid)
    requires trace0[|events0|].pc == AskModel(ParseSpec(req).value, user)
    requires mid in trace0[|events0|].store.models && trace0[|events0|].store.models[mid] == model
    ensures IsRun(s, req, trace, events) && NeverAdmits(s, trace, uid, mid)
    ensures Answered(trace, resp) && resp.Allowed? &&
              forall t :: |trace0| <= t < |trace| ==> trace[t].store == trace0[|events0|].store
  {
    var st, pc := trace0[|events0|].store, Advance(s, trace0[|events0|].pc, trace0[|events0|].store, []);
    trace, events := Extend(s, req, trace0, events0, Read([]), State(st, pc), uid, mid);
    if pc.AskLoras? {
      StoreStaysValid(s, req, trace0, events0, |events0|);
      var listing := SomeListing(st.models, MODEL_TYPE_LORA);
      trace, events := Extend(s, req, trace, events, Read(listing), State(st, Advance(s, pc, st, listing)), uid, mid);
    }
    resp := trace[|events|].pc.resp;
  }

  /** For every engine and every request: if it grants `user` with `model`, but neither the pair before
      nor the pairs after one or both of two writes, there is a run that is allowed although the check
      would be at no instant of it. The user is captured, both records are written, the model is. */
  lemma TornDecision(s: Server, req: HttpRequest, uid: string, mid: string, user: UserSpec, model: ModelSpec,
                     newUser: Option<UserSpec>, oldModel: Option<ModelSpec>)
    returns (trace: seq<State>, events: seq<Event>, resp: Response)
    requires Completes(s, req, uid, mid) && uid != "" && mid != "" && user.id == uid && model.id == mid
    requires (newUser.Some? ==> newUser.value.id == uid) && (oldModel.Some? ==> oldModel.value.id == mid)
    requires SaysYes(s, Some(user), Some(model)) && !SaysYes(s, Some(user), oldModel)
    requires !SaysYes(s, newUser, oldModel) && !SaysYes(s, newUser, Some(model))
    ensures IsRun(s, req, trace, events) && Answered(trace, resp) && resp.Allowed?
    ensures forall t, l :: 0 <= t < |trace| ==> !CheckSpec(s, trace[t].store, req, l).Allowed?
  {
    var captured := AskModel(ParseSpec(req).value, user);
    trace, events := CaptureUser(s, req, uid, mid, user, oldModel);
    var between, after := Holding(uid, mid, newUser, oldModel), Holding(uid, mid, newUser, Some(model));
    assert Apply(WriteUser(uid, newUser), trace[|events|].store) == between;
    trace, events := Extend(s, req, trace, events, Wrote(WriteUser(uid, newUser)), State(between, captured), uid, mid);
    assert Apply(SyncModel(model), between) == after;
    trace, events := Extend(s, req, trace, events, Wrote(SyncModel(model)), State(after, captured), uid, mid);
    trace, events, resp := CaptureModel(s, req, uid, mid, user, model, trace, events);
    forall t, l | 0 <= t < |trace| ensures !CheckSpec(s, trace[t].store, req, l).Allowed? {
      AllowedMeansAdmitted(s, trace[t].store, req, l, uid, mid);
    }
  }

  function OneAttribute(uid: string, value: string): UserSpec {
    UserSpec(uid, Present(map["role" := value]))
  }

  function OneRole(mid: string, value: string): ModelSpec {
    ModelSpec(mid, MODEL_TYPE_LORA, "", Present(map["role" := Present([value])]), Nil, Nil)
  }

  lemma DecideOneRole(uid: string, mid: string, user: string, model: string)
    ensures Decide(OneAttribute(uid, user), OneRole(mid, model)) <==> user == model
  {
    var attributes, allowed := map["role" := user], [model];
    assert AttributeMatches(Present(attributes), "role", Present(allowed)) <==> user == model by {
      assert allowed[0] == model;
    }
    assert OneRole(mid, model).userAttributes.value.Keys == {"role"};
  }

  /** With the policy as it is, two edits are enough: both records are there all along. */
  lemma TornByEdits(s: Server, req: HttpRequest, uid: string, mid: string)
    returns (trace: seq<State>, events: seq<Event>, resp: Response)
    requires s.engine.Sound() && s.engine.Total() && Completes(s, req, uid, mid) && uid != "" && mid != ""
    ensures IsRun(s, req, trace, events) && Answered(trace, resp) && resp.Allowed?
    ensures forall t, l :: 0 <= t < |trace| ==> !CheckSpec(s, trace[t].store, req, l).Allowed?
  {
    DecideOneRole(uid, mid, "a", "a");
    DecideOneRole(uid, mid, "a", "b");
    DecideOneRole(uid, mid, "c", "b");
    DecideOneRole(uid, mid, "c", "a");
    trace, events, resp := TornDecision(s, req, uid, mid, OneAttribute(uid, "a"), OneRole(mid, "a"),
                                        Some(OneAttribute(uid, "c")), Some(OneRole(mid, "b")));
  }

  // ----- Exactly when a decision is of a single instant ----------------------------------------------

  /** The engine says yes to some user and model of these ids. */
  ghost predicate CanGrant(s: Server, uid: string, mid: string) {
    && uid != "" && mid != ""
    && exists user: UserSpec, model: ModelSpec ::
         user.id == uid && model.id == mid && SaysYes(s, Some(user), Some(model))
  }

  ghost predicate Refusing(pc: Pc, uid: string, mid: string) {
    match pc
    case AskUserExists(ir, u) => u == uid && ir.modelId == mid && !ir.requestType.ListModels?
    case AskUser(ir, u) => u == uid && ir.modelId == mid && mid != ""
    case AskModel(ir, user) => user.id == uid && uid != "" && ir.modelId == mid && mid != ""
    case AskLoras(_, _) => false
    case Done(resp) => !resp.Allowed?
  }

  lemma {:induction false} NothingGranted(s: Server, req: HttpRequest, trace: seq<State>, events: seq<Event>, k: nat,
                                          uid: string, mid: string)
    requires IsRun(s, req, trace, events) && Completes(s, req, uid, mid) && !CanGrant(s, uid, mid) && k < |trace|
    ensures Refusing(trace[k].pc, uid, mid)
  {
    if k > 0 {
      NothingGranted(s, req, trace, events, k - 1, uid, mid);
      StoreStaysValid(s, req, trace, events, k - 1);
      assert Next(s, trace[k - 1], events[k - 1], trace[k]);
      var a := trace[k - 1];
      if a.pc.AskModel? && mid in a.store.models {
        assert !SaysYes(s, Some(a.pc.user), Some(a.store.models[mid]));
      }
    }
  }

  lemma AdmittedIsGranted(s: Server, st: Store, uid: string, mid: string)
    requires st.Valid() && Admits(s, st, uid, mid)
    ensures CanGrant(s, uid, mid)
  {
    assert SaysYes(s, Some(st.users[uid]), Some(st.models[mid]));
  }

  /** Consider all the runs of a request whose writes between the two captures touch only a given choice
      of the two records. All of them are decided as at a single instant exactly when the choice is not
      both, or the engine would never grant this user this model anyway. */
  lemma SingleInstantExactly(s: Server, req: HttpRequest, uid: string, mid: string, users: bool, models: bool)
    requires Completes(s, req, uid, mid)
    ensures (forall trace: seq<State>, events: seq<Event>, resp ::
               RunTouching(s, req, trace, events, resp, uid, mid, users, models) ==> SingleInstant(s, req, trace, resp))
            <==> !(users && models && CanGrant(s, uid, mid))
  {
    if users && models && CanGrant(s, uid, mid) {
      var user: UserSpec, model: ModelSpec :| user.id == uid && model.id == mid && SaysYes(s, Some(user), Some(model));
      var trace, events, resp := TornDecision(s, req, uid, mid, user, model, None, None);
      forall t | 0 <= t < |trace| ensures exists l :: CheckSpec(s, trace[t].store, req, l).Allowed? != resp.Allowed? {
        assert !CheckSpec(s, trace[t].store, req, []).Allowed?;
      }
      assert !SingleInstant(s, req, trace, resp);
      assert RunTouching(s, req, trace, events, resp, uid, mid, users, models);
    } else {
      forall trace: seq<State>, events: seq<Event>, resp |
        RunTouching(s, req, trace, events, resp, uid, mid, users, models)
        ensures SingleInstant(s, req, trace, resp)
      {
        if users && models {
          NothingGranted(s, req, trace, events, |events|, uid, mid);
          if Admits(s, trace[0].store, uid, mid) {
            AdmittedIsGranted(s, trace[0].store, uid, mid);
          }
          assert DecidedAt(s, trace, 0, |trace|, uid, mid, resp.Allowed?);
          DecidedIsSingleInstant(s, req, trace, resp, 0, uid, mid);
        } else {
          SingleInstantDecision(s, req, trace, events, resp, uid, mid, models);
        }
      }
    }
  }

  /** A sound engine that does not fail grants some user any model, so for it the choice alone decides. */
  lemma SoundEngineCanGrant(s: Server, uid: string, mid: string)
    requires s.engine.Sound() && s.engine.Total() && uid != "" && mid != ""
    ensures CanGrant(s, uid, mid)
  {
    DecideOneRole(uid, mid, "a", "a");
    assert SaysYes(s, Some(OneAttribute(uid, "a")), Some(OneRole(mid, "a")));
  }

  // ----- Records that stay ---------------------------------------------------------------------------

  /** The store holds these two records. */
  ghost predicate HoldsPair(st: Store, uid: string, mid: string, user: UserSpec, model: ModelSpec) {
    uid in st.users && st.users[uid] == user && mid in st.models && st.models[mid] == model
  }

  ghost predicate Decided(s: Server, pc: Pc, uid: string, mid: string, user: UserSpec, model: ModelSpec) {
    match pc
    case AskUserExists(ir, u) => u == uid && ir.modelId == mid && !ir.requestType.ListModels?
    case AskUser(ir, u) => u == uid && ir.modelId == mid
    case AskModel(ir, u) => u == user && ir.modelId == mid
    case AskLoras(_, _) => SaysYes(s, Some(user), Some(model))
    case Done(resp) => resp.Allowed? <==> SaysYes(s, Some(user), Some(model))
  }

  lemma {:induction false} DecidedHolds(s: Server, req: HttpRequest, trace: seq<State>, events: seq<Event>, k: nat,
                                        uid: string, mid: string, user: UserSpec, model: ModelSpec)
    requires IsRun(s, req, trace, events) && Completes(s, req, uid, mid) && mid != "" && k < |trace|
    requires forall i :: 0 <= i < |trace| ==> HoldsPair(trace[i].store, uid, mid, user, model)
    ensures Decided(s, trace[k].pc, uid, mid, user, model)
  {
    if k > 0 {
      DecidedHolds(s, req, trace, events, k - 1, uid, mid, user, model);
      assert Next(s, trace[k - 1], events[k - 1], trace[k]);
      assert HoldsPair(trace[k - 1].store, uid, mid, user, model);
    }
  }

  /** If throughout a request the store holds the same two records, a completion is allowed exactly when the
      engine says yes to them, whatever else is written. */
  lemma PairIsDecided(s: Server, req: HttpRequest, trace: seq<State>, events: seq<Event>, resp: Response,
                      uid: string, mid: string, user: UserSpec, model: ModelSpec)
    requires IsRun(s, req, trace, events) && Answered(trace, resp) && Completes(s, req, uid, mid) && mid != ""
    requires forall i :: 0 <= i < |trace| ==> HoldsPair(trace[i].store, uid, mid, user, model)
    ensures resp.Allowed? <==> SaysYes(s, Some(user), Some(model))
  {
    DecidedHolds(s, req, trace, events, |events|, uid, mid, user, model);
  }

  // ----- Revocation ------------------------------------------------------------------------------

  ghost predicate NeverSyncsUser(events: seq<Event>, uid: string) {
    forall k :: 0 <= k < |events| && events[k].Wrote? && events[k].w.SyncUser? ==> events[k].w.user.id != uid
  }

  ghost predicate NeverSyncsModel(events: seq<Event>, mid: string) {
    forall k :: 0 <= k < |events| && events[k].Wrote? && events[k].w.SyncModel? ==> events[k].w.model.id != mid
  }

  /** Without a sync of it, a user record is either gone or what it was at the start. */
  lemma {:induction false} UserOnlyLeaves(s: Server, req: HttpRequest, trace: seq<State>, events: seq<Event>, k: nat,
                                           uid: string)
    requires IsRun(s, req, trace, events) && NeverSyncsUser(events, uid) && k < |trace|
    ensures uid in trace[k].store.users ==>
              uid in trace[0].store.users && trace[k].store.users[uid] == trace[0].store.users[uid]
  {
    if k > 0 {
      UserOnlyLeaves(s, req, trace, events, k - 1, uid);
      assert Next(s, trace[k - 1], events[k - 1], trace[k]);
    }
  }

  lemma {:induction false} ModelOnlyLeaves(s: Server, req: HttpRequest, trace: seq<State>, events: seq<Event>, k: nat,
                                            mid: string)
    requires IsRun(s, req, trace, events) && NeverSyncsModel(events, mid) && k < |trace|
    ensures mid in trace[k].store.models ==>
              mid in trace[0].store.models && trace[k].store.models[mid] == trace[0].store.models[mid]
  {
    if k > 0 {
      ModelOnlyLeaves(s, req, trace, events, k - 1, mid);
      assert Next(s, trace[k - 1], events[k - 1], trace[k]);
    }
  }

  /** A user or model gone before the request began and not synced during it, or both records present
      with the policy refusing and neither synced during the request: no interleaving allows it. */
  lemma RevokedIsNeverAllowed(s: Server, req: HttpRequest, trace: seq<State>, events: seq<Event>, resp: Response,
                              uid: string, mid: string)
    requires s.engine.Sound() && IsRun(s, req, trace, events) && Answered(trace, resp) && Completes(s, req, uid, mid)
    requires || (uid !in trace[0].store.users && NeverSyncsUser(events, uid))
             || (mid !in trace[0].store.models && NeverSyncsModel(events, mid))
             || (!Permits(trace[0].store, uid, mid) && NeverSyncsUser(events, uid) && NeverSyncsModel(events, mid))
    ensures !resp.Allowed?
  {
    if resp.Allowed? {
      AllowIsJustified(s, req, trace, events, resp, uid, mid);
      var user, model, i, j :| Justified(trace, |events|, uid, mid, user, model, i, j);
      if NeverSyncsUser(events, uid) {
        UserOnlyLeaves(s, req, trace, events, i, uid);
      }
      if NeverSyncsModel(events, mid) {
        ModelOnlyLeaves(s, req, trace, events, j, mid);
      }
      assert false;
    }
  }

  // ----- Serving while the store is being filled ---------------------------------------------------

  /** If throughout a request the store only ever holds part of `full`, whatever the request allows or is
      rewritten to, `full` permits. */
  lemma FillingFailsClosed(s: Server, req: HttpRequest, trace: seq<State>, events: seq<Event>, resp: Response,
                           uid: string, mid: string, full: Store)
    requires s.engine.Sound() && IsRun(s, req, trace, events) && Answered(trace, resp) && Completes(s, req, uid, mid)
    requires forall k :: 0 <= k < |trace| ==> trace[k].store.SubStoreOf(full)
    ensures resp.Allowed? ==>
              && Permits(full, uid, mid)
              && (resp.rewrite.Some? ==>
                    && Permits(full, uid, resp.rewrite.value)
                    && UsableAdapter(full.users[uid], full.models[resp.rewrite.value], mid))
  {
    if resp.Allowed? {
      AllowIsJustified(s, req, trace, events, resp, uid, mid);
      var user, model, i, j :| Justified(trace, |events|, uid, mid, user, model, i, j) &&
        (resp.rewrite.Some? ==> RewriteJustified(trace, |events|, mid, user, model, j, resp.rewrite.value));
      assert trace[i].store.SubStoreOf(full) && trace[j].store.SubStoreOf(full);
      if resp.rewrite.Some? {
        var l, lora := JustifyingLora(trace, |events|, mid, user, model, j, resp.rewrite.value);
        assert trace[l].store.SubStoreOf(full);
      }
    }
  }
}
