/** One request against a store that changes underneath it: the check as a program counter with the
    snapshots it has captured, interleaved with arbitrary atomic writes. */
module CheckRuns {
  import opened Specs
  import opened Policy
  import opened PolicyEngine
  import opened Requests
  import opened Check
  import opened Decisions

  /** Where the request is: about to make one of its four reads, or answered. */
  datatype Pc =
    | AskUserExists(ir: InferenceRequest, uid: string)
    | AskUser(ir: InferenceRequest, uid: string)
    | AskModel(ir: InferenceRequest, user: UserSpec)
    | AskLoras(ir: InferenceRequest, user: UserSpec)
    | Done(resp: Response)

  datatype State = State(store: Store, pc: Pc)

  /** A write by somebody else, something that leaves the store alone, or the request's next read; for
      the list read, the order in which the map was ranged over. */
  datatype Event = Wrote(w: Write) | Idle | Read(listing: seq<ModelSpec>)

  /** Parsing and authentication, before the store is touched. */
  function Enter(s: Server, req: HttpRequest): Pc {
    match ParseSpec(req)
    case Err(e) => Done(Denied(e))
    case Ok(ir) =>
      if ir.requestType.Unknown? then Done(NotApplicable)
      else
        match s.authenticate(ir)
        case Err(e) => Done(Denied(e))
        case Ok(uid) => AskUserExists(ir, uid)
  }

  /** One read under the lock and the computing up to the next one. */
  function Advance(s: Server, pc: Pc, st: Store, listing: seq<ModelSpec>): Pc {
    match pc
    case AskUserExists(ir, uid) =>
      if uid !in st.users then Done(Denied("user not registered"))
      else if ir.requestType.ListModels? then Done(Allowed(None))
      else if ir.modelId == "" then Done(Denied("missing model field in request body"))
      else AskUser(ir, uid)
    case AskUser(ir, uid) =>
      if uid !in st.users then Done(Denied("user not found")) else AskModel(ir, st.users[uid])
    case AskModel(ir, user) =>
      if ir.modelId !in st.models then Done(Denied("model not found"))
      else (
        match CheckAccess(s.engine, user, st.models[ir.modelId])
        case Err(_) => Done(Denied("policy evaluation error"))
        case Ok(false) => Done(Denied("access denied by policy"))
        case Ok(true) => if WantsAdapter(s, ir, st.models[ir.modelId]) then AskLoras(ir, user) else Done(Allowed(None)))
    case AskLoras(ir, user) =>
      if s.selector.None? then Done(Allowed(None)) else Done(Allowed(ChooseAdapter(s, ir, user, listing)))
    case Done(_) => pc
  }

  ghost predicate Next(s: Server, a: State, e: Event, b: State) {
    match e
    case Wrote(w) => b == State(Apply(w, a.store), a.pc)
    case Idle => b == a
    case Read(listing) =>
      && !a.pc.Done?
      && (a.pc.AskLoras? ==> ListsModels(listing, a.store.models, MODEL_TYPE_LORA))
      && b == State(a.store, Advance(s, a.pc, a.store, listing))
  }

  /** A run of one request from its arrival: any interleaving of its reads with writes. */
  ghost predicate IsRun(s: Server, req: HttpRequest, trace: seq<State>, events: seq<Event>) {
    && |trace| == |events| + 1
    && trace[0].store.Valid()
    && trace[0].pc == Enter(s, req)
    && forall k {:trigger events[k]} :: 0 <= k < |events| ==> Next(s, trace[k], events[k], trace[k + 1])
  }

  ghost predicate Answered(trace: seq<State>, resp: Response) {
    |trace| > 0 && trace[|trace| - 1].pc == Done(resp)
  }

  // ----- At rest, the steps compute the specification -----------------------------------------

  /** Reading until answered, always from the same store. */
  function RunAtRest(s: Server, pc: Pc, st: Store, listing: seq<ModelSpec>): Response
    decreases match pc
              case AskUserExists(_, _) => 4
              case AskUser(_, _) => 3
              case AskModel(_, _) => 2
              case AskLoras(_, _) => 1
              case Done(_) => 0
  {
    if pc.Done? then pc.resp else RunAtRest(s, Advance(s, pc, st, listing), st, listing)
  }

  /** Without interference the stepped check answers exactly what the sequential one does. */
  lemma AtRestIsSpec(s: Server, st: Store, req: HttpRequest, listing: seq<ModelSpec>)
    ensures RunAtRest(s, Enter(s, req), st, listing) == CheckSpec(s, st, req, listing)
  {
    var pc0 := Enter(s, req);
    if pc0.AskUserExists? {
      var pc1 := Advance(s, pc0, st, listing);
      assert RunAtRest(s, pc0, st, listing) == RunAtRest(s, pc1, st, listing);
      if pc1.AskUser? {
        var pc2 := Advance(s, pc1, st, listing);
        assert RunAtRest(s, pc1, st, listing) == RunAtRest(s, pc2, st, listing);
        var pc3 := Advance(s, pc2, st, listing);
        assert RunAtRest(s, pc2, st, listing) == RunAtRest(s, pc3, st, listing);
        if pc3.AskLoras? {
          assert RunAtRest(s, pc3, st, listing) == RunAtRest(s, Advance(s, pc3, st, listing), st, listing);
        }
      }
    }
  }

  // ----- Where the request has been -----------------------------------------------------------

  /** The request is `ir` of user `uid`. */
  ghost predicate Asks(s: Server, req: HttpRequest, ir: InferenceRequest, uid: string) {
    && ParseSpec(req) == Ok(ir)
    && s.authenticate(ir) == Ok(uid)
    && !ir.requestType.Unknown?
  }

  /** Instant `i` is when the request read, from the user half, that `uid` exists. */
  ghost predicate SawUserExist(trace: seq<State>, i: int, uid: string) {
    0 <= i < |trace| && trace[i].pc.AskUserExists? && uid in trace[i].store.users
  }

  /** Instant `i` is when the request captured `user`. */
  ghost predicate SawUser(trace: seq<State>, i: int, uid: string, user: UserSpec) {
    0 <= i < |trace| && trace[i].pc.AskUser? && uid in trace[i].store.users && trace[i].store.users[uid] == user
  }

  /** Instant `i` is when the request captured `model`. */
  ghost predicate SawModel(trace: seq<State>, i: int, mid: string, model: ModelSpec) {
    0 <= i < |trace| && trace[i].pc.AskModel? && mid in trace[i].store.models && trace[i].store.models[mid] == model
  }

  /** Instant `i` is when the request captured the LoRA it is rewritten to. */
  ghost predicate SawLora(trace: seq<State>, i: int, id: string, lora: ModelSpec) {
    0 <= i < |trace| && trace[i].pc.AskLoras? && id in trace[i].store.models && trace[i].store.models[id] == lora
  }

  /** A user snapshot at `i` and then a model snapshot at `j`, both really in the store, with a true
      decision. */
  ghost predicate Justified(trace: seq<State>, k: int, uid: string, mid: string,
                            user: UserSpec, model: ModelSpec, i: int, j: int) {
    && (exists e :: e < i && SawUserExist(trace, e, uid))
    && i < j < k && SawUser(trace, i, uid, user) && SawModel(trace, j, mid, model)
    && Decide(user, model)
  }

  /** ... and after `j` a snapshot of an adapter of the requested base model, allowed for that same user. */
  ghost predicate RewriteJustified(trace: seq<State>, k: int, mid: string,
                                   user: UserSpec, model: ModelSpec, j: int, id: string) {
    && model.modelType == MODEL_TYPE_BASE
    && exists l, lora :: j < l < k && SawLora(trace, l, id, lora) && lora.id == id && UsableAdapter(user, lora, mid)
  }

  /** The request is for the list of models, or its allow is justified and so is its rewrite. */
  ghost predicate AllowExplained(s: Server, req: HttpRequest, trace: seq<State>, k: int,
                                 ir: InferenceRequest, uid: string, rewrite: Option<string>) {
    && Asks(s, req, ir, uid)
    && (!ir.requestType.ListModels? ==>
          exists user, model, i, j :: Justified(trace, k, uid, ir.modelId, user, model, i, j) &&
            (rewrite.Some? ==> RewriteJustified(trace, k, ir.modelId, user, model, j, rewrite.value)))
  }

  /** The request is past its model read, and may look for an adapter. */
  ghost predicate Admitted(s: Server, req: HttpRequest, trace: seq<State>, k: int,
                           ir: InferenceRequest, user: UserSpec) {
    exists uid, model, i, j ::
      Asks(s, req, ir, uid) && Justified(trace, k, uid, ir.modelId, user, model, i, j)
      && model.modelType == MODEL_TYPE_BASE
  }

  /** What the program counter at instant `k` says about the instants before. */
  ghost predicate Trail(s: Server, req: HttpRequest, trace: seq<State>, k: int)
    requires 0 <= k < |trace|
  {
    match trace[k].pc
    case AskUserExists(ir, uid) => Asks(s, req, ir, uid)
    case AskUser(ir, uid) =>
      && Asks(s, req, ir, uid) && !ir.requestType.ListModels? && ir.modelId != ""
      && exists e :: e < k && SawUserExist(trace, e, uid)
    case AskModel(ir, user) =>
      && !ir.requestType.ListModels? && ir.modelId != ""
      && exists uid, e, i ::
           Asks(s, req, ir, uid) && e < i < k && SawUserExist(trace, e, uid) && SawUser(trace, i, uid, user)
    case AskLoras(ir, user) =>
      !ir.requestType.ListModels? && s.selector.Some? && Admitted(s, req, trace, k, ir, user)
    case Done(Allowed(rewrite)) => exists ir, uid :: AllowExplained(s, req, trace, k, ir, uid, rewrite)
    case Done(_) => true
  }

  lemma {:induction false} StoreStaysValid(s: Server, req: HttpRequest, trace: seq<State>, events: seq<Event>, k: nat)
    requires IsRun(s, req, trace, events) && k < |trace|
    ensures trace[k].store.Valid()
  {
    if k > 0 {
      StoreStaysValid(s, req, trace, events, k - 1);
      assert Next(s, trace[k - 1], events[k - 1], trace[k]);
      if events[k - 1].Wrote? {
        ApplyKeepsValid(events[k - 1].w, trace[k - 1].store);
      }
    }
  }

  lemma {:induction false} TrailHolds(s: Server, req: HttpRequest, trace: seq<State>, events: seq<Event>, k: nat)
    requires s.engine.Sound() && IsRun(s, req, trace, events) && k < |trace|
    ensures Trail(s, req, trace, k)
  {
    if k > 0 {
      var a, b := trace[k - 1], trace[k];
      TrailHolds(s, req, trace, events, k - 1);
      assert Next(s, a, events[k - 1], b);
      if events[k - 1].Read? {
        StoreStaysValid(s, req, trace, events, k - 1);
        TrailStep(s, req, trace, events, k);
      } else {
        TrailKeeps(s, req, trace, k);
      }
    }
  }

  lemma TrailKeeps(s: Server, req: HttpRequest, trace: seq<State>, k: nat)
    requires 0 < k < |trace| && trace[k].pc == trace[k - 1].pc && Trail(s, req, trace, k - 1)
    ensures Trail(s, req, trace, k)
  {
    match trace[k].pc {
      case AskLoras(ir, user) =>
        var uid, model, i, j :|
          Asks(s, req, ir, uid) && Justified(trace, k - 1, uid, ir.modelId, user, model, i, j)
          && model.modelType == MODEL_TYPE_BASE;
        assert Justified(trace, k, uid, ir.modelId, user, model, i, j);
      case Done(Allowed(rewrite)) =>
        var ir, uid :| AllowExplained(s, req, trace, k - 1, ir, uid, rewrite);
        if !ir.requestType.ListModels? {
          var user, model, i, j :| Justified(trace, k - 1, uid, ir.modelId, user, model, i, j) &&
            (rewrite.Some? ==> RewriteJustified(trace, k - 1, ir.modelId, user, model, j, rewrite.value));
          assert Justified(trace, k, uid, ir.modelId, user, model, i, j);
        }
        assert AllowExplained(s, req, trace, k, ir, uid, rewrite);
      case _ =>
    }
  }

  lemma TrailStep(s: Server, req: HttpRequest, trace: seq<State>, events: seq<Event>, k: nat)
    requires s.engine.Sound() && 0 < k < |trace| && k <= |events|
    requires events[k - 1].Read? && Next(s, trace[k - 1], events[k - 1], trace[k]) && trace[k - 1].store.Valid()
    requires Trail(s, req, trace, k - 1)
    ensures Trail(s, req, trace, k)
  {
    var a := trace[k - 1];
    match a.pc {
      case AskUserExists(ir, uid) =>
        if uid in a.store.users {
          assert SawUserExist(trace, k - 1, uid);
          assert ir.requestType.ListModels? ==> AllowExplained(s, req, trace, k, ir, uid, None);
        }
      case AskUser(ir, uid) =>
        if uid in a.store.users {
          var e :| e < k - 1 && SawUserExist(trace, e, uid);
          assert SawUser(trace, k - 1, uid, a.store.users[uid]);
        }
      case AskModel(ir, user) =>
        TrailModel(s, req, trace, events, k, ir, user);
      case AskLoras(ir, user) =>
        TrailLoras(s, req, trace, k, ir, user, events[k - 1].listing);
    }
  }

  lemma TrailModel(s: Server, req: HttpRequest, trace: seq<State>, events: seq<Event>, k: nat,
                   ir: InferenceRequest, user: UserSpec)
    requires s.engine.Sound() && 0 < k < |trace| && k <= |events| && trace[k - 1].pc == AskModel(ir, user)
    requires events[k - 1].Read? && Next(s, trace[k - 1], events[k - 1], trace[k])
    requires Trail(s, req, trace, k - 1)
    ensures Trail(s, req, trace, k)
  {
    var st := trace[k - 1].store;
    if ir.modelId in st.models && CheckAccess(s.engine, user, st.models[ir.modelId]) == Ok(true) {
      var model := st.models[ir.modelId];
      var uid, e, i :|
        Asks(s, req, ir, uid) && e < i < k - 1 && SawUserExist(trace, e, uid) && SawUser(trace, i, uid, user);
      assert SawModel(trace, k - 1, ir.modelId, model);
      assert Justified(trace, k, uid, ir.modelId, user, model, i, k - 1);
      assert AllowExplained(s, req, trace, k, ir, uid, None);
    }
  }

  lemma TrailLoras(s: Server, req: HttpRequest, trace: seq<State>, k: nat, ir: InferenceRequest, user: UserSpec,
                   listing: seq<ModelSpec>)
    requires s.selector.Some? && !ir.requestType.ListModels? && 0 < k < |trace| && trace[k - 1].pc == AskLoras(ir, user)
    requires ListsModels(listing, trace[k - 1].store.models, MODEL_TYPE_LORA)
    requires Admitted(s, req, trace, k - 1, ir, user)
    ensures exists uid :: AllowExplained(s, req, trace, k, ir, uid, ChooseAdapter(s, ir, user, listing))
  {
    var uid, model, i, j :|
      Asks(s, req, ir, uid) && Justified(trace, k - 1, uid, ir.modelId, user, model, i, j)
      && model.modelType == MODEL_TYPE_BASE;
    assert Justified(trace, k, uid, ir.modelId, user, model, i, j);
    var rewrite := ChooseAdapter(s, ir, user, listing);
    if rewrite.Some? {
      ChosenAdapterIsUsable(s, ir, user, listing);
      var m :| m in listing && m.id == rewrite.value && UsableAdapter(user, m, ir.modelId);
      assert SawLora(trace, k - 1, rewrite.value, m);
      assert RewriteJustified(trace, k, ir.modelId, user, model, j, rewrite.value);
    }
    assert AllowExplained(s, req, trace, k, ir, uid, rewrite);
  }

  lemma JustifyingLora(trace: seq<State>, k: int, mid: string, user: UserSpec, model: ModelSpec, j: int, id: string)
    returns (l: int, lora: ModelSpec)
    requires RewriteJustified(trace, k, mid, user, model, j, id)
    ensures j < l < k && SawLora(trace, l, id, lora) && lora.id == id && UsableAdapter(user, lora, mid)
  {
    l, lora :| j < l < k && SawLora(trace, l, id, lora) && lora.id == id && UsableAdapter(user, lora, mid);
  }

  /** In every interleaving, an allowed completion is justified by a user snapshot and then a model
      snapshot, each really in the store at an instant inside the request, with a true decision on the
      pair; a rewrite is further justified by a later snapshot of the LoRA it names, on the requested
      base model and allowed for that same user snapshot. */
  lemma AllowIsJustified(s: Server, req: HttpRequest, trace: seq<State>, events: seq<Event>, resp: Response,
                         uid: string, mid: string)
    requires s.engine.Sound() && IsRun(s, req, trace, events) && Answered(trace, resp)
    requires Completes(s, req, uid, mid) && resp.Allowed?
    ensures exists user, model, i, j :: Justified(trace, |events|, uid, mid, user, model, i, j) &&
              (resp.rewrite.Some? ==> RewriteJustified(trace, |events|, mid, user, model, j, resp.rewrite.value))
  {
    TrailHolds(s, req, trace, events, |events|);
  }
}
