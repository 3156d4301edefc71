/** What requests are answered, in the terms of the request, the records and the embeddings: when a
    completion is rewritten, and the answer of every run. */
module Answers {
  import opened Specs
  import opened Policy
  import opened PolicyEngine
  import opened Requests
  import opened Scorer
  import opened AdapterSelection
  import opened Check
  import opened Decisions
  import opened CheckRuns

  // ----- When a completion is rewritten ------------------------------------------------------------

  /** Adapter selection is asked for: by configuration, or by the request's header. */
  predicate AsksForAdapter(s: Server, req: HttpRequest) {
    s.alwaysActive || ("x-adapter-selection" in req.headers && req.headers["x-adapter-selection"] == "true")
  }

  /** `lora` is an adapter of the model `mid` that the user may use, and one of its descriptions has the
      cosine `x` to the prompt. */
  ghost predicate Fits(e: Embedder, prompt: string, user: UserSpec, mid: string, lora: ModelSpec, x: real)
    requires e.Valid()
  {
    && lora.modelType == "LoRA" && lora.baseModelId == mid
    && Decide(user, lora)
    && lora.descriptions.Present?
    && exists d :: d in lora.descriptions.value && IsCosine(e, prompt, d, x)
  }

  /** ... and that is enough for it to be selected. */
  ghost predicate Selectable(e: Embedder, threshold: real, prompt: string, user: UserSpec, mid: string,
                             lora: ModelSpec, x: real)
    requires e.Valid()
  {
    Fits(e, prompt, user, mid, lora, x) && x > -1.0 && x >= threshold
  }

  /** The rewrite of an allowed completion, `models` being held when adapters are looked for: there is one
      exactly when a selector is configured, the model is a base model, selection is asked for, there is a
      prompt, and some adapter is selectable; and it names one that comes closest to the prompt. */
  ghost predicate RightRewrite(s: Server, e: Embedder, threshold: real, req: HttpRequest, prompt: string,
                               user: UserSpec, mid: string, model: ModelSpec, models: map<string, ModelSpec>,
                               rewrite: Option<string>)
    requires e.Valid()
  {
    && (rewrite.Some? <==>
          && s.selector.Some? && model.modelType == "BaseModel" && AsksForAdapter(s, req) && prompt != ""
          && exists id, x :: id in models && Selectable(e, threshold, prompt, user, mid, models[id], x))
    && (rewrite.Some? ==> Closest(e, threshold, prompt, user, mid, models, rewrite.value))
  }

  ghost predicate Closest(e: Embedder, threshold: real, prompt: string, user: UserSpec, mid: string,
                          models: map<string, ModelSpec>, id: string)
    requires e.Valid()
  {
    && id in models
    && exists x ::
         && Selectable(e, threshold, prompt, user, mid, models[id], x)
         && forall other, y :: other in models && Fits(e, prompt, user, mid, models[other], y) ==> y <= x
  }

  /** The selector is the semantic one with the fastembed scorer behind it, if there is one. */
  ghost predicate UsesFastembed(s: Server, e: Embedder, threshold: real)
    requires e.Valid()
  {
    s.selector.Some? ==> s.selector.value == SemanticSelector(threshold, FastembedSidecar(e))
  }

  ghost predicate WellFiled(models: map<string, ModelSpec>) {
    forall id :: id in models ==> models[id].id == id && id != ""
  }

  /** The adapters the policy allows are those of the listing on the requested model. */
  function Usable(user: UserSpec, mid: string, listing: seq<ModelSpec>): seq<ModelSpec> {
    Filter(Filter(listing, (m: ModelSpec) => m.baseModelId == mid), (m: ModelSpec) => Decide(user, m))
  }

  lemma UsableMembers(user: UserSpec, mid: string, listing: seq<ModelSpec>, models: map<string, ModelSpec>)
    requires WellFiled(models) && ListsModels(listing, models, MODEL_TYPE_LORA)
    ensures DistinctIds(Usable(user, mid, listing))
    ensures forall m :: m in Usable(user, mid, listing) <==>
              m.id in models && models[m.id] == m && m.modelType == "LoRA" && m.baseModelId == mid && Decide(user, m)
  {
    var onBase := (m: ModelSpec) => m.baseModelId == mid;
    FilterMembers(listing, onBase);
    FilterDistinct(listing, onBase);
    FilterMembers(Filter(listing, onBase), (m: ModelSpec) => Decide(user, m));
    FilterDistinct(Filter(listing, onBase), (m: ModelSpec) => Decide(user, m));
  }

  lemma UsableAreOffered(s: Server, ir: InferenceRequest, user: UserSpec, listing: seq<ModelSpec>)
    requires s.selector.Some? && s.engine.Total() && DistinctIds(listing)
    ensures var usable := Usable(user, ir.modelId, listing);
            var picked := PickSpec(s.selector.value, PromptSpec(ir), ir.modelId, usable);
            ChooseAdapter(s, ir, user, listing) ==
              if usable == [] || picked.None? || picked.value.id == "" then None else Some(picked.value.id)
  {
    var onBase := (m: ModelSpec) => m.baseModelId == ir.modelId;
    FilterDistinct(listing, onBase);
    BatchOnDistinctIds(s.engine, user, Filter(listing, onBase));
  }

  lemma FitsIsDescribed(e: Embedder, prompt: string, user: UserSpec, mid: string, m: ModelSpec, x: real)
    requires e.Valid()
    ensures Fits(e, prompt, user, mid, m, x) <==>
            Eligible(m, mid) && Decide(user, m) && DescribedAt(e, prompt, m, x)
  {
    if m.descriptions.Present? {
      forall d | d in m.descriptions.value ensures IsCosine(e, prompt, d, x) <==> e.Similarity(prompt, d) == x {
        SimilarityIsCosine(e, prompt, d, x);
      }
    }
  }

  /** The adapter chosen is the right one. */
  lemma ChosenIsRight(s: Server, e: Embedder, threshold: real, ir: InferenceRequest, user: UserSpec,
                      listing: seq<ModelSpec>, models: map<string, ModelSpec>)
    requires e.Valid() && s.selector.Some? && UsesFastembed(s, e, threshold) && s.engine.Total() && PromptSpec(ir) != ""
    requires WellFiled(models) && ListsModels(listing, models, MODEL_TYPE_LORA)
    ensures var r, prompt, mid := ChooseAdapter(s, ir, user, listing), PromptSpec(ir), ir.modelId;
            && (r.Some? <==> exists id, x :: id in models && Selectable(e, threshold, prompt, user, mid, models[id], x))
            && (r.Some? ==> Closest(e, threshold, prompt, user, mid, models, r.value))
  {
    var prompt, mid, usable := PromptSpec(ir), ir.modelId, Usable(user, ir.modelId, listing);
    UsableMembers(user, mid, listing, models);
    UsableAreOffered(s, ir, user, listing);
    SelectionEndToEnd(e, threshold, prompt, mid, usable);
    var picked := PickSpec(s.selector.value, prompt, mid, usable);
    forall id, x | id in models
      ensures Fits(e, prompt, user, mid, models[id], x) <==>
              models[id] in usable && Eligible(models[id], mid) && DescribedAt(e, prompt, models[id], x)
    {
      FitsIsDescribed(e, prompt, user, mid, models[id], x);
    }
    if picked.Some? {
      PickIsConfined(s.selector.value, prompt, mid, usable);
      ClosestIsPicked(e, threshold, prompt, user, mid, usable, models, picked.value);
    }
    if id, x :| id in models && Selectable(e, threshold, prompt, user, mid, models[id], x) {
      assert models[id] in usable;
      assert picked.Some?;
    }
  }

  lemma ClosestIsPicked(e: Embedder, threshold: real, prompt: string, user: UserSpec, mid: string,
                        usable: seq<ModelSpec>, models: map<string, ModelSpec>, picked: ModelSpec)
    requires e.Valid() && picked in usable && Eligible(picked, mid)
    requires forall m :: m in usable ==> m.id in models && models[m.id] == m
    requires forall id, x :: id in models ==>
               (Fits(e, prompt, user, mid, models[id], x) <==>
                models[id] in usable && Eligible(models[id], mid) && DescribedAt(e, prompt, models[id], x))
    requires exists best :: DescribedAt(e, prompt, picked, best) && best > -1.0 && best >= threshold
               && forall m, x :: m in usable && Eligible(m, mid) && DescribedAt(e, prompt, m, x) ==> x <= best
    ensures Closest(e, threshold, prompt, user, mid, models, picked.id)
  {
    var best :| DescribedAt(e, prompt, picked, best) && best > -1.0 && best >= threshold
                && forall m, x :: m in usable && Eligible(m, mid) && DescribedAt(e, prompt, m, x) ==> x <= best;
    assert Selectable(e, threshold, prompt, user, mid, models[picked.id], best);
  }

  /** What an allowed completion is rewritten to: an adapter from a listing of the store, if asked for. */
  ghost predicate ChosenFrom(s: Server, ir: InferenceRequest, user: UserSpec, model: ModelSpec,
                             models: map<string, ModelSpec>, rewrite: Option<string>) {
    if WantsAdapter(s, ir, model) then
      exists listing :: ListsModels(listing, models, MODEL_TYPE_LORA) && rewrite == ChooseAdapter(s, ir, user, listing)
    else rewrite.None?
  }

  lemma ChosenFromIsRight(s: Server, e: Embedder, threshold: real, req: HttpRequest, user: UserSpec, model: ModelSpec,
                          models: map<string, ModelSpec>, rewrite: Option<string>)
    requires e.Valid() && UsesFastembed(s, e, threshold) && s.engine.Total() && WellFiled(models)
    requires ParseSpec(req).Ok? && ChosenFrom(s, ParseSpec(req).value, user, model, models, rewrite)
    ensures var ir := ParseSpec(req).value;
            RightRewrite(s, e, threshold, req, PromptSpec(ir), user, ir.modelId, model, models, rewrite)
  {
    var ir := ParseSpec(req).value;
    ParseReads(req);
    if WantsAdapter(s, ir, model) {
      var listing :| ListsModels(listing, models, MODEL_TYPE_LORA) && rewrite == ChooseAdapter(s, ir, user, listing);
      ChosenIsRight(s, e, threshold, ir, user, listing, models);
    }
  }

  /** On one store, with an engine that does not fail and the fastembed scorer: an allowed completion is
      rewritten exactly when it is to be, to an adapter that comes closest to the prompt. */
  lemma RewriteExactly(s: Server, e: Embedder, threshold: real, st: Store, req: HttpRequest, listing: seq<ModelSpec>,
                       uid: string, mid: string)
    requires e.Valid() && UsesFastembed(s, e, threshold) && s.engine.Total()
    requires st.Valid() && Completes(s, req, uid, mid) && ListsModels(listing, st.models, MODEL_TYPE_LORA)
    requires CheckSpec(s, st, req, listing).Allowed?
    ensures uid in st.users && mid in st.models
    ensures RightRewrite(s, e, threshold, req, PromptSpec(ParseSpec(req).value), st.users[uid], mid, st.models[mid],
                         st.models, CheckSpec(s, st, req, listing).rewrite)
  {
    AllowedMeansAdmitted(s, st, req, listing, uid, mid);
    var rewrite := CheckSpec(s, st, req, listing).rewrite;
    assert ChosenFrom(s, ParseSpec(req).value, st.users[uid], st.models[mid], st.models, rewrite);
    ChosenFromIsRight(s, e, threshold, req, st.users[uid], st.models[mid], st.models, rewrite);
  }

  // ----- The answer of every run ---------------------------------------------------------------------

  /** At instant `t` the request is being processed. */
  ghost predicate Asking(trace: seq<State>, t: int) {
    0 <= t < |trace| && (t == 0 || !trace[t].pc.Done?)
  }

  /** An allowed completion is rewritten to what was chosen for the user of `b` and the model of `c` from the
      models of `d`. */
  ghost predicate ChosenOver(s: Server, req: HttpRequest, b: Store, c: Store, d: Store, resp: Response) {
    resp.Allowed? && (ForCompletion(req) || ForChat(req)) && ParseSpec(req).Ok?
    && s.authenticate(ParseSpec(req).value).Ok? ==>
      var ir := ParseSpec(req).value;
      var uid := s.authenticate(ir).value;
      && uid in b.users && ir.modelId in c.models
      && ChosenFrom(s, ir, b.users[uid], c.models[ir.modelId], d.models, resp.rewrite)
  }

  /** The answer is right for the stores there were at four instants of the request, in this order. */
  ghost predicate RightAt(s: Server, req: HttpRequest, trace: seq<State>, e: int, i: int, j: int, l: int,
                          resp: Response) {
    && e <= i <= j <= l && Asking(trace, e) && Asking(trace, i) && Asking(trace, j) && Asking(trace, l)
    && RightAnswer(s, req, trace[e].store, trace[i].store, trace[j].store, resp)
    && ChosenOver(s, req, trace[i].store, trace[j].store, trace[l].store, resp)
  }

  /** The request is a completion, and the user was found at `e`. */
  ghost predicate Registered(s: Server, req: HttpRequest, trace: seq<State>, ir: InferenceRequest, uid: string,
                             e: int) {
    && Asks(s, req, ir, uid) && !ir.requestType.ListModels? && ir.modelId != ""
    && Asking(trace, e) && uid in trace[e].store.users
  }

  ghost predicate Fetched(trace: seq<State>, uid: string, i: int, user: UserSpec) {
    Asking(trace, i) && uid in trace[i].store.users && trace[i].store.users[uid] == user
  }

  /** What the program counter at instant `k` says of the reads so far. */
  ghost predicate Stage(s: Server, req: HttpRequest, trace: seq<State>, k: int)
    requires 0 <= k < |trace|
  {
    match trace[k].pc
    case AskUserExists(ir, uid) => Asks(s, req, ir, uid)
    case AskUser(ir, uid) => exists e :: e <= k && Registered(s, req, trace, ir, uid, e)
    case AskModel(ir, user) =>
      exists uid, e, i :: e <= i <= k && Registered(s, req, trace, ir, uid, e) && Fetched(trace, uid, i, user)
    case AskLoras(ir, user) =>
      exists uid, e, i, j ::
        && e <= i <= j <= k && Registered(s, req, trace, ir, uid, e) && Fetched(trace, uid, i, user)
        && Accepted(s, trace, ir, user, j)
    case Done(resp) => exists e, i, j, l :: RightAt(s, req, trace, e, i, j, l, resp)
  }

  /** At `j` the model was found, access was granted, and an adapter is wanted. */
  ghost predicate Accepted(s: Server, trace: seq<State>, ir: InferenceRequest, user: UserSpec, j: int) {
    && Asking(trace, j) && ir.modelId in trace[j].store.models
    && CheckAccess(s.engine, user, trace[j].store.models[ir.modelId]) == Ok(true)
    && WantsAdapter(s, ir, trace[j].store.models[ir.modelId])
  }

  lemma EnterIsRight(s: Server, req: HttpRequest, st: Store, resp: Response)
    requires Enter(s, req) == Done(resp)
    ensures RightAnswer(s, req, st, st, st, resp) && !resp.Allowed?
  {
    ParseFailsExactly(req);
    if ParseSpec(req).Ok? {
      ParseReads(req);
    }
  }

  /** A decision on a completion that has been read and authenticated. */
  lemma RightForCompletion(s: Server, req: HttpRequest, ir: InferenceRequest, uid: string,
                           a: Store, b: Store, c: Store, resp: Response)
    requires Asks(s, req, ir, uid) && !ir.requestType.ListModels?
    requires !resp.NotApplicable? && RightCompletionAnswer(s, uid, ir.modelId, a, b, c, resp)
    ensures RightAnswer(s, req, a, b, c, resp)
  {
    ParseFailsExactly(req);
    ParseReads(req);
  }

  lemma UserExistsIsRight(s: Server, req: HttpRequest, trace: seq<State>, listing: seq<ModelSpec>, k: nat,
                          ir: InferenceRequest, uid: string)
    requires k + 1 < |trace| && trace[k].pc == AskUserExists(ir, uid) && Asks(s, req, ir, uid)
    requires trace[k + 1].pc == Advance(s, trace[k].pc, trace[k].store, listing)
    ensures Stage(s, req, trace, k + 1)
  {
    ReasonsDiffer();
    var st := trace[k].store;
    if trace[k + 1].pc.Done? {
      var resp := trace[k + 1].pc.resp;
      if ir.requestType.ListModels? {
        ParseFailsExactly(req);
        ParseReads(req);
      } else {
        RightForCompletion(s, req, ir, uid, st, st, st, resp);
      }
      assert RightAt(s, req, trace, k, k, k, k, resp);
    } else {
      assert Registered(s, req, trace, ir, uid, k);
    }
  }

  lemma UserIsRight(s: Server, req: HttpRequest, trace: seq<State>, listing: seq<ModelSpec>, k: nat,
                    ir: InferenceRequest, uid: string)
    requires k + 1 < |trace| && trace[k].pc == AskUser(ir, uid) && Stage(s, req, trace, k)
    requires trace[k + 1].pc == Advance(s, trace[k].pc, trace[k].store, listing)
    ensures Stage(s, req, trace, k + 1)
  {
    ReasonsDiffer();
    var e :| e <= k && Registered(s, req, trace, ir, uid, e);
    var st := trace[k].store;
    if trace[k + 1].pc.Done? {
      var resp := trace[k + 1].pc.resp;
      RightForCompletion(s, req, ir, uid, trace[e].store, st, st, resp);
      assert RightAt(s, req, trace, e, k, k, k, resp);
    } else {
      assert Fetched(trace, uid, k, st.users[uid]);
    }
  }

  lemma ModelIsRight(s: Server, req: HttpRequest, trace: seq<State>, listing: seq<ModelSpec>, k: nat,
                     ir: InferenceRequest, user: UserSpec)
    requires k + 1 < |trace| && trace[k].pc == AskModel(ir, user) && Stage(s, req, trace, k)
    requires trace[k + 1].pc == Advance(s, trace[k].pc, trace[k].store, listing)
    ensures Stage(s, req, trace, k + 1)
  {
    ReasonsDiffer();
    var uid, e, i :| e <= i <= k && Registered(s, req, trace, ir, uid, e) && Fetched(trace, uid, i, user);
    var st := trace[k].store;
    if trace[k + 1].pc.Done? {
      var resp := trace[k + 1].pc.resp;
      RightForCompletion(s, req, ir, uid, trace[e].store, trace[i].store, st, resp);
      assert RightAt(s, req, trace, e, i, k, k, resp);
    } else {
      assert Accepted(s, trace, ir, user, k);
    }
  }

  lemma LorasAreRight(s: Server, req: HttpRequest, trace: seq<State>, listing: seq<ModelSpec>, k: nat,
                      ir: InferenceRequest, user: UserSpec)
    requires k + 1 < |trace| && trace[k].pc == AskLoras(ir, user) && Stage(s, req, trace, k)
    requires ListsModels(listing, trace[k].store.models, MODEL_TYPE_LORA)
    requires trace[k + 1].pc == Advance(s, trace[k].pc, trace[k].store, listing)
    ensures Stage(s, req, trace, k + 1)
  {
    var uid, e, i, j :| e <= i <= j <= k && Registered(s, req, trace, ir, uid, e) && Fetched(trace, uid, i, user)
                        && Accepted(s, trace, ir, user, j);
    var resp := trace[k + 1].pc.resp;
    RightForCompletion(s, req, ir, uid, trace[e].store, trace[i].store, trace[j].store, resp);
    assert RightAt(s, req, trace, e, i, j, k, resp);
  }

  lemma ReadIsRight(s: Server, req: HttpRequest, trace: seq<State>, listing: seq<ModelSpec>, k: nat)
    requires k + 1 < |trace| && Next(s, trace[k], Read(listing), trace[k + 1])
    ensures Stage(s, req, trace, k) ==> Stage(s, req, trace, k + 1)
  {
    if Stage(s, req, trace, k) {
      match trace[k].pc {
        case AskUserExists(ir, uid) => UserExistsIsRight(s, req, trace, listing, k, ir, uid);
        case AskUser(ir, uid) => UserIsRight(s, req, trace, listing, k, ir, uid);
        case AskModel(ir, user) => ModelIsRight(s, req, trace, listing, k, ir, user);
        case AskLoras(ir, user) => LorasAreRight(s, req, trace, listing, k, ir, user);
      }
    }
  }

  lemma StageKeeps(s: Server, req: HttpRequest, trace: seq<State>, k: nat)
    requires k + 1 < |trace| && trace[k + 1].pc == trace[k].pc && Stage(s, req, trace, k)
    ensures Stage(s, req, trace, k + 1)
  {
  }

  lemma {:induction false} StageHolds(s: Server, req: HttpRequest, trace: seq<State>, events: seq<Event>, k: nat)
    requires IsRun(s, req, trace, events) && k < |trace|
    ensures Stage(s, req, trace, k)
  {
    if k == 0 {
      if trace[0].pc.Done? {
        EnterIsRight(s, req, trace[0].store, trace[0].pc.resp);
        assert RightAt(s, req, trace, 0, 0, 0, 0, trace[0].pc.resp);
      }
    } else {
      StageHolds(s, req, trace, events, k - 1);
      assert Next(s, trace[k - 1], events[k - 1], trace[k]);
      if events[k - 1].Read? {
        ReadIsRight(s, req, trace, events[k - 1].listing, k - 1);
      } else {
        StageKeeps(s, req, trace, k - 1);
      }
    }
  }

  /** For every engine and every interleaving with writes: the answer is the right one for the stores there
      were at instants inside the request, the user looked for, then fetched, then the model. */
  lemma RunIsAnsweredRight(s: Server, req: HttpRequest, trace: seq<State>, events: seq<Event>, resp: Response)
    requires IsRun(s, req, trace, events) && Answered(trace, resp)
    ensures exists e, i, j ::
              && e <= i <= j && Asking(trace, e) && Asking(trace, i) && Asking(trace, j)
              && RightAnswer(s, req, trace[e].store, trace[i].store, trace[j].store, resp)
  {
    StageHolds(s, req, trace, events, |events|);
    var e, i, j, l :| RightAt(s, req, trace, e, i, j, l, resp);
  }

  /** At `i` the user, at `j` the model and at `l` the adapters were there for which this is the rewrite. */
  ghost predicate RewrittenAt(s: Server, e: Embedder, threshold: real, req: HttpRequest, trace: seq<State>,
                              i: int, j: int, l: int, uid: string, mid: string, rewrite: Option<string>)
    requires e.Valid()
  {
    && Asking(trace, i) && Asking(trace, j) && Asking(trace, l)
    && ParseSpec(req).Ok?
    && uid in trace[i].store.users && mid in trace[j].store.models
    && RightRewrite(s, e, threshold, req, PromptSpec(ParseSpec(req).value), trace[i].store.users[uid], mid,
                    trace[j].store.models[mid], trace[l].store.models, rewrite)
  }

  lemma RightAtIsRewritten(s: Server, e: Embedder, threshold: real, req: HttpRequest, trace: seq<State>,
                           a: int, i: int, j: int, l: int, resp: Response, uid: string, mid: string)
    requires e.Valid() && UsesFastembed(s, e, threshold) && s.engine.Total() && Completes(s, req, uid, mid)
    requires RightAt(s, req, trace, a, i, j, l, resp) && resp.Allowed? && trace[l].store.Valid()
    ensures RewrittenAt(s, e, threshold, req, trace, i, j, l, uid, mid, resp.rewrite)
  {
    ParseReads(req);
    ChosenFromIsRight(s, e, threshold, req, trace[i].store.users[uid], trace[j].store.models[mid],
                      trace[l].store.models, resp.rewrite);
  }

  /** ... and with an engine that does not fail and the fastembed scorer, an allowed completion is rewritten
      exactly when it is to be, given the user, the model and then the adapters held at these instants. */
  lemma RunIsRewrittenRight(s: Server, e: Embedder, threshold: real, req: HttpRequest, trace: seq<State>,
                            events: seq<Event>, resp: Response, uid: string, mid: string)
    requires e.Valid() && UsesFastembed(s, e, threshold) && s.engine.Total()
    requires IsRun(s, req, trace, events) && Answered(trace, resp) && Completes(s, req, uid, mid) && resp.Allowed?
    ensures exists a, i, j, l ::
              RightAt(s, req, trace, a, i, j, l, resp) &&
              RewrittenAt(s, e, threshold, req, trace, i, j, l, uid, mid, resp.rewrite)
  {
    StageHolds(s, req, trace, events, |events|);
    var a, i, j, l :| RightAt(s, req, trace, a, i, j, l, resp);
    StoreStaysValid(s, req, trace, events, l);
    RightAtIsRewritten(s, e, threshold, req, trace, a, i, j, l, resp, uid, mid);
  }
}
