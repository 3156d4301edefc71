/** What the specification of a check means: when it allows, what a rewrite may name, and what
    serving from a partly filled store can do. */
module Decisions {
  import opened Specs
  import opened Policy
  import opened PolicyEngine
  import opened Requests
  import opened AdapterSelection
  import opened Check

  /** The request parses to a completion or chat completion of model `mid` by user `uid`. */
  ghost predicate Completes(s: Server, req: HttpRequest, uid: string, mid: string) {
    && ParseSpec(req).Ok?
    && (ParseSpec(req).value.requestType.Completion? || ParseSpec(req).value.requestType.ChatCompletion?)
    && s.authenticate(ParseSpec(req).value) == Ok(uid)
    && ParseSpec(req).value.modelId == mid
  }

  /** The store holds both records and the policy lets this user use this model. */
  ghost predicate Permits(st: Store, uid: string, mid: string) {
    && uid in st.users
    && mid in st.models
    && Decide(st.users[uid], st.models[mid])
  }

  /** The store holds both records and the engine says yes to the pair. */
  ghost predicate Admits(s: Server, st: Store, uid: string, mid: string) {
    && uid in st.users
    && mid != "" && mid in st.models
    && CheckAccess(s.engine, st.users[uid], st.models[mid]) == Ok(true)
  }

  /** Whatever the engine does, a completion is allowed exactly where the store admits it. */
  lemma AllowedMeansAdmitted(s: Server, st: Store, req: HttpRequest, listing: seq<ModelSpec>, uid: string, mid: string)
    requires Completes(s, req, uid, mid)
    ensures CheckSpec(s, st, req, listing).Allowed? <==> Admits(s, st, uid, mid)
  {
  }

  /** A completion is allowed only where the store permits it; with an engine that never fails, exactly
      where it does. (No valid store files a model under the empty id.) */
  lemma AllowedMeansPermitted(s: Server, st: Store, req: HttpRequest, listing: seq<ModelSpec>, uid: string, mid: string)
    requires s.engine.Sound() && st.Valid() && Completes(s, req, uid, mid)
    ensures CheckSpec(s, st, req, listing).Allowed? ==> Permits(st, uid, mid)
    ensures s.engine.Total() ==> (CheckSpec(s, st, req, listing).Allowed? <==> Permits(st, uid, mid))
  {
  }

  /** The same with the policy spelled out: both records are held, the model has a policy, and each attribute
      it names the user has, with one of the listed values. */
  lemma AllowedExactly(s: Server, st: Store, req: HttpRequest, listing: seq<ModelSpec>, uid: string, mid: string)
    requires s.engine.Sound() && s.engine.Total() && st.Valid() && Completes(s, req, uid, mid)
    ensures CheckSpec(s, st, req, listing).Allowed? <==>
            && uid in st.users && mid in st.models
            && var attributes, policy := st.users[uid].attributes, st.models[mid].userAttributes;
               && policy.Present?
               && forall name :: name in policy.value ==>
                    && attributes.Present? && name in attributes.value
                    && policy.value[name].Present? && attributes.value[name] in policy.value[name].value
  {
    AllowedMeansPermitted(s, st, req, listing, uid, mid);
    if uid in st.users && mid in st.models {
      DecideExactly(st.users[uid], st.models[mid]);
    }
  }

  /** `lora` is an adapter of the requested model that this user may use. */
  ghost predicate UsableAdapter(user: UserSpec, lora: ModelSpec, base: string) {
    && lora.modelType == MODEL_TYPE_LORA
    && lora.baseModelId == base
    && Decide(user, lora)
  }

  /** However the sidecar answers, the adapter chosen is one of the listed LoRAs, on the requested base
      model, that this user may use. */
  lemma ChosenAdapterIsUsable(s: Server, ir: InferenceRequest, user: UserSpec, listing: seq<ModelSpec>)
    requires s.selector.Some? && DistinctIds(listing)
    ensures var r := ChooseAdapter(s, ir, user, listing);
            r.Some? ==> exists m :: m in listing && m.id == r.value && UsableAdapter(user, m, ir.modelId)
  {
    var onBase := (m: ModelSpec) => m.baseModelId == ir.modelId;
    var candidates := Filter(listing, onBase);
    FilterMembers(listing, onBase);
    FilterDistinct(listing, onBase);
    if ChooseAdapter(s, ir, user, listing).Some? {
      BatchOnDistinctIds(s.engine, user, candidates);
      var allowed := BatchSpec(s.engine, user, candidates).value;
      FilterMembers(candidates, (m: ModelSpec) => Decide(user, m));
      PickIsConfined(s.selector.value, PromptSpec(ir), ir.modelId, allowed);
    }
  }

  /** A rewrite names a LoRA of the store on the requested base model, and the same user asking for
      that LoRA by name, on the same store, is permitted. */
  lemma RewriteIsConfined(s: Server, st: Store, req: HttpRequest, listing: seq<ModelSpec>, uid: string, mid: string)
    requires s.engine.Sound() && st.Valid() && Completes(s, req, uid, mid)
    requires ListsModels(listing, st.models, MODEL_TYPE_LORA)
    ensures var r := CheckSpec(s, st, req, listing);
            r.Allowed? && r.rewrite.Some? ==>
              && Permits(st, uid, r.rewrite.value)
              && UsableAdapter(st.users[uid], st.models[r.rewrite.value], mid)
              && st.models[mid].modelType == MODEL_TYPE_BASE
              && forall byName, l :: Completes(s, byName, uid, r.rewrite.value) && s.engine.Total() ==>
                   CheckSpec(s, st, byName, l).Allowed?
  {
    var r := CheckSpec(s, st, req, listing);
    if r.Allowed? && r.rewrite.Some? {
      ChosenAdapterIsUsable(s, ParseSpec(req).value, st.users[uid], listing);
      forall byName, l | Completes(s, byName, uid, r.rewrite.value) && s.engine.Total()
        ensures CheckSpec(s, st, byName, l).Allowed?
      {
        AllowedMeansPermitted(s, st, byName, l, uid, r.rewrite.value);
      }
    }
  }

  /** Whatever the engine does, a request allowed on part of a store is allowed on the whole of it. */
  lemma SubStoreAllowsLess(s: Server, part: Store, full: Store, req: HttpRequest, l: seq<ModelSpec>, l': seq<ModelSpec>)
    requires part.SubStoreOf(full)
    ensures CheckSpec(s, part, req, l).Allowed? ==> CheckSpec(s, full, req, l').Allowed?
  {
  }

  /** What a store that is still being filled allows, the full store allows and permits: the completion
      itself, and any adapter it is rewritten to. */
  lemma PartialStoreFailsClosed(s: Server, part: Store, full: Store, req: HttpRequest, listing: seq<ModelSpec>,
                                uid: string, mid: string)
    requires s.engine.Sound() && part.Valid() && part.SubStoreOf(full) && Completes(s, req, uid, mid)
    requires ListsModels(listing, part.models, MODEL_TYPE_LORA)
    ensures var r := CheckSpec(s, part, req, listing);
            r.Allowed? ==>
              && (forall l :: CheckSpec(s, full, req, l).Allowed?)
              && Permits(full, uid, mid)
              && (r.rewrite.Some? ==>
                    && Permits(full, uid, r.rewrite.value)
                    && UsableAdapter(full.users[uid], full.models[r.rewrite.value], mid))
  {
    AllowedMeansPermitted(s, part, req, listing, uid, mid);
    RewriteIsConfined(s, part, req, listing, uid, mid);
    forall l ensures CheckSpec(s, part, req, listing).Allowed? ==> CheckSpec(s, full, req, l).Allowed? {
      SubStoreAllowsLess(s, part, full, req, listing, l);
    }
  }
}
