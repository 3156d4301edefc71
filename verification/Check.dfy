/** The authorization check of one request: its specification as a function of one store, and the
    procedure that computes it through separate reads. */
module Check {
  import opened Specs
  import opened PolicyEngine
  import opened Requests
  import opened AdapterSelection
  import opened DeepCopy
  import opened MemoryStore

  datatype Response =
    | NotApplicable
    | Allowed(rewrite: Option<string>)
    | Denied(reason: string)

  /** The server: what it is configured with, the outside world as functions. */
  datatype Server = Server(
    authenticate: InferenceRequest -> Result<string>,
    engine: Evaluator,
    selector: Option<SemanticSelector>,
    alwaysActive: bool)

  const ADAPTER_HEADER: string := "x-adapter-selection"

  /** Adapter selection applies: configured, base model, asked for, and there is a prompt. */
  predicate WantsAdapter(s: Server, ir: InferenceRequest, model: ModelSpec) {
    && s.selector.Some?
    && model.modelType == MODEL_TYPE_BASE
    && (s.alwaysActive || (ADAPTER_HEADER in ir.headers && ir.headers[ADAPTER_HEADER] == "true"))
    && PromptSpec(ir) != ""
  }

  /** The rewrite chosen among the listed LoRAs; a header is added for a non-empty id only. */
  function ChooseAdapter(s: Server, ir: InferenceRequest, user: UserSpec, listing: seq<ModelSpec>): Option<string>
    requires s.selector.Some?
  {
    var candidates := Filter(listing, (m: ModelSpec) => m.baseModelId == ir.modelId);
    if candidates == [] then None
    else
      match BatchSpec(s.engine, user, candidates)
      case Err(_) => None
      case Ok(allowed) =>
        if allowed == [] then None
        else
          match PickSpec(s.selector.value, PromptSpec(ir), ir.modelId, allowed)
          case None => None
          case Some(m) => if m.id == "" then None else Some(m.id)
  }

  /** A completion asked for by a registered user, against one store that does not change. */
  function CompletionSpec(s: Server, st: Store, ir: InferenceRequest, uid: string, listing: seq<ModelSpec>): Response
    requires uid in st.users
  {
    if ir.modelId == "" then Denied("missing model field in request body")
    else if ir.modelId !in st.models then Denied("model not found")
    else
      var user, model := st.users[uid], st.models[ir.modelId];
      match CheckAccess(s.engine, user, model)
      case Err(_) => Denied("policy evaluation error")
      case Ok(false) => Denied("access denied by policy")
      case Ok(true) => Allowed(if WantsAdapter(s, ir, model) then ChooseAdapter(s, ir, user, listing) else None)
  }

  /** The whole check against one store that does not change. */
  function CheckSpec(s: Server, st: Store, req: HttpRequest, listing: seq<ModelSpec>): Response {
    match ParseSpec(req)
    case Err(e) => Denied(e)
    case Ok(ir) =>
      if ir.requestType.Unknown? then NotApplicable
      else
        match s.authenticate(ir)
        case Err(e) => Denied(e)
        case Ok(uid) =>
          if uid !in st.users then Denied("user not registered")
          else if ir.requestType.ListModels? then Allowed(None)
          else CompletionSpec(s, st, ir, uid, listing)
  }

  // ----- What the answer is to be, branch by branch --------------------------------------------------

  /** The request is one the gateway decides on, and can be read. */
  predicate Protected(req: HttpRequest) {
    ForModelList(req) || ((ForCompletion(req) || ForChat(req)) && HasFields(req))
  }

  /** Both records are there when they are read. */
  predicate Found(uid: string, mid: string, a: Store, b: Store, c: Store) {
    uid in a.users && mid != "" && uid in b.users && mid in c.models
  }

  /** The answer to a completion of model `mid` by user `uid`, where `a`, `b` and `c` are the store when the
      user is looked for, fetched, and the model is fetched. */
  predicate RightCompletionAnswer(s: Server, uid: string, mid: string, a: Store, b: Store, c: Store, resp: Response) {
    && (resp == Denied("user not registered") <==> uid !in a.users)
    && (resp == Denied("missing model field in request body") <==> uid in a.users && mid == "")
    && (resp == Denied("user not found") <==> uid in a.users && mid != "" && uid !in b.users)
    && (resp == Denied("model not found") <==> uid in a.users && mid != "" && uid in b.users && mid !in c.models)
    && (resp == Denied("policy evaluation error") <==>
          Found(uid, mid, a, b, c) && CheckAccess(s.engine, b.users[uid], c.models[mid]).Err?)
    && (resp == Denied("access denied by policy") <==>
          Found(uid, mid, a, b, c) && CheckAccess(s.engine, b.users[uid], c.models[mid]) == Ok(false))
    && (resp.Allowed? <==>
          Found(uid, mid, a, b, c) && CheckAccess(s.engine, b.users[uid], c.models[mid]) == Ok(true))
  }

  /** The answer to any request: unprotected paths pass, whatever cannot be read or authenticated is denied
      for that reason, listing models takes a registered user, and completions are decided as above. */
  predicate RightAnswer(s: Server, req: HttpRequest, a: Store, b: Store, c: Store, resp: Response) {
    && (resp.NotApplicable? <==>
          ":path" in req.headers && !ForCompletion(req) && !ForChat(req) && !ForModelList(req))
    && (":path" !in req.headers ==> resp == Denied("missing :path header"))
    && ((ForCompletion(req) || ForChat(req)) && !HasFields(req) ==> resp == Denied("invalid request body"))
    && (Protected(req) && ParseSpec(req).Ok? ==>
          var ir := ParseSpec(req).value;
          match s.authenticate(ir)
          case Err(reason) => resp == Denied(reason)
          case Ok(uid) =>
            if ForModelList(req) then
              if uid in a.users then resp == Allowed(None) else resp == Denied("user not registered")
            else RightCompletionAnswer(s, uid, ir.modelId, a, b, c, resp))
  }

  /** No two reasons of the branches are the same. */
  lemma ReasonsDiffer()
    ensures |"user not registered"| == 19 && |"missing model field in request body"| == 35
    ensures |"user not found"| == 14 && |"model not found"| == 15
    ensures |"policy evaluation error"| == 23 && |"access denied by policy"| == 23
    ensures "policy evaluation error"[0] == 'p' && "access denied by policy"[0] == 'a'
  {
  }

  /** The specification answers every request as it is to be answered, whatever the engine does. */
  lemma SpecAnswersRight(s: Server, st: Store, req: HttpRequest, listing: seq<ModelSpec>)
    ensures RightAnswer(s, req, st, st, st, CheckSpec(s, st, req, listing))
  {
    ReasonsDiffer();
    ParseFailsExactly(req);
    if ParseSpec(req).Ok? {
      ParseReads(req);
    }
  }

  /** Every map of models has a listing. */
  lemma SomeListing(models: map<string, ModelSpec>, modelType: string) returns (listing: seq<ModelSpec>)
    requires forall id :: id in models ==> models[id].id == id
    ensures ListsModels(listing, models, modelType)
  {
    var visited := Enumerate(models.Keys);
    listing := Select(visited, models, modelType);
    SelectLists(visited, models, modelType);
  }

  lemma Enumerate(ids: set<string>) returns (visited: seq<string>)
    ensures Visits(visited, ids)
  {
    if ids == {} {
      visited := [];
    } else {
      var id :| id in ids;
      var init := Enumerate(ids - {id});
      visited := init + [id];
    }
  }

  /** The answer is the specified one, for some order in which LoRAs may be listed. */
  ghost predicate AnswersAsSpecified(s: Server, st: Store, req: HttpRequest, resp: Response) {
    exists listing :: ListsModels(listing, st.models, MODEL_TYPE_LORA) && resp == CheckSpec(s, st, req, listing)
  }

  ghost predicate CompletesAsSpecified(s: Server, st: Store, ir: InferenceRequest, uid: string, resp: Response)
    requires uid in st.users
  {
    exists listing ::
      ListsModels(listing, st.models, MODEL_TYPE_LORA) && resp == CompletionSpec(s, st, ir, uid, listing)
  }

  lemma SpecifiedIsRight(s: Server, st: Store, req: HttpRequest, resp: Response)
    requires AnswersAsSpecified(s, st, req, resp)
    ensures RightAnswer(s, req, st, st, st, resp)
  {
    var listing :| ListsModels(listing, st.models, MODEL_TYPE_LORA) && resp == CheckSpec(s, st, req, listing);
    SpecAnswersRight(s, st, req, listing);
  }

  /** `Check`: parse, authenticate, up to four separate reads of the store, policy, adapter. Run with
      the store at rest, it answers as specified. */
  method Check(s: Server, store: MemStore, req: HttpRequest) returns (resp: Response)
    requires store.Valid() && s.engine.Sound()
    ensures AnswersAsSpecified(s, store.View(), req, resp)
    ensures RightAnswer(s, req, store.View(), store.View(), store.View(), resp)
  {
    resp := Answer(s, store, req);
    SpecifiedIsRight(s, store.View(), req, resp);
  }

  /** Parsing, authentication and the first read. */
  method Answer(s: Server, store: MemStore, req: HttpRequest) returns (resp: Response)
    requires store.Valid() && s.engine.Sound()
    ensures AnswersAsSpecified(s, store.View(), req, resp)
  {
    ghost var listing := SomeListing(store.modelView, MODEL_TYPE_LORA);
    var parsed := ParseCheckRequest(req);
    if parsed.Err? {
      return Denied(parsed.error);
    }
    var ir := parsed.value;
    if ir.requestType.Unknown? {
      return NotApplicable;
    }
    var auth := s.authenticate(ir);
    if auth.Err? {
      return Denied(auth.error);
    }
    var uid := auth.value;
    var isUserValid := store.UserExists(uid);
    if !isUserValid {
      return Denied("user not registered");
    }
    if ir.requestType.ListModels? {
      return Allowed(None);
    }
    resp := AnswerCompletion(s, store, ir, uid);
    listing :| ListsModels(listing, store.modelView, MODEL_TYPE_LORA)
               && resp == CompletionSpec(s, store.View(), ir, uid, listing);
  }

  /** From the completion check on: the user is registered. */
  method AnswerCompletion(s: Server, store: MemStore, ir: InferenceRequest, uid: string) returns (resp: Response)
    requires store.Valid() && s.engine.Sound() && uid in store.userView
    ensures CompletesAsSpecified(s, store.View(), ir, uid, resp)
  {
    ghost var listing := SomeListing(store.modelView, MODEL_TYPE_LORA);
    if ir.modelId == "" {
      return Denied("missing model field in request body");
    }
    var u, uRepr := store.GetUser(uid);
    if u.None? {
      return Denied("user not found");
    }
    var user := UserValue(u.value);
    assert user == store.userView[uid];
    var m, mRepr := store.GetModel(ir.modelId);
    if m.None? {
      return Denied("model not found");
    }
    var model := ModelValue(m.value);
    ModelValueIsHeld(m.value, mRepr, store.modelView[ir.modelId]);
    var decision := CheckAccess(s.engine, user, model);
    if decision.Err? {
      return Denied("policy evaluation error");
    }
    if decision.value {
      if WantsAdapter(s, ir, model) {
        var loras, reprs, values, mem := store.ListModelsByType(MODEL_TYPE_LORA);
        listing := values;
        var rewrite := SelectAdapter(s, ir, user, loras, reprs, values, mem);
        return Allowed(rewrite);
      }
      return Allowed(None);
    }
    return Denied("access denied by policy");
  }

  /** The adapter part: keep the LoRAs on the requested base, ask the policy about all of them at
      once, and pick among the allowed. */
  method SelectAdapter(s: Server, ir: InferenceRequest, user: UserSpec, loras: seq<ModelObject>,
                       ghost reprs: seq<set<object>>, ghost listing: seq<ModelSpec>, ghost mem: set<object>)
    returns (rewrite: Option<string>)
    requires s.engine.Sound() && s.selector.Some? && CopiesOf(loras, reprs, listing, mem)
    ensures rewrite == ChooseAdapter(s, ir, user, listing)
  {
    var candidates: seq<ModelSpec> := [];
    for i := 0 to |loras|
      invariant candidates == Filter(listing[..i], (m: ModelSpec) => m.baseModelId == ir.modelId)
    {
      ModelValueIsHeld(loras[i], reprs[i], listing[i]);
      assert listing[..i + 1][..i] == listing[..i];
      if loras[i].baseModelId == ir.modelId {
        candidates := candidates + [ModelValue(loras[i])];
      }
    }
    assert listing[..|loras|] == listing;
    if |candidates| == 0 {
      return None;
    }
    var allowed := GetAllowedModels(s.engine, user, candidates);
    if allowed.Err? || |allowed.value| == 0 {
      return None;
    }
    var prompt := PromptText(ir);
    var selected := Pick(s.selector.value, prompt, ir.modelId, allowed.value);
    if selected.None? || selected.value.id == "" {
      return None;
    }
    return Some(selected.value.id);
  }
}
