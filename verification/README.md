# Access-control gateway: verified model

A Dafny model of an access-control gateway for inference requests, and proofs about it. The gateway
answers authorization checks: it parses a request, authenticates it, looks the user and the model up in
an in-memory store, asks an attribute-based policy, and may rewrite the request to a LoRA adapter that a
semantic scorer picked. Two reconcilers fill the store from API objects, under a finalizer protocol.

`dafny verify dfyconfig.toml` checks everything.

## How the parts fit together

- `Specs`: the `UserSpec` and `ModelSpec` values (nil and empty kept apart), and the store as a value with
  its four atomic writes. Everything below shares this store.
- `Policy`, `PolicyEngine`: the access rule, its algebra, and the batch query that goes out as models and
  comes back as a set of ids.
- `Requests`, `Vectors`, `Scorer`, `AdapterSelection`: parsing, the sidecar's embedding cache and choice,
  and the gateway's use of the sidecar's answer.
- `DeepCopy`, `MemoryStore`, `Isolation`: the heap level. Records, maps and slices are objects, the store
  copies on the way in and out, and a client that tramples over the memory of every record it made, passed
  in or was handed sees no more than a store of plain values.
- `Check`, `Decisions`: one request as a procedure over the store and as the function `CheckSpec`, and
  what an answer means.
- `Answers`: which answer and which rewrite a request gets, in the terms of the request, the records and the
  embeddings; for one store and for every run.
- `CheckRuns`, `RunProperties`: the same request as a program counter with captured snapshots, its four
  reads interleaved with arbitrary writes; theorems are over every run.
- `Finalizer`, `FinalizerProperties`, `IdEdits`, `Convergence`, `Passes`, `Filling`, `Reconciler`: the reconcilers as a
  state machine over API objects, store and reconciles in flight, with conflicts, failures and restarts; the
  reconcilers as procedures, each proved to do what the state machine's steps add up to.
- `StoreView`, `Gateway`: both halves composed: a request interleaved with API edits and reconciles.

Premises of the protocol (the guard of `Finalizer.Enabled`): a reconcile reads the current object, one
reconcile runs per key at a time, an object's id never changes, only the reconciler takes its own finalizer
away, and an object disappears only when it is deleting and has no finalizers. Nothing enforces that ids stay;
`IdEdits` says exactly when an edit of one does harm. That ids are unique per kind is not enforced either and
is not a premise: theorems that need it require `UniqueRefs`, or say exactly what becomes of them without it.

Premises of the policy engine: `Sound` says that an evaluation that succeeds returns what the policy module
defines; `Total` that it never fails. Theorems name the one they need.

## What the proofs brought out

- The batch query agrees with the single query exactly when no refused model of the list shares an id with
  an allowed one; with a shared id it widens access. Lists from the store cannot get there.
- A request takes the user and the model at two different instants. If both records are written in between,
  it can be allowed although the check would be at no instant of the request
  (`RunProperties.TornDecision`); if at most one is, it cannot. `RunProperties.SingleInstantExactly` states
  both for every engine.
- The finalizer guards the store even when objects share an id, but convergence fails then: when a deleting
  object shares its id with a live one, or two live ones disagree, some order of reconciles leaves the store
  wrong (`Passes.SharedIdDiverges`). `Passes.ConvergesExactly` gives the exact condition.
- Editing an id can leave the old entry with no object guarding it (`IdEdits.ChangedIdBreaksGuard`), because
  only the current id is ever deleted, and there it stays until a restart or until the id is given to an
  object again (`IdEdits.OrphanStays`). The edit is harmless exactly when nothing of the object is stored under
  the old id and no sync of it is in flight (`IdEdits.IdEditExactly`).
- A failed update can be worse than none where ids are shared: a release that fails is tried again together
  with its purge, so the condition for convergence is stricter with failures (`Passes.ConvergesExactly`).
- An object with an empty id gets the finalizer, but the store refuses it on every reconcile. The image
  that a round converges to leaves such objects out.
- The body `null` is accepted as a body without fields.
- The process reports itself ready once one spec of either kind is synced, not all. Serving then widens
  nothing: `Gateway.InitialSyncFailsClosed`.

## Model

| member | source | states |
|---|---|---|
| CheckRuns.AllowIsJustified | pkg/server/server.go:154-223 | in every interleaving with store writes, an allowed completion rests on a user snapshot and a later model snapshot, each in the store at an instant inside the request, with a true decision on the pair; a rewrite rests on a still later LoRA snapshot on the requested base, allowed for that same user snapshot |
| CheckRuns.AtRestIsSpec | pkg/server/server.go:133-231 | the stepped check without interference answers what the sequential one answers |
| CheckRuns.StoreStaysValid | pkg/store/memory/memory.go:130-143 | at every instant of a run each entry is filed under its own, non-empty id |
| RunProperties.SingleInstantDecision | pkg/server/server.go:177-192 | for every engine: if at most one of the two records is written between their captures, allow or deny is what an atomic check at one instant of the request gives |
| RunProperties.SingleInstantExactly | pkg/server/server.go:177-192 | for every engine and request: all runs that write only a given choice of the two records between the captures are decided as at one instant if and only if the choice is not both or the engine never grants that user that model |
| RunProperties.SoundEngineCanGrant | pkg/policyengine/opa/policies/access.rego:3-11 | with the policy and an engine that does not fail, that last exception never applies |
| RunProperties.TornDecision | pkg/server/server.go:177-192 | for every engine, user and model: if it grants the captured pair but none of the pairs in between, there is a run that is allowed though the check is at no instant, both records being written between the captures |
| RunProperties.TornByEdits | pkg/server/server.go:177-192 | with the policy as it is, editing two records that stay in the store is enough |
| RunProperties.RevokedIsNeverAllowed | pkg/server/server.go:154-192 | a record gone before the request and not synced during it, or a pair the policy refuses with neither synced: no interleaving allows the completion |
| RunProperties.PairIsDecided | pkg/server/server.go:154-192 | for every engine: if the store holds the same two records throughout, the completion is allowed if and only if the engine says yes to them, whatever else is written |
| RunProperties.FillingFailsClosed | pkg/server/server.go:154-230 | if the store is part of a fuller one at every instant, whatever a run allows or rewrites to, the fuller one permits |
| Check.Check | pkg/server/server.go:133-231 | the procedure over the heap store computes the sequential specification, for some listing order of the LoRAs; and its answer is the right one, branch by branch |
| Check.SpecAnswersRight | pkg/server/server.go:133-231 | for every engine and request: not applicable if and only if the path is present and none of the three; a request that cannot be read or authenticated is denied for that reason; listing models is allowed, without a rewrite, if and only if the user is registered; a completion is denied with the reason of each branch if and only if that branch's condition holds, and allowed if and only if the engine says yes |
| Answers.RunIsAnsweredRight | pkg/server/server.go:133-231 | for every engine and every interleaving with writes, the answer is the right one for the stores at three instants of the request, in order |
| Answers.RewriteExactly | pkg/server/server.go:196-226 | with the fastembed scorer and an engine that does not fail: an allowed completion is rewritten if and only if a selector is configured, the model is a base model, selection is always active or the header is "true", there is a prompt, and some stored LoRA on that model, allowed for the user, has a description above -1 and at the threshold; the rewrite comes closest to the prompt |
| Answers.RunIsRewrittenRight | pkg/server/server.go:196-226 | the same in every interleaving, for the user, model and LoRAs held at instants of the request, in order |
| Check.SelectAdapter | pkg/server/server.go:205-226 | the candidate loop, batch query and pick together choose what the specification chooses |
| Decisions.AllowedMeansAdmitted | pkg/server/server.go:153-230 | for every engine, a completion is allowed if and only if both records are held and the engine says yes |
| Decisions.AllowedMeansPermitted | pkg/server/server.go:153-230 | a completion is allowed only if the store holds both records and the policy is met; with an engine that never fails, if and only if |
| Decisions.AllowedExactly | pkg/policyengine/opa/policies/access.rego:3-11 | with a sound engine that does not fail, a completion is allowed if and only if both records are held, the model has a policy, and each attribute it names the user has, with one of the listed values |
| Decisions.RewriteIsConfined | pkg/server/server.go:206-220 | for any sidecar, the rewrite names a LoRA on the requested base model that the same user is allowed to request by name |
| Decisions.ChosenAdapterIsUsable | pkg/adapterselection/semantic/selector.go:85-100 | for any sidecar answer, the adapter chosen is a listed LoRA on the base that the user may use |
| Decisions.SubStoreAllowsLess | pkg/server/server.go:133-231 | for every engine, any request allowed on a part of a store is allowed on the whole |
| Decisions.PartialStoreFailsClosed | pkg/server/server.go:154-230 | what a part of a store allows, the whole store allows and permits, and it permits any LoRA that part rewrites to |
| Finalizer.StepKeepsInv | pkg/controller/model_controller.go:50-100 | every step (environment, reconcile, failure, restart) keeps the protocol's invariant |
| Finalizer.StepKeepsLooseInv | pkg/controller/user_controller.go:50-100 | and the part of it that survives harmless edits of ids by itself |
| Finalizer.SyncKeepsLooseInv | pkg/controller/user_controller.go:92-97 | syncing a possibly outdated fetched spec keeps it |
| Finalizer.PurgeKeepsLooseInv | pkg/controller/user_controller.go:64-73 | deleting the id from the store keeps it |
| Finalizer.ReleaseKeepsLooseInv | pkg/controller/model_controller.go:74-78 | giving the finalizer up keeps it, because the id was purged and nothing put it back |
| Finalizer.FinalizeKeepsLooseInv | pkg/controller/model_controller.go:84-90 | adding the finalizer under the fetched version keeps it |
| FinalizerProperties.FinalizerGuard | pkg/controller/model_controller.go:64-97 | in every reachable state each stored entry belongs to an API object that still carries the finalizer and had this very spec, at a version no newer than its current one, even where ids are shared |
| FinalizerProperties.NoneLeavesUnpurged | pkg/controller/user_controller.go:64-82 | no step removes an object from the API while an entry of its own is in the store, nor, where ids are unique, any entry under its id |
| FinalizerProperties.OnlyItsFinalizer | pkg/controller/user_controller.go:64-90 | a reconcile leaves specs, deletion marks, other owners' finalizers and other objects alone, and only an object that nobody else holds goes |
| FinalizerProperties.NoResurrection | pkg/controller/model_controller.go:64-95 | once purged, an id that no other object had at that moment stays out of the store on every run until an object with it is created |
| FinalizerProperties.GoneStays | pkg/controller/user_controller.go:64-95 | no single step other than creation brings a purged id back, or puts a reconcile in a position to |
| FinalizerProperties.NeverGoesBack | pkg/controller/user_controller.go:64-95 | while ids are unique, the version synced under an id never decreases between restarts |
| FinalizerProperties.LogOnlyGrows | pkg/controller/model_controller.go:74-90 | a version, once issued, stands for one spec for ever |
| IdEdits.IdEditExactly | pkg/controller/model_controller.go:67-97 | after an edit of any kind, every later run with fixed ids keeps each entry with an object that guards it and had that spec, if and only if the edit keeps the ref, or nothing of the object is stored under the old one and no sync of it is in flight; a harmless edit keeps the bookkeeping, so more may follow |
| IdEdits.EditGuardExactly | pkg/controller/model_controller.go:67-97 | at the instant of the edit the store stays guarded if and only if the ref is kept or the object has no entry under the old one |
| IdEdits.ChangedIdBreaksGuard | pkg/controller/user_controller.go:67-97 | a run from the empty cluster: create, reconcile, edit the id, and the old entry is an orphan |
| IdEdits.ChangedIdIsOrphaned | pkg/controller/model_controller.go:67-97 | a changed id of a stored object, with no reconcile of it in flight, leaves the old entry without an object or a reconcile that would touch it |
| IdEdits.OrphanStays | pkg/controller/model_controller.go:64-97 | such an entry stays in the store on every run, whatever else is created, edited, deleted or reconciled, until a restart or until an object is given that id |
| Passes.PassConverges | pkg/controller/model_controller.go:50-100 | from any reachable state without a clash of ids, any interleaving in which every key completes one fresh reconcile whose own updates do not fail leaves the store exactly the image of the live API objects; other updates may fail |
| Passes.ConvergesExactly | pkg/controller/user_controller.go:50-100 | all such interleavings converge, with failures or without, if and only if no live object shares its ref with a live one of another spec or a deleting one that may still be purged; without failures it also decides all rounds in any order |
| Passes.UniqueRefsConverge | pkg/controller/model_controller.go:50-100 | with unique ids every round converges, in any order, and every interleaving, with whatever failures |
| Passes.SharedIdDiverges | pkg/controller/model_controller.go:64-97 | two objects created with one id, the first deleted: the round that takes the live one first leaves it out of the store |
| Convergence.SecondRoundChangesNothing | pkg/controller/user_controller.go:50-100 | with unique ids a second round changes no object, version or entry |
| Convergence.ReconcileSettles | pkg/controller/user_controller.go:50-100 | one whole reconcile leaves its own object reflected in the store, whatever was in flight |
| Convergence.ReconcileLeavesOthers | pkg/controller/model_controller.go:50-100 | and, with unique ids, leaves every other settled object settled |
| Filling.FillingIsPartial | pkg/controller/model_controller.go:92-97 | after a restart, while only reconcilers act (with failures), the store is part of the image of the live objects |
| Reconciler.ModelReconciler.Reconcile | pkg/controller/model_controller.go:50-100 | the new objects, clock and store are those of the reconcile function; when it errs, and when the flag both reconcilers share becomes set |
| Reconciler.ModelReconciler.Cleanup | pkg/controller/model_controller.go:66-79 | purges first, then releases under the fetched version; errs exactly when the update fails |
| Reconciler.UserReconciler.Reconcile | pkg/controller/user_controller.go:50-100 | the same for users |
| Reconciler.UserReconciler.Cleanup | pkg/controller/user_controller.go:66-79 | the same for users |
| Reconciler.ErrsExactly | pkg/controller/model_controller.go:64-99 | a reconcile asks to be retried if and only if it has not left its object gone, released, or finalized and stored; the process counts as synced if and only if a live object was stored; a released object is gone if and only if nobody else holds it |
| Reconciler.ReconcileIsProtocol | pkg/controller/model_controller.go:50-100 | that function is what the protocol's Get and the steps that follow add up to, updates failing or not |
| Reconciler.ReconcileConverges | pkg/controller/user_controller.go:50-100 | without failures it is the reconcile of the convergence theorem |
| Gateway.AllowRestsOnTheApi | pkg/server/server.go:154-223 | with API edits, reconciles and failures interleaved, an allow rests on a user spec and later a model spec, and a rewrite on a still later LoRA spec, each the spec that an API object with the finalizer had, at a version no newer than its current one |
| Gateway.RevocationEndToEnd | pkg/controller/user_controller.go:64-82 | on any run in which a reconciler purges a user or model whose id is not shared, no request that arrives later is allowed with it until it is created anew |
| Gateway.RevocationByEdit | pkg/controller/model_controller.go:92-97 | once user and model objects whose specs the policy refuses are synced, with nothing in flight for them, no request is allowed the pair until an object of one of the ids is created or edited |
| Gateway.InitialSyncFailsClosed | cmd/secure-inference/main.go:176-182 | a request served while a restarted process fills its store is allowed or rewritten only to what live API objects declare and the policy allows, also where objects share an id |
| Gateway.TargetPermits | cmd/secure-inference/main.go:176-182 | a completion and a rewrite that rest on live objects are permitted by any store that holds what the live objects declare |
| Gateway.AfterConvergence | pkg/server/server.go:154-230 | after a pass, while nobody touches the API objects and reconciles go on and fail, a completion is allowed if and only if live objects permit it, and a rewrite names a live LoRA |
| Gateway.ClusterStepProjects | pkg/controller/model_controller.go:66-97 | every cluster step is one atomic store write or leaves the store alone |
| Gateway.RunProjects | pkg/server/server.go:154-223 | a run of the whole gateway is a run of the check against arbitrary writes |
| StoreView.WorkProjects | pkg/controller/user_controller.go:66-97 | a reconcile step does to the store as a request sees it exactly the store operation it calls |
| Specs.StoreHoldsLastUserWrite | pkg/store/memory/memory.go:55-77 | over any sequence of writes, a user is held if and only if the last write naming it was a sync, with that value |
| Specs.StoreHoldsLastModelWrite | pkg/store/memory/memory.go:130-152 | the same for models |
| MemoryStore.MemStore.SyncUser | pkg/store/memory/memory.go:55-69 | refuses nil and empty ids; otherwise files a copy under its id, in memory of the store's own |
| MemoryStore.MemStore.SyncModel | pkg/store/memory/memory.go:130-144 | the same for models |
| MemoryStore.MemStore.DeleteUser | pkg/store/memory/memory.go:71-77 | removes exactly that entry |
| MemoryStore.MemStore.DeleteModel | pkg/store/memory/memory.go:146-152 | removes exactly that entry |
| MemoryStore.MemStore.UserExists | pkg/store/memory/memory.go:79-85 | whether there is an entry |
| MemoryStore.MemStore.ModelExists | pkg/store/memory/memory.go:154-160 | the same for models |
| MemoryStore.MemStore.GetUser | pkg/store/memory/memory.go:29-40 | a copy of the stored value in wholly new memory, or not found |
| MemoryStore.MemStore.GetModel | pkg/store/memory/memory.go:89-100 | the same for models |
| MemoryStore.MemStore.ListModelsByType | pkg/store/memory/memory.go:115-128 | every model of the type exactly once in some order, in new memory, no two results sharing any |
| MemoryStore.SelectLists | pkg/store/memory/memory.go:119-127 | whatever the order in which the map is ranged over, the loop lists the models of the type, once each |
| Isolation.Session | pkg/store/memory/memory_test.go:166-238 | after any script of creating, overwriting, syncing, deleting, getting and listing, every answer, read off the records returned, is the one a store of plain values gives, and every record the client has reads as what it last made of it |
| Isolation.Client.Perform | pkg/store/memory/memory.go:55-152 | one step of it, over client records and a store that all have memory of their own before and after |
| DeepCopy.CopyPolicy | api/v1alpha1/zz_generated.deepcopy.go:39-57 | a new map of new slices with the same value, nil and empty kept apart |
| DeepCopy.CopyModelInto | api/v1alpha1/zz_generated.deepcopy.go:102-131 | the target reads as the same value, all it reaches beyond itself being new |
| DeepCopy.CopyModel | api/v1alpha1/zz_generated.deepcopy.go:134-141 | a wholly new record with the same value |
| DeepCopy.CopyUserInto | api/v1alpha1/zz_generated.deepcopy.go:218-227 | the same for users |
| DeepCopy.CopyUser | api/v1alpha1/zz_generated.deepcopy.go:230-237 | the same for users |
| Scorer.Selector.Embed | sidecar/adapter-selection-fastembed/selector.py:25-41 | pointwise the normalized embedding of each text; the cache gains exactly the texts and no entry changes |
| Scorer.Selector.PickBest | sidecar/adapter-selection-fastembed/selector.py:44-82 | whatever earlier calls cached, the answer of the scorer without a cache, and the best pick by cosine |
| Scorer.SimilarityIsCosine | sidecar/adapter-selection-fastembed/selector.py:36-41 | a similarity times both norms is the dot product of the two embeddings, and it is 0 if a norm is 0; no other value is |
| Scorer.PickIsArgmax | sidecar/adapter-selection-fastembed/selector.py:57-82 | in terms of embeddings and norms: nothing and 0 for no candidates; otherwise the greatest cosine over all descriptions, floored at -1, and the id of the first candidate reaching it, or none |
| Scorer.BestPickIsUnique | sidecar/adapter-selection-fastembed/selector.py:57-82 | this determines id and score |
| Scorer.PickIgnoresOrder | sidecar/adapter-selection-fastembed/selector.py:57-82 | candidates offering the same pairs get the same score, and the same id when the best one is unique |
| Scorer.RearrangingKeepsOffers | sidecar/adapter-selection-fastembed/selector.py:66-82 | permuting candidates and descriptions keeps the pairs offered |
| Scorer.NoMatchExactly | sidecar/adapter-selection-fastembed/selector.py:57-82 | no id if and only if every description of every candidate has similarity -1 or there is none; the score lies in [-1, 1] |
| Scorer.SimilarityBound | sidecar/adapter-selection-fastembed/selector.py:36-39 | every similarity lies in [-1, 1] |
| Vectors.CosineBound | sidecar/adapter-selection-fastembed/selector.py:74-76 | the dot product of two normalized or zero vectors lies in [-1, 1] |
| Vectors.DotScales | sidecar/adapter-selection-fastembed/selector.py:37-39 | dividing both vectors divides the dot product by the product of the divisors, so the similarity is the cosine |
| Vectors.NormalizedLength | sidecar/adapter-selection-fastembed/selector.py:37-39 | a normalized vector has length 1 unless it was zero |
| Vectors.ZeroVectorDot | sidecar/adapter-selection-fastembed/selector.py:39 | a zero embedding has similarity 0 to everything |
| AdapterSelection.Pick | pkg/adapterselection/semantic/selector.go:77-154 | candidate filter, lookup map, threshold and lookup compute the pick specification for any sidecar |
| AdapterSelection.PickIsConfined | pkg/adapterselection/semantic/selector.go:85-154 | for any sidecar: a model is selected if and only if there is a prompt and the answer is a score at the threshold or above for the id of an eligible model of the list, and it is such a model |
| AdapterSelection.CandidatesInOrder | pkg/adapterselection/semantic/selector.go:88-102 | the sidecar is offered exactly the eligible models, in order, with their ids and descriptions |
| AdapterSelection.SelectionEndToEnd | sidecar/adapter-selection-fastembed/main.py:27-40 | composed with the scorer, a model is selected if and only if some eligible description is above -1 and reaches the threshold, and it attains the best similarity; "no match" never selects |
| PolicyEngine.DecodeAllowed | pkg/policyengine/opa/policies/opa.go:83-114 | exactly the ids an object's keys or an array's strings name; no result is no id, any other value an error |
| PolicyEngine.AccessNeedsABoolean | pkg/policyengine/opa/policies/opa.go:45-67 | for any evaluator: true or false only from a successful evaluation whose first value is that boolean, an error otherwise |
| PolicyEngine.GetAllowedModels | pkg/policyengine/opa/opa.go:37-65 | for any evaluator: an error, or the input's models whose id the result names; for a sound one, those whose id some allowed model of the input has, whichever representation the set has |
| Specs.FilterInOrder | pkg/policyengine/opa/opa.go:57-62 | the filter keeps the elements at exactly the positions that satisfy the condition, in their order, once each |
| PolicyEngine.BatchRefinesSingle | pkg/policyengine/opa/opa.go:51-64 | this is the order-preserving filter by single access if and only if no refused model shares an id with an allowed one |
| PolicyEngine.SharedIdWidensBatch | pkg/policyengine/opa/policies/access.rego:18-22 | two models with one id for which it is not |
| PolicyEngine.BatchOnDistinctIds | pkg/policyengine/opa/opa.go:37-65 | on models with distinct ids, such as those listed from the store, it is |
| Policy.DecideExactly | pkg/policyengine/opa/policies/access.rego:3-15 | for users and models of every kind, the decision is: the model has a policy, and each attribute it names the user has, with one of the listed values |
| Policy.RuleByValueSet | pkg/policyengine/opa/policies/access.rego:3-11 | the rule by sets of values, nil maps and lists included |
| Policy.PolicyInclusion | pkg/policyengine/opa/policies/access.rego:3-11 | one policy admits only users another admits if and only if it cannot be met or is at least as strict on every attribute |
| Policy.MergeIsConjunction | docs/crds.md:79-83 | merging policies admits exactly the users both admit |
| Policy.OnlyNamedAttributesMatter | docs/crds.md:79-83 | attributes the policy does not name are irrelevant, and added attributes never take access away |
| Requests.ParseCheckRequest | pkg/types/request.go:88-150 | computes the parse specification, error cases included |
| Requests.ParseFailsExactly | pkg/types/request.go:92-120 | parsing fails, with the reason, if and only if the path is missing, or it is a completion path and the body is neither an object nor null |
| Requests.ParseReads | pkg/types/request.go:97-132 | the type is that of the path; path and headers are kept; the model is the string under "model" for both completion types, and the prompt of a completion the string under "prompt", a missing or wrongly typed field reading as empty |
| Requests.PromptText | pkg/types/request.go:62-78 | the backward search finds the last user message |
| Requests.FilterThenSearch | pkg/types/request.go:133-145 | filtering forwards and searching backwards yields the content of the last element that is an object with role "user" |
| Requests.ChatPrompt | pkg/types/request.go:88-150 | the same for parse and prompt together, on every decoded chat body, and when parsing fails |

## Left out

- gRPC, Envoy messages, header objects, logging: a response is allow, allow with rewrite, not applicable, or deny with a reason; reasons are shortened where the source appends an error.
- Authentication by token: an arbitrary function from the parsed request to a user id or an error.
- The OPA evaluator: the policy module's rules are modelled, its results are values. A nil policy refuses, since `every` needs a collection; the CRD requires the map.
- JSON text and HTTP: bodies start decoded or malformed; a sidecar is any function of the prompt and candidates, any transport or decoding failure one outcome.
- Floating point and NaN: similarities are reals, the norm the non-negative real whose square is the sum of squares.
- The embedding model: a function from texts to vectors of one dimension; a batch is embedded text by text.
- Threads sharing the sidecar's cache: calls of the scorer follow each other.
- Kubernetes client caches, watches, RBAC, leader election: Gets are fresh; stale Gets are not modelled.
- A request in flight when the process restarts: it ends with the process.
- FinalizerProperties.NeverGoesBack: speaks of the version recorded with the spec last synced under an id; that the entry, while held, is the spec of that version is FinalizerProperties.FinalizerGuard.
- RunProperties.SingleInstantDecision: speaks of allow or deny; the rewrite comes from a later instant, as CheckRuns.AllowIsJustified says.
- Check.Check: runs with the store at rest; interference is the subject of CheckRuns.
- PolicyEngine.GetAllowedModels: works on spec values, so that the results are the very pointers passed in is not captured.
- DeepCopy.CopyModelInto: the fields are computed and then assigned together, so the moment in which the target still shares the source's maps is not modelled.
- Deep copies of `Model`, `User`, status and list wrappers: object metadata is copied by a library.
- `ListUsers` and `ListModels` of the store: the loop of `ListModelsByType` without its filter, used by no request.
- The mock adapter selector, configuration, command-line tools, charts: case analysis or I/O.
