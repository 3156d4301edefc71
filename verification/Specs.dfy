/** The values that every component shares: Go's nil-or-present distinction, the `UserSpec` and
    `ModelSpec` records, and the store as a value with its atomic write operations. */
module Specs {

  datatype Option<+T> = None | Some(value: T)

  datatype Result<+T> = Ok(value: T) | Err(error: string)

  /** A Go map or slice that is either nil or present (possibly empty). */
  datatype Nilable<+T> = Nil | Present(value: T)

  const MODEL_TYPE_BASE: string := "BaseModel"
  const MODEL_TYPE_LORA: string := "LoRA"

  datatype UserSpec = UserSpec(id: string, attributes: Nilable<map<string, string>>)

  type PolicyMap = map<string, Nilable<seq<string>>>

  datatype ModelSpec = ModelSpec(
    id: string,
    modelType: string,
    baseModelId: string,
    userAttributes: Nilable<PolicyMap>,
    keyWords: Nilable<seq<string>>,
    descriptions: Nilable<seq<string>>)

  datatype Spec = UserOf(user: UserSpec) | ModelOf(model: ModelSpec) {
    function Id(): string {
      match this
      case UserOf(u) => u.id
      case ModelOf(m) => m.id
    }

    /** The kind and id under which the store files it. */
    function Ref(): Ref {
      match this
      case UserOf(u) => UserRef(u.id)
      case ModelOf(m) => ModelRef(m.id)
    }
  }

  datatype Ref = UserRef(id: string) | ModelRef(id: string)

  /** The store as seen under its lock. */
  datatype Store = Store(users: map<string, UserSpec>, models: map<string, ModelSpec>) {
    /** Every entry is filed under its own, non-empty id. */
    ghost predicate Valid() {
      && (forall id :: id in users ==> users[id].id == id && id != "")
      && (forall id :: id in models ==> models[id].id == id && id != "")
    }

    ghost predicate SubStoreOf(other: Store) {
      && (forall id :: id in users ==> id in other.users && other.users[id] == users[id])
      && (forall id :: id in models ==> id in other.models && other.models[id] == models[id])
    }
  }

  const EMPTY_STORE := Store(map[], map[])

  /** The four writing operations of the store, each atomic under the write lock. */
  datatype Write =
    | SyncUser(user: UserSpec)
    | DeleteUser(userId: string)
    | SyncModel(model: ModelSpec)
    | DeleteModel(modelId: string)

  /** The store after a write; a sync with an empty id is refused and changes nothing. */
  function Apply(w: Write, st: Store): Store {
    match w
    case SyncUser(u) => if u.id == "" then st else st.(users := st.users[u.id := u])
    case DeleteUser(id) => st.(users := st.users - {id})
    case SyncModel(m) => if m.id == "" then st else st.(models := st.models[m.id := m])
    case DeleteModel(id) => st.(models := st.models - {id})
  }

  function SyncWrite(spec: Spec): Write {
    match spec case UserOf(u) => SyncUser(u) case ModelOf(m) => SyncModel(m)
  }

  function DeleteWrite(r: Ref): Write {
    match r case UserRef(id) => DeleteUser(id) case ModelRef(id) => DeleteModel(id)
  }

  function ApplyAll(ws: seq<Write>, st: Store): Store {
    if ws == [] then st else Apply(ws[|ws| - 1], ApplyAll(ws[..|ws| - 1], st))
  }

  /** Entry `id` of the user half is what the last write naming `id` made it. */
  ghost predicate LastUserWrite(ws: seq<Write>, k: nat, id: string)
    requires k < |ws|
  {
    && WritesUser(ws[k], id)
    && forall j :: k < j < |ws| ==> !WritesUser(ws[j], id)
  }

  ghost predicate LastModelWrite(ws: seq<Write>, k: nat, id: string)
    requires k < |ws|
  {
    && WritesModel(ws[k], id)
    && forall j :: k < j < |ws| ==> !WritesModel(ws[j], id)
  }

  /** The write changes the user entry `id` (a refused sync does not). */
  predicate WritesUser(w: Write, id: string) {
    || (w.SyncUser? && w.user.id == id && id != "")
    || (w.DeleteUser? && w.userId == id)
  }

  predicate WritesModel(w: Write, id: string) {
    || (w.SyncModel? && w.model.id == id && id != "")
    || (w.DeleteModel? && w.modelId == id)
  }

  /** From the empty store, any sequence of writes holds a user under `id` exactly when the last
      write naming `id` was a sync, and then it is the value of that sync. */
  lemma {:induction false} StoreHoldsLastUserWrite(ws: seq<Write>, id: string)
    ensures var st := ApplyAll(ws, EMPTY_STORE);
            && (id in st.users <==> exists k: nat :: k < |ws| && LastUserWrite(ws, k, id) && ws[k].SyncUser?)
            && (forall k: nat :: k < |ws| && LastUserWrite(ws, k, id) && ws[k].SyncUser? ==>
                  id in st.users && st.users[id] == ws[k].user)
  {
    if ws != [] {
      var n := |ws| - 1;
      var init := ws[..n];
      StoreHoldsLastUserWrite(init, id);
      if WritesUser(ws[n], id) {
        assert LastUserWrite(ws, n, id);
        assert forall k: nat :: k < n ==> !LastUserWrite(ws, k, id);
      } else {
        assert forall k: nat :: k < n ==> (LastUserWrite(init, k, id) <==> LastUserWrite(ws, k, id));
        assert forall k: nat :: k < n ==> init[k] == ws[k];
      }
    }
  }

  /** From the empty store, any sequence of writes holds a model under `id` exactly when the last
      write naming `id` was a sync, and then it is the value of that sync. */
  lemma {:induction false} StoreHoldsLastModelWrite(ws: seq<Write>, id: string)
    ensures var st := ApplyAll(ws, EMPTY_STORE);
            && (id in st.models <==> exists k: nat :: k < |ws| && LastModelWrite(ws, k, id) && ws[k].SyncModel?)
            && (forall k: nat :: k < |ws| && LastModelWrite(ws, k, id) && ws[k].SyncModel? ==>
                  id in st.models && st.models[id] == ws[k].model)
  {
    if ws != [] {
      var n := |ws| - 1;
      var init := ws[..n];
      StoreHoldsLastModelWrite(init, id);
      if WritesModel(ws[n], id) {
        assert LastModelWrite(ws, n, id);
        assert forall k: nat :: k < n ==> !LastModelWrite(ws, k, id);
      } else {
        assert forall k: nat :: k < n ==> (LastModelWrite(init, k, id) <==> LastModelWrite(ws, k, id));
        assert forall k: nat :: k < n ==> init[k] == ws[k];
      }
    }
  }

  lemma ApplyKeepsValid(w: Write, st: Store)
    requires st.Valid()
    ensures Apply(w, st).Valid()
  {
  }

  /** `listing` enumerates, once each and in any order, the models of one type. */
  ghost predicate ListsModels(listing: seq<ModelSpec>, models: map<string, ModelSpec>, modelType: string) {
    && (forall i :: 0 <= i < |listing| ==>
          && listing[i].id in models
          && models[listing[i].id] == listing[i]
          && listing[i].modelType == modelType)
    && (forall i, j :: 0 <= i < j < |listing| ==> listing[i].id != listing[j].id)
    && (forall id :: id in models && models[id].modelType == modelType ==> models[id] in listing)
  }

  ghost predicate DistinctIds(models: seq<ModelSpec>) {
    forall i, j :: 0 <= i < j < |models| ==> models[i].id != models[j].id
  }

  /** The order-preserving filter of a model list. */
  function Filter(models: seq<ModelSpec>, p: ModelSpec -> bool): (r: seq<ModelSpec>) {
    if models == [] then []
    else
      var rest := Filter(models[..|models| - 1], p);
      if p(models[|models| - 1]) then rest + [models[|models| - 1]] else rest
  }

  lemma {:induction false} FilterMembers(models: seq<ModelSpec>, p: ModelSpec -> bool)
    ensures forall m :: m in Filter(models, p) <==> m in models && p(m)
    ensures |Filter(models, p)| <= |models|
  {
    if models != [] {
      var init, last := models[..|models| - 1], models[|models| - 1];
      FilterMembers(init, p);
      assert models == init + [last];
    }
  }

  /** `picked` are positions in `models`, in increasing order, exactly those that satisfy `p`; and `out` has
      the elements there. */
  ghost predicate PicksOut(out: seq<ModelSpec>, models: seq<ModelSpec>, p: ModelSpec -> bool, picked: seq<nat>) {
    && |out| == |picked|
    && (forall i, j :: 0 <= i < j < |picked| ==> picked[i] < picked[j])
    && (forall i :: 0 <= i < |picked| ==> picked[i] < |models| && p(models[picked[i]]) && out[i] == models[picked[i]])
    && (forall k :: 0 <= k < |models| && p(models[k]) ==> Picked(picked, k))
  }

  ghost predicate Picked(picked: seq<nat>, k: int) {
    exists i :: 0 <= i < |picked| && picked[i] == k
  }

  lemma PicksOneMore(out: seq<ModelSpec>, init: seq<ModelSpec>, p: ModelSpec -> bool, picked: seq<nat>, last: ModelSpec)
    ensures PicksOut(out, init, p, picked) ==>
              if p(last) then PicksOut(out + [last], init + [last], p, picked + [|init|])
              else PicksOut(out, init + [last], p, picked)
  {
    forall k | 0 <= k < |init| && Picked(picked, k) ensures Picked(picked + [|init|], k) {
      var i :| 0 <= i < |picked| && picked[i] == k;
      assert (picked + [|init|])[i] == k;
    }
    assert (picked + [|init|])[|picked|] == |init|;
  }

  /** The filter keeps the elements at the positions that satisfy `p`, in their order, once each. */
  lemma {:induction false} FilterInOrder(models: seq<ModelSpec>, p: ModelSpec -> bool) returns (picked: seq<nat>)
    ensures PicksOut(Filter(models, p), models, p, picked)
  {
    if models == [] {
      picked := [];
    } else {
      var init, last := models[..|models| - 1], models[|models| - 1];
      var earlier := FilterInOrder(init, p);
      PicksOneMore(Filter(init, p), init, p, earlier, last);
      assert models == init + [last];
      picked := if p(last) then earlier + [|init|] else earlier;
    }
  }

  lemma {:induction false} FilterDistinct(models: seq<ModelSpec>, p: ModelSpec -> bool)
    requires DistinctIds(models)
    ensures DistinctIds(Filter(models, p))
  {
    if models != [] {
      var init, last := models[..|models| - 1], models[|models| - 1];
      FilterDistinct(init, p);
      FilterMembers(init, p);
      assert forall m :: m in init ==> m.id != last.id;
    }
  }
}
