/** The in-memory store: two maps of records, deep-copied on the way in and on the way out. */
module MemoryStore {
  import opened Specs
  import opened DeepCopy

  class MemStore {
    var users: map<string, UserObject>
    var models: map<string, ModelObject>

    /** What each half holds as values, and the memory each half owns. */
    ghost var userView: map<string, UserSpec>
    ghost var modelView: map<string, ModelSpec>
    ghost var userRepr: set<object>
    ghost var modelRepr: set<object>

    /** Every user record reads as its value, within the store's memory, under its own id. */
    ghost predicate UsersValid()
      reads this`users, this`userView, this`userRepr, userRepr
    {
      FilesUsers(users, userView, userRepr)
    }

    ghost predicate ModelsValid()
      reads this`models, this`modelView, this`modelRepr, modelRepr
    {
      FilesModels(models, modelView, modelRepr)
    }

    ghost predicate Valid()
      reads this, userRepr, modelRepr
    {
      this !in userRepr && this !in modelRepr && UsersValid() && ModelsValid()
    }

    ghost function Repr(): set<object>
      reads this
    {
      {this} + userRepr + modelRepr
    }

    /** The store as a value. */
    ghost function View(): Store
      reads this
    {
      Store(userView, modelView)
    }

    constructor ()
      ensures Valid() && fresh(Repr())
      ensures View() == EMPTY_STORE
    {
      users, models := map[], map[];
      userView, modelView, userRepr, modelRepr := map[], map[], {}, {};
    }

    method GetUser(id: string) returns (r: Option<UserObject>, ghost repr: set<object>)
      requires Valid()
      ensures fresh(repr)
      ensures r.Some? <==> id in userView
      ensures r.Some? ==> UserHolds(r.value, repr, userView[id])
    {
      if id !in users {
        return None, {};
      }
      var c, cRepr := CopyUser(users[id], userRepr, userView[id]);
      return Some(c), cRepr;
    }

    method UserExists(id: string) returns (b: bool)
      requires Valid()
      ensures b <==> id in userView
    {
      return id in users;
    }

    method GetModel(id: string) returns (r: Option<ModelObject>, ghost repr: set<object>)
      requires Valid()
      ensures fresh(repr)
      ensures r.Some? <==> id in modelView
      ensures r.Some? ==> ModelHolds(r.value, repr, modelView[id])
    {
      if id !in models {
        return None, {};
      }
      var c, cRepr := CopyModel(models[id], modelRepr, modelView[id]);
      return Some(c), cRepr;
    }

    method ModelExists(id: string) returns (b: bool)
      requires Valid()
      ensures b <==> id in modelView
    {
      return id in models;
    }

    /** `s.users[id] = c` for a record of memory of its own. */
    method PutUser(c: UserObject, ghost repr: set<object>, ghost v: UserSpec)
      requires Valid() && UserHolds(c, repr, v) && this !in repr && v.id != ""
      modifies this`users, this`userView, this`userRepr
      ensures Valid() && userRepr == old(userRepr) + repr
      ensures userView == old(userView)[v.id := v]
    {
      FilesOneMoreUser(users, userView, userRepr, c, repr, v);
      users := users[c.id := c];
      userView := userView[v.id := v];
      userRepr := userRepr + repr;
    }

    /** A nil record or an empty id is refused and changes nothing. */
    method SyncUser(user: UserObject?, ghost from: set<object>, ghost v: UserSpec) returns (ok: bool)
      requires Valid()
      requires user != null ==> UserHolds(user, from, v)
      modifies this`users, this`userView, this`userRepr
      ensures Valid() && fresh(userRepr - old(userRepr))
      ensures ok <==> user != null && v.id != ""
      ensures View() == if user == null then old(View()) else Apply(Write.SyncUser(v), old(View()))
    {
      if user == null {
        return false;
      }
      if user.id == "" {
        return false;
      }
      var c, repr := CopyUser(user, from, v);
      PutUser(c, repr, v);
      return true;
    }

    method DeleteUser(id: string)
      requires Valid()
      modifies this`users, this`userView
      ensures Valid()
      ensures View() == Apply(Write.DeleteUser(id), old(View()))
    {
      users := users - {id};
      userView := userView - {id};
    }

    method PutModel(c: ModelObject, ghost repr: set<object>, ghost v: ModelSpec)
      requires Valid() && ModelHolds(c, repr, v) && this !in repr && v.id != ""
      modifies this`models, this`modelView, this`modelRepr
      ensures Valid() && modelRepr == old(modelRepr) + repr
      ensures modelView == old(modelView)[v.id := v]
    {
      FilesOneMoreModel(models, modelView, modelRepr, c, repr, v);
      models := models[c.id := c];
      modelView := modelView[v.id := v];
      modelRepr := modelRepr + repr;
    }

    method SyncModel(model: ModelObject?, ghost from: set<object>, ghost v: ModelSpec) returns (ok: bool)
      requires Valid()
      requires model != null ==> ModelHolds(model, from, v)
      modifies this`models, this`modelView, this`modelRepr
      ensures Valid() && fresh(modelRepr - old(modelRepr))
      ensures ok <==> model != null && v.id != ""
      ensures View() == if model == null then old(View()) else Apply(Write.SyncModel(v), old(View()))
    {
      if model == null {
        return false;
      }
      if model.id == "" {
        return false;
      }
      var c, repr := CopyModel(model, from, v);
      PutModel(c, repr, v);
      return true;
    }

    method DeleteModel(id: string)
      requires Valid()
      modifies this`models, this`modelView
      ensures Valid()
      ensures View() == Apply(Write.DeleteModel(id), old(View()))
    {
      models := models - {id};
      modelView := modelView - {id};
    }

    /** The loop body of `ListModelsByType`: a record of the wanted type is copied and appended. */
    method ListEntry(id: string, modelType: string, r: seq<ModelObject>, ghost reprs: seq<set<object>>,
                     ghost values: seq<ModelSpec>, ghost mem: set<object>, ghost before: set<object>)
      returns (r': seq<ModelObject>, ghost reprs': seq<set<object>>,
               ghost values': seq<ModelSpec>, ghost mem': set<object>)
      requires Valid() && id in models && CopiesOf(r, reprs, values, mem) && mem !! before
      ensures CopiesOf(r', reprs', values', mem') && mem' !! before
      ensures values' == if modelView[id].modelType == modelType then values + [modelView[id]] else values
    {
      if models[id].modelType == modelType {
        var c, repr := CopyModel(models[id], modelRepr, modelView[id]);
        CopiesOneMore(r, reprs, values, mem, c, repr, modelView[id]);
        return r + [c], reprs + [repr], values + [modelView[id]], mem + repr;
      }
      return r, reprs, values, mem;
    }

    /** The models of one type in any order, each once, each a copy with new memory of its own. */
    method ListModelsByType(modelType: string)
      returns (r: seq<ModelObject>, ghost reprs: seq<set<object>>, ghost values: seq<ModelSpec>, ghost mem: set<object>)
      requires Valid()
      ensures CopiesOf(r, reprs, values, mem) && fresh(mem)
      ensures ListsModels(values, modelView, modelType)
    {
      ghost var before := set o: object {:trigger allocated(o)} | allocated(o);
      r, reprs, values, mem := [], [], [], {};
      var todo := models.Keys;
      ghost var visited: seq<string> := [];
      while todo != {}
        invariant todo <= models.Keys && Visits(visited, models.Keys - todo)
        invariant values == Select(visited, modelView, modelType)
        invariant CopiesOf(r, reprs, values, mem) && mem !! before
        decreases |todo|
      {
        var id :| id in todo;
        VisitOneMore(visited, models.Keys, todo, id);
        SelectOneMore(visited, id, modelView, modelType);
        visited, todo := visited + [id], todo - {id};
        r, reprs, values, mem := ListEntry(id, modelType, r, reprs, values, mem, before);
      }
      SelectLists(visited, modelView, modelType);
    }
  }

  /** Every record reads as its value, within `repr`, and is filed under its own id. */
  ghost predicate FilesUsers(users: map<string, UserObject>, view: map<string, UserSpec>, repr: set<object>)
    reads repr
  {
    && users.Keys == view.Keys
    && forall id :: id in users ==> UserHolds(users[id], repr, view[id]) && view[id].id == id && id != ""
  }

  ghost predicate FilesModels(models: map<string, ModelObject>, view: map<string, ModelSpec>, repr: set<object>)
    reads repr
  {
    && models.Keys == view.Keys
    && forall id :: id in models ==> ModelHolds(models[id], repr, view[id]) && view[id].id == id && id != ""
  }

  lemma FilesOneMoreUser(users: map<string, UserObject>, view: map<string, UserSpec>, repr: set<object>,
                         c: UserObject, cRepr: set<object>, v: UserSpec)
    requires FilesUsers(users, view, repr) && UserHolds(c, cRepr, v) && v.id != ""
    ensures FilesUsers(users[v.id := c], view[v.id := v], repr + cRepr)
  {
  }

  lemma FilesOneMoreModel(models: map<string, ModelObject>, view: map<string, ModelSpec>, repr: set<object>,
                          c: ModelObject, cRepr: set<object>, v: ModelSpec)
    requires FilesModels(models, view, repr) && ModelHolds(c, cRepr, v) && v.id != ""
    ensures FilesModels(models[v.id := c], view[v.id := v], repr + cRepr)
  {
    var all := repr + cRepr;
    ModelHoldsInMore(c, cRepr, all, v);
    forall id | id in models ensures ModelHolds(models[id], all, view[id]) {
      ModelHoldsInMore(models[id], repr, all, view[id]);
    }
  }

  /** `visited` goes through `ids` once each: an order in which Go may range over a map. */
  ghost predicate Visits(visited: seq<string>, ids: set<string>) {
    && (forall id :: id in visited <==> id in ids)
    && (forall i, j :: 0 <= i < j < |visited| ==> visited[i] != visited[j])
  }

  lemma VisitOneMore(visited: seq<string>, ids: set<string>, todo: set<string>, id: string)
    requires todo <= ids && Visits(visited, ids - todo) && id in todo
    ensures Visits(visited + [id], ids - (todo - {id}))
  {
  }

  /** The entries of one type in visiting order. */
  ghost function Select(visited: seq<string>, view: map<string, ModelSpec>, modelType: string): seq<ModelSpec> {
    if visited == [] then []
    else
      var init, id := Select(visited[..|visited| - 1], view, modelType), visited[|visited| - 1];
      if id in view && view[id].modelType == modelType then init + [view[id]] else init
  }

  lemma SelectOneMore(visited: seq<string>, id: string, view: map<string, ModelSpec>, modelType: string)
    ensures Select(visited + [id], view, modelType) ==
            if id in view && view[id].modelType == modelType then Select(visited, view, modelType) + [view[id]]
            else Select(visited, view, modelType)
  {
    assert (visited + [id])[..|visited|] == visited;
  }

  lemma {:induction false} SelectMembers(visited: seq<string>, view: map<string, ModelSpec>, modelType: string)
    requires forall id :: id in view ==> view[id].id == id
    requires forall i, j :: 0 <= i < j < |visited| ==> visited[i] != visited[j]
    ensures var values := Select(visited, view, modelType);
            && (forall m :: m in values <==>
                  m.id in visited && m.id in view && view[m.id] == m && m.modelType == modelType)
            && DistinctIds(values)
  {
    if visited != [] {
      var init, id := visited[..|visited| - 1], visited[|visited| - 1];
      assert visited == init + [id];
      SelectMembers(init, view, modelType);
      assert id !in init;
    }
  }

  lemma SelectLists(visited: seq<string>, view: map<string, ModelSpec>, modelType: string)
    requires forall id :: id in view ==> view[id].id == id
    requires Visits(visited, view.Keys)
    ensures ListsModels(Select(visited, view, modelType), view, modelType)
  {
    SelectMembers(visited, view, modelType);
    var values := Select(visited, view, modelType);
    assert forall i :: 0 <= i < |values| ==> values[i] in values;
  }

  /** Each record holds its value in memory of its own, all of it within `mem`. */
  ghost predicate CopiesOf(r: seq<ModelObject>, reprs: seq<set<object>>, values: seq<ModelSpec>, mem: set<object>)
    reads mem
  {
    && |r| == |reprs| == |values|
    && (forall i :: 0 <= i < |r| ==> reprs[i] <= mem && ModelHolds(r[i], reprs[i], values[i]))
    && (forall i, j :: 0 <= i < j < |reprs| ==> reprs[i] !! reprs[j])
  }

  lemma CopiesOneMore(r: seq<ModelObject>, reprs: seq<set<object>>, values: seq<ModelSpec>, mem: set<object>,
                      c: ModelObject, repr: set<object>, v: ModelSpec)
    requires CopiesOf(r, reprs, values, mem) && ModelHolds(c, repr, v) && mem !! repr
    ensures CopiesOf(r + [c], reprs + [repr], values + [v], mem + repr)
  {
  }
}
