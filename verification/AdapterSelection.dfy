/** The gateway side of adapter selection: which models become candidates, what is done with the
    sidecar's answer, and the composition with the scorer. */
module AdapterSelection {
  import opened Specs
  import opened Scorer

  /** What comes back over HTTP: a failure of any kind, or a decoded answer. */
  datatype Reply = Failed | Answer(modelId: string, score: real)

  datatype SemanticSelector = SemanticSelector(threshold: real, sidecar: (string, seq<Candidate>) -> Reply)

  /** A LoRA on the requested base model, with at least one description. */
  predicate Eligible(m: ModelSpec, base: string) {
    && m.modelType == MODEL_TYPE_LORA
    && m.baseModelId == base
    && m.descriptions.Present?
    && m.descriptions.value != []
  }

  function CandidateOf(m: ModelSpec): Candidate
    requires m.descriptions.Present?
  {
    Candidate(m.id, m.descriptions.value)
  }

  function CandidatesOf(allowed: seq<ModelSpec>, base: string): seq<Candidate> {
    if allowed == [] then []
    else
      var init, last := CandidatesOf(allowed[..|allowed| - 1], base), allowed[|allowed| - 1];
      if Eligible(last, base) then init + [CandidateOf(last)] else init
  }

  /** The lookup map; among eligible models of one id the last stays. */
  function ModelsById(allowed: seq<ModelSpec>, base: string): map<string, ModelSpec> {
    if allowed == [] then map[]
    else
      var init, last := ModelsById(allowed[..|allowed| - 1], base), allowed[|allowed| - 1];
      if Eligible(last, base) then init[last.id := last] else init
  }

  function PickSpec(sel: SemanticSelector, prompt: string, base: string, allowed: seq<ModelSpec>): Option<ModelSpec> {
    var candidates := CandidatesOf(allowed, base);
    var byId := ModelsById(allowed, base);
    if prompt == "" || candidates == [] then None
    else
      match sel.sidecar(prompt, candidates)
      case Failed => None
      case Answer(id, score) => if score < sel.threshold || id !in byId then None else Some(byId[id])
  }

  method Pick(sel: SemanticSelector, prompt: string, base: string, allowed: seq<ModelSpec>)
    returns (selected: Option<ModelSpec>)
    ensures selected == PickSpec(sel, prompt, base, allowed)
  {
    if prompt == "" {
      return None;
    }
    var byId: map<string, ModelSpec> := map[];
    var candidates: seq<Candidate> := [];
    for i := 0 to |allowed|
      invariant byId == ModelsById(allowed[..i], base)
      invariant candidates == CandidatesOf(allowed[..i], base)
    {
      assert allowed[..i + 1][..i] == allowed[..i];
      var m := allowed[i];
      if m.modelType != MODEL_TYPE_LORA || m.baseModelId != base {
        continue;
      }
      if m.descriptions.Nil? || |m.descriptions.value| == 0 {
        continue;
      }
      byId := byId[m.id := m];
      candidates := candidates + [Candidate(m.id, m.descriptions.value)];
    }
    assert allowed[..|allowed|] == allowed;
    if |candidates| == 0 {
      return None;
    }
    var reply := sel.sidecar(prompt, candidates);
    match reply {
      case Failed =>
        return None;
      case Answer(id, score) =>
        if score < sel.threshold {
          return None;
        }
        if id !in byId {
          return None;
        }
        return Some(byId[id]);
    }
  }

  lemma {:induction false} CandidateMembers(allowed: seq<ModelSpec>, base: string)
    ensures forall m :: m in allowed && Eligible(m, base) ==> CandidateOf(m) in CandidatesOf(allowed, base)
    ensures forall c :: c in CandidatesOf(allowed, base) ==>
              exists m :: m in allowed && Eligible(m, base) && CandidateOf(m) == c
  {
    if allowed != [] {
      var init, last := allowed[..|allowed| - 1], allowed[|allowed| - 1];
      assert allowed == init + [last];
      CandidateMembers(init, base);
    }
  }

  lemma {:induction false} LookupMembers(allowed: seq<ModelSpec>, base: string)
    ensures forall id :: id in ModelsById(allowed, base) ==>
              var m := ModelsById(allowed, base)[id]; m in allowed && Eligible(m, base) && m.id == id
    ensures forall m :: m in allowed && Eligible(m, base) ==> m.id in ModelsById(allowed, base)
  {
    if allowed != [] {
      var init, last := allowed[..|allowed| - 1], allowed[|allowed| - 1];
      assert allowed == init + [last];
      LookupMembers(init, base);
    }
  }

  /** The sidecar is offered the eligible models, in the order of the list, each with its id and all its
      descriptions. */
  lemma {:induction false} CandidatesInOrder(allowed: seq<ModelSpec>, base: string)
    ensures var eligible := Filter(allowed, (m: ModelSpec) => Eligible(m, base));
            && |CandidatesOf(allowed, base)| == |eligible|
            && forall i :: 0 <= i < |eligible| ==>
                 && eligible[i].descriptions.Present?
                 && CandidatesOf(allowed, base)[i] == Candidate(eligible[i].id, eligible[i].descriptions.value)
  {
    if allowed != [] {
      CandidatesInOrder(allowed[..|allowed| - 1], base);
    }
  }

  /** For any sidecar: a model is selected exactly when there is a prompt and the answer is a score at the
      threshold or above for the id of an eligible model of the list; and it is such a model. */
  lemma PickIsConfined(sel: SemanticSelector, prompt: string, base: string, allowed: seq<ModelSpec>)
    ensures var r := PickSpec(sel, prompt, base, allowed);
            var answer := sel.sidecar(prompt, CandidatesOf(allowed, base));
            && (r.Some? <==>
                  && prompt != ""
                  && answer.Answer? && answer.score >= sel.threshold
                  && exists m :: m in allowed && Eligible(m, base) && m.id == answer.modelId)
            && (r.Some? ==> r.value in allowed && Eligible(r.value, base) && r.value.id == answer.modelId)
  {
    LookupMembers(allowed, base);
    CandidateMembers(allowed, base);
  }

  /** The sidecar's handler: a missing id travels as the empty string. */
  function FastembedSidecar(e: Embedder): (string, seq<Candidate>) -> Reply
    requires e.Valid()
  {
    (prompt, candidates) =>
      var (id, score) := PickBestSpec(e, prompt, candidates);
      Answer(if id.Some? then id.value else "", score)
  }

  /** Some description of the model has this similarity to the prompt. */
  ghost predicate DescribedAt(e: Embedder, prompt: string, m: ModelSpec, x: real)
    requires e.Valid() && m.descriptions.Present?
  {
    exists d :: d in m.descriptions.value && e.Similarity(prompt, d) == x
  }

  /** With the fastembed scorer behind it and models drawn from the store (distinct, non-empty ids), a
      model is selected exactly when some eligible model has a description whose similarity is above
      -1 and at least the threshold; the selected model attains the best similarity of all. The
      sidecar's empty id for "no match" therefore never selects anything, at any threshold. */
  lemma SelectionEndToEnd(e: Embedder, threshold: real, prompt: string, base: string, allowed: seq<ModelSpec>)
    requires e.Valid() && prompt != "" && DistinctIds(allowed) && forall m :: m in allowed ==> m.id != ""
    ensures var r := PickSpec(SemanticSelector(threshold, FastembedSidecar(e)), prompt, base, allowed);
            && (r.Some? <==> exists m, x ::
                  m in allowed && Eligible(m, base) && DescribedAt(e, prompt, m, x) && x > -1.0 && x >= threshold)
            && (r.Some? ==> Eligible(r.value, base) && exists best ::
                  && DescribedAt(e, prompt, r.value, best) && best > -1.0 && best >= threshold
                  && forall m, x :: m in allowed && Eligible(m, base) && DescribedAt(e, prompt, m, x) ==> x <= best)
  {
    var candidates := CandidatesOf(allowed, base);
    var r := PickSpec(SemanticSelector(threshold, FastembedSidecar(e)), prompt, base, allowed);
    CandidateMembers(allowed, base);
    LookupMembers(allowed, base);
    PickFromIsArgmax(e, prompt, candidates);
    var (id, best) := PickFrom(e, prompt, candidates);
    forall m, x | m in allowed && Eligible(m, base) && DescribedAt(e, prompt, m, x) ensures x <= best {
      assert CandidateOf(m) in candidates;
    }
    if id.Some? {
      var k :| FirstAttaining(e, prompt, candidates, k, best) && candidates[k].modelId == id.value;
      assert candidates[k] in candidates;
      var winner :| winner in allowed && Eligible(winner, base) && CandidateOf(winner) == candidates[k];
      assert DescribedAt(e, prompt, winner, best);
      assert ModelsById(allowed, base)[winner.id] == winner;
      assert best >= threshold ==> r == Some(winner);
    } else {
      assert "" !in ModelsById(allowed, base);
    }
  }
}
