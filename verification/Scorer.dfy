/** The semantic scorer of the sidecar: an embedding cache, and the choice of the candidate whose
    descriptions come closest to the prompt. */
module Scorer {
  import opened Specs
  import opened Vectors

  datatype Candidate = Candidate(modelId: string, descriptions: seq<string>)

  /** The embedding model and the library's vector norm, as functions. */
  datatype Embedder = Embedder(dimension: nat, embed: string -> Vector, norm: Vector -> real) {
    ghost predicate Valid() {
      forall t :: |embed(t)| == dimension && IsNorm(norm(embed(t)), embed(t))
    }

    /** The normalized embedding of a text. */
    function Unit(t: string): Vector {
      Normalize(embed(t), norm(embed(t)))
    }

    function Similarity(prompt: string, description: string): real
      requires Valid()
    {
      Dot(Unit(description), Unit(prompt))
    }
  }

  // ----- The cosine, from the embeddings and their norms -----------------------------------------

  /** `x` is the cosine between the embeddings of the description and the prompt; 0 if one of them has no
      length. */
  ghost predicate IsCosine(e: Embedder, prompt: string, description: string, x: real)
    requires e.Valid()
  {
    var a, b := e.embed(description), e.embed(prompt);
    if e.norm(a) == 0.0 || e.norm(b) == 0.0 then x == 0.0 else x * (e.norm(a) * e.norm(b)) == Dot(a, b)
  }

  /** The similarity computed from normalized embeddings is the cosine, and nothing else is. */
  lemma SimilarityIsCosine(e: Embedder, prompt: string, description: string, x: real)
    requires e.Valid()
    ensures IsCosine(e, prompt, description, x) <==> x == e.Similarity(prompt, description)
  {
    var a, b := e.embed(description), e.embed(prompt);
    var m, n := e.norm(a), e.norm(b);
    if m == 0.0 {
      ZeroVectorDot(a, m, b, n);
    } else if n == 0.0 {
      ZeroVectorDot(b, n, a, m);
      DotSymmetric(Normalize(a, m), b);
    } else {
      var c := m * n;
      ProductNonZero(m, n);
      DotScales(a, m, b, n, c);
      if IsCosine(e, prompt, description, x) {
        Cancel(x, e.Similarity(prompt, description), c);
      }
    }
  }

  lemma ProductNonZero(m: real, n: real)
    requires m > 0.0 && n > 0.0
    ensures m * n != 0.0
  {
  }

  function Similarities(e: Embedder, prompt: string, descriptions: seq<string>): seq<real>
    requires e.Valid()
  {
    seq(|descriptions|, i requires 0 <= i < |descriptions| => e.Similarity(prompt, descriptions[i]))
  }

  /** The greatest element (`np.max`). */
  function MaxOf(s: seq<real>): (m: real)
    requires |s| > 0
    ensures exists i :: 0 <= i < |s| && s[i] == m
    ensures forall i :: 0 <= i < |s| ==> s[i] <= m
  {
    if |s| == 1 then s[0]
    else
      var rest, last := MaxOf(s[..|s| - 1]), s[|s| - 1];
      assert exists i :: 0 <= i < |s| - 1 && s[i] == rest by {
        var i :| 0 <= i < |s| - 1 && s[..|s| - 1][i] == rest;
        assert s[i] == rest;
      }
      assert forall i :: 0 <= i < |s| - 1 ==> s[i] == s[..|s| - 1][i];
      if last > rest then last else rest
  }

  /** The scorer without a cache, over a non-empty list: candidates in order, a later one replacing an
      earlier one only when strictly better, starting from no candidate and score -1. */
  function PickFrom(e: Embedder, prompt: string, candidates: seq<Candidate>): (Option<string>, real)
    requires e.Valid()
  {
    if candidates == [] then (None, -1.0)
    else
      var best := PickFrom(e, prompt, candidates[..|candidates| - 1]);
      var last := candidates[|candidates| - 1];
      if last.descriptions == [] then best
      else
        var m := MaxOf(Similarities(e, prompt, last.descriptions));
        if m > best.1 then (Some(last.modelId), m) else best
  }

  function PickBestSpec(e: Embedder, prompt: string, candidates: seq<Candidate>): (Option<string>, real)
    requires e.Valid()
  {
    if candidates == [] then (None, 0.0) else PickFrom(e, prompt, candidates)
  }

  /** The module with its module-level cache. */
  class Selector {
    const e: Embedder
    var cache: map<string, Vector>

    ghost predicate Valid()
      reads this
    {
      && e.Valid()
      && forall t :: t in cache ==> cache[t] == e.Unit(t)
    }

    constructor (e: Embedder)
      requires e.Valid()
      ensures Valid() && this.e == e && cache == map[]
    {
      this.e := e;
      cache := map[];
    }

    /** Returns the normalized embedding of every text; the cache gains exactly the texts and keeps
        the value of every earlier entry. */
    method Embed(texts: seq<string>) returns (r: seq<Vector>)
      requires Valid()
      modifies this`cache
      ensures Valid()
      ensures r == seq(|texts|, i requires 0 <= i < |texts| => e.Unit(texts[i]))
      ensures cache.Keys == old(cache.Keys) + set t | t in texts
      ensures forall t :: t in old(cache) ==> cache[t] == old(cache[t])
    {
      var uncached: seq<string> := [];
      for i := 0 to |texts|
        invariant forall t :: t in uncached <==> t in texts[..i] && t !in cache
      {
        assert texts[..i + 1] == texts[..i] + [texts[i]];
        if texts[i] !in cache {
          uncached := uncached + [texts[i]];
        }
      }
      assert texts[..|texts|] == texts;
      if uncached != [] {
        var embeddings := seq(|uncached|, i requires 0 <= i < |uncached| => e.embed(uncached[i]));
        for i := 0 to |uncached|
          invariant Valid()
          invariant cache.Keys == old(cache.Keys) + set t | t in uncached[..i]
          invariant forall t :: t in old(cache) ==> cache[t] == old(cache[t])
        {
          assert uncached[..i + 1] == uncached[..i] + [uncached[i]];
          var norm := e.norm(embeddings[i]);
          cache := cache[uncached[i] := Normalize(embeddings[i], norm)];
        }
        assert uncached[..|uncached|] == uncached;
      }
      r := seq(|texts|, i requires 0 <= i < |texts| && texts[i] in cache reads this => cache[texts[i]]);
    }

    /** Whatever earlier calls left in the cache, the answer is that of the scorer without a cache. */
    method PickBest(prompt: string, candidates: seq<Candidate>) returns (modelId: Option<string>, score: real)
      requires Valid()
      modifies this`cache
      ensures Valid()
      ensures (modelId, score) == PickBestSpec(e, prompt, candidates)
      ensures BestPick(e, prompt, candidates, modelId, score)
      ensures old(cache.Keys) <= cache.Keys
      ensures forall t :: t in old(cache) ==> cache[t] == old(cache[t])
    {
      PickIsArgmax(e, prompt, candidates);
      if candidates == [] {
        return None, 0.0;
      }
      var promptEmbedding := Embed([prompt]);
      modelId, score := None, -1.0;
      for i := 0 to |candidates|
        invariant Valid()
        invariant (modelId, score) == PickFrom(e, prompt, candidates[..i])
        invariant old(cache.Keys) <= cache.Keys
        invariant forall t :: t in old(cache) ==> cache[t] == old(cache[t])
      {
        assert candidates[..i + 1][..i] == candidates[..i];
        var descriptions := candidates[i].descriptions;
        if descriptions == [] {
          continue;
        }
        var embeddings := Embed(descriptions);
        var similarities := seq(|descriptions|, k requires 0 <= k < |descriptions| =>
          Dot(embeddings[k], promptEmbedding[0]));
        assert similarities == Similarities(e, prompt, descriptions);
        var best := MaxOf(similarities);
        if best > score {
          score := best;
          modelId := Some(candidates[i].modelId);
        }
      }
      assert candidates[..|candidates|] == candidates;
    }
  }

  // ----- What the choice means --------------------------------------------------------------

  /** Some description of the candidate has exactly this similarity to the prompt. */
  ghost predicate Attains(e: Embedder, prompt: string, c: Candidate, x: real)
    requires e.Valid()
  {
    exists d :: d in c.descriptions && e.Similarity(prompt, d) == x
  }

  /** No description of any candidate is closer to the prompt than `x`. */
  ghost predicate UpperBound(e: Embedder, prompt: string, candidates: seq<Candidate>, x: real)
    requires e.Valid()
  {
    forall c, d :: c in candidates && d in c.descriptions ==> e.Similarity(prompt, d) <= x
  }

  /** Candidate `k` is the first that attains `x`. */
  ghost predicate FirstAttaining(e: Embedder, prompt: string, candidates: seq<Candidate>, k: int, x: real)
    requires e.Valid()
  {
    && 0 <= k < |candidates|
    && Attains(e, prompt, candidates[k], x)
    && forall j :: 0 <= j < k ==> !Attains(e, prompt, candidates[j], x)
  }

  lemma MaxOfSimilarities(e: Embedder, prompt: string, c: Candidate)
    requires e.Valid() && c.descriptions != []
    ensures var m := MaxOf(Similarities(e, prompt, c.descriptions));
            Attains(e, prompt, c, m) && forall d :: d in c.descriptions ==> e.Similarity(prompt, d) <= m
  {
    var sims := Similarities(e, prompt, c.descriptions);
    var m := MaxOf(sims);
    var i :| 0 <= i < |sims| && sims[i] == m;
    assert c.descriptions[i] in c.descriptions;
    forall d | d in c.descriptions ensures e.Similarity(prompt, d) <= m {
      var j :| 0 <= j < |c.descriptions| && c.descriptions[j] == d;
      assert sims[j] <= m;
    }
  }

  lemma {:induction false} PickFromIsArgmax(e: Embedder, prompt: string, candidates: seq<Candidate>)
    requires e.Valid()
    ensures var (id, score) := PickFrom(e, prompt, candidates);
            && UpperBound(e, prompt, candidates, score)
            && (id.None? ==> score == -1.0)
            && (id.Some? ==> score > -1.0 && exists k ::
                  FirstAttaining(e, prompt, candidates, k, score) && candidates[k].modelId == id.value)
  {
    if candidates != [] {
      var n := |candidates| - 1;
      var init, last := candidates[..n], candidates[n];
      assert candidates == init + [last];
      PickFromIsArgmax(e, prompt, init);
      var (oldId, oldScore) := PickFrom(e, prompt, init);
      if oldId.Some? {
        var k :| FirstAttaining(e, prompt, init, k, oldScore) && init[k].modelId == oldId.value;
        assert FirstAttaining(e, prompt, candidates, k, oldScore);
      }
      if last.descriptions != [] {
        MaxOfSimilarities(e, prompt, last);
        var m := MaxOf(Similarities(e, prompt, last.descriptions));
        if m > oldScore {
          forall j | 0 <= j < n ensures !Attains(e, prompt, candidates[j], m) {
            assert candidates[j] in init;
          }
          assert FirstAttaining(e, prompt, candidates, n, m);
        }
      }
    }
  }

  /** Some description of the candidate has this cosine to the prompt. */
  ghost predicate Reaches(e: Embedder, prompt: string, c: Candidate, x: real)
    requires e.Valid()
  {
    exists d :: d in c.descriptions && IsCosine(e, prompt, d, x)
  }

  /** What `pick_best` is to return, in terms of cosines alone: nothing for no candidates; otherwise the
      greatest cosine over every description of every candidate, floored at -1, and the id of the first
      candidate that reaches it, or no id if nothing is above -1. */
  ghost predicate BestPick(e: Embedder, prompt: string, candidates: seq<Candidate>, id: Option<string>, score: real)
    requires e.Valid()
  {
    if candidates == [] then
      id.None? && score == 0.0
    else
      && (forall c, d, x :: c in candidates && d in c.descriptions && IsCosine(e, prompt, d, x) ==> x <= score)
      && (id.None? ==> score == -1.0)
      && (id.Some? ==> score > -1.0 && exists k :: FirstReaching(e, prompt, candidates, k, score, id.value))
  }

  ghost predicate FirstReaching(e: Embedder, prompt: string, candidates: seq<Candidate>, k: int, x: real, id: string)
    requires e.Valid()
  {
    && 0 <= k < |candidates|
    && candidates[k].modelId == id
    && Reaches(e, prompt, candidates[k], x)
    && forall j :: 0 <= j < k ==> !Reaches(e, prompt, candidates[j], x)
  }

  lemma ReachesIsAttains(e: Embedder, prompt: string, c: Candidate, x: real)
    requires e.Valid()
    ensures Reaches(e, prompt, c, x) <==> Attains(e, prompt, c, x)
  {
    forall d | d in c.descriptions ensures IsCosine(e, prompt, d, x) <==> e.Similarity(prompt, d) == x {
      SimilarityIsCosine(e, prompt, d, x);
    }
  }

  /** The scorer returns the best pick. */
  lemma PickIsArgmax(e: Embedder, prompt: string, candidates: seq<Candidate>)
    requires e.Valid()
    ensures var (id, score) := PickBestSpec(e, prompt, candidates); BestPick(e, prompt, candidates, id, score)
  {
    if candidates != [] {
      PickFromIsArgmax(e, prompt, candidates);
      var (id, score) := PickFrom(e, prompt, candidates);
      forall c, d, x | c in candidates && d in c.descriptions && IsCosine(e, prompt, d, x) ensures x <= score {
        SimilarityIsCosine(e, prompt, d, x);
      }
      if id.Some? {
        var k :| FirstAttaining(e, prompt, candidates, k, score) && candidates[k].modelId == id.value;
        forall j | 0 <= j <= k ensures Reaches(e, prompt, candidates[j], score) <==> j == k {
          ReachesIsAttains(e, prompt, candidates[j], score);
        }
        assert FirstReaching(e, prompt, candidates, k, score, id.value);
      }
    }
  }

  /** ... and there is only one. */
  lemma BestPickIsUnique(e: Embedder, prompt: string, candidates: seq<Candidate>,
                         id: Option<string>, score: real, id': Option<string>, score': real)
    requires e.Valid() && BestPick(e, prompt, candidates, id, score) && BestPick(e, prompt, candidates, id', score')
    ensures id == id' && score == score'
  {
    if candidates != [] {
      if id.Some? {
        ReachedIsBounded(e, prompt, candidates, score, id.value, score');
      }
      if id'.Some? {
        ReachedIsBounded(e, prompt, candidates, score', id'.value, score);
      }
    }
  }

  lemma ReachedIsBounded(e: Embedder, prompt: string, candidates: seq<Candidate>, x: real, id: string, y: real)
    requires e.Valid() && exists k :: FirstReaching(e, prompt, candidates, k, x, id)
    requires forall c, d, z :: c in candidates && d in c.descriptions && IsCosine(e, prompt, d, z) ==> z <= y
    ensures x <= y
  {
    var k :| FirstReaching(e, prompt, candidates, k, x, id);
    assert candidates[k] in candidates;
  }

  /** Every similarity is a cosine. */
  lemma SimilarityBound(e: Embedder, prompt: string, description: string)
    requires e.Valid()
    ensures -1.0 <= e.Similarity(prompt, description) <= 1.0
  {
    CosineBound(e.embed(description), e.norm(e.embed(description)), e.embed(prompt), e.norm(e.embed(prompt)));
  }

  /** No id comes back exactly when there is no description at all or every description of every
      candidate has similarity -1; the score is 0 for an empty list and lies in [-1, 1] always. */
  lemma NoMatchExactly(e: Embedder, prompt: string, candidates: seq<Candidate>)
    requires e.Valid()
    ensures var (id, score) := PickBestSpec(e, prompt, candidates);
            && (id.None? <==> forall c, d :: c in candidates && d in c.descriptions ==> e.Similarity(prompt, d) == -1.0)
            && (id.None? ==> score == if candidates == [] then 0.0 else -1.0)
            && -1.0 <= score <= 1.0
  {
    PickFromIsArgmax(e, prompt, candidates);
    var (id, score) := PickFrom(e, prompt, candidates);
    forall c, d | c in candidates && d in c.descriptions
      ensures -1.0 <= e.Similarity(prompt, d) <= 1.0
    {
      SimilarityBound(e, prompt, d);
    }
    if id.Some? {
      var k :| FirstAttaining(e, prompt, candidates, k, score) && candidates[k].modelId == id.value;
      assert candidates[k] in candidates;
    }
  }

  // ----- Order does not matter ---------------------------------------------------------------

  /** The (id, description) pairs offered, forgetting every order and repetition. */
  ghost function Offers(candidates: seq<Candidate>): set<(string, string)> {
    set c, d | c in candidates && d in c.descriptions :: (c.modelId, d)
  }

  ghost predicate OffersBest(e: Embedder, prompt: string, candidates: seq<Candidate>, id: string, score: real)
    requires e.Valid()
  {
    exists d :: (id, d) in Offers(candidates) && e.Similarity(prompt, d) == score
  }

  lemma PickOverOffers(e: Embedder, prompt: string, candidates: seq<Candidate>)
    requires e.Valid()
    ensures var (id, score) := PickFrom(e, prompt, candidates);
            && (forall o :: o in Offers(candidates) ==> e.Similarity(prompt, o.1) <= score)
            && (id.None? ==> score == -1.0)
            && (id.Some? ==> score > -1.0 && OffersBest(e, prompt, candidates, id.value, score))
  {
    PickFromIsArgmax(e, prompt, candidates);
    var (id, score) := PickFrom(e, prompt, candidates);
    if id.Some? {
      var k :| FirstAttaining(e, prompt, candidates, k, score) && candidates[k].modelId == id.value;
      var d :| d in candidates[k].descriptions && e.Similarity(prompt, d) == score;
      assert candidates[k] in candidates;
      assert (id.value, d) in Offers(candidates);
    }
  }

  /** Lists offering the same pairs get the same score (an empty list gets 0), agree on whether there is a
      match, and agree on the id whenever a single id attains the score. */
  lemma PickIgnoresOrder(e: Embedder, prompt: string, a: seq<Candidate>, b: seq<Candidate>)
    requires e.Valid() && Offers(a) == Offers(b)
    ensures var (idA, scoreA) := PickBestSpec(e, prompt, a);
            var (idB, scoreB) := PickBestSpec(e, prompt, b);
            && ((a == [] <==> b == []) ==> scoreA == scoreB)
            && (idA.None? <==> idB.None?)
            && ((forall x, y ::
                   OffersBest(e, prompt, a, x, scoreA) && OffersBest(e, prompt, a, y, scoreA) ==> x == y) ==>
                  idA == idB)
  {
    PickOverOffers(e, prompt, a);
    PickOverOffers(e, prompt, b);
    var (idA, scoreA) := PickFrom(e, prompt, a);
    var (idB, scoreB) := PickFrom(e, prompt, b);
    if idA.Some? && idB.Some? {
      var dA :| (idA.value, dA) in Offers(a) && e.Similarity(prompt, dA) == scoreA;
      var dB :| (idB.value, dB) in Offers(b) && e.Similarity(prompt, dB) == scoreB;
      assert scoreA == scoreB;
      assert OffersBest(e, prompt, a, idB.value, scoreA);
    }
  }

  /** `b` lists the candidates of `a` in the order `p`, each with its descriptions in some order. */
  ghost predicate Rearranges(a: seq<Candidate>, b: seq<Candidate>, p: seq<nat>) {
    && |p| == |a| == |b|
    && (forall i :: 0 <= i < |p| ==> p[i] < |a|)
    && (forall k: nat :: k < |a| ==> k in p)
    && (forall i :: 0 <= i < |b| ==>
          b[i].modelId == a[p[i]].modelId && multiset(b[i].descriptions) == multiset(a[p[i]].descriptions))
  }

  lemma RearrangingKeepsOffers(a: seq<Candidate>, b: seq<Candidate>, p: seq<nat>)
    requires Rearranges(a, b, p)
    ensures Offers(a) == Offers(b)
  {
    forall o | o in Offers(a) ensures o in Offers(b) {
      var c, d :| c in a && d in c.descriptions && (c.modelId, d) == o;
      var k: nat :| k < |a| && a[k] == c;
      assert k in p;
      var i :| 0 <= i < |p| && p[i] == k;
      assert d in multiset(b[i].descriptions);
      assert b[i] in b;
    }
    forall o | o in Offers(b) ensures o in Offers(a) {
      var c, d :| c in b && d in c.descriptions && (c.modelId, d) == o;
      var i :| 0 <= i < |b| && b[i] == c;
      assert d in multiset(a[p[i]].descriptions);
      assert a[p[i]] in a;
    }
  }
}
