/**
 Planning batches in scripts/selfcorpus/translate.py: greedy packing of documents into provider calls,
 which is optimal.
 */
module Batching {
  import opened Common

  /** A document to be translated into one language. */
  datatype Document = Document(language: string, key: string, text: string)

  const CHARS_PER_TOKEN := 4
  const INPUT_BUDGET := 700

  function EstimateTokens(text: string): (n: nat)
    ensures if |text| < 8 then n == 1 else 4 * n <= |text| < 4 * n + 4
  {
    if |text| / CHARS_PER_TOKEN > 1 then |text| / CHARS_PER_TOKEN else 1
  }

  function Cost(docs: seq<Document>): nat {
    if docs == [] then 0 else EstimateTokens(docs[0].text) + Cost(docs[1..])
  }

  lemma {:induction false} CostAppend(a: seq<Document>, b: seq<Document>)
    ensures Cost(a + b) == Cost(a) + Cost(b)
    decreases |a|
  {
    if a == [] {
      assert a + b == b;
    } else {
      CostAppend(a[1..], b);
      assert (a + b)[1..] == a[1..] + b;
    }
  }

  /** A batch may be a single document of any size; otherwise it keeps to both limits. */
  predicate Admissible(batch: seq<Document>, budget: int, maxItems: int) {
    batch != [] && (|batch| == 1 || (Cost(batch) <= budget && |batch| <= maxItems))
  }

  ghost predicate ValidPlan(docs: seq<Document>, plan: seq<seq<Document>>, budget: int, maxItems: int) {
    Flatten(plan) == docs && forall b | b in plan :: Admissible(b, budget, maxItems)
  }

  /** No batch could have taken the first document of the next one. */
  ghost predicate Greedy(plan: seq<seq<Document>>, budget: int, maxItems: int) {
    |plan| <= 1 ||
    (plan[1] != [] && !Admissible(plan[0] + [plan[1][0]], budget, maxItems) && Greedy(plan[1..], budget, maxItems))
  }

  lemma {:induction false} GreedyCloses(plan: seq<seq<Document>>, last: seq<Document>, next: Document, budget: int, maxItems: int)
    requires Greedy(plan + [last], budget, maxItems) && !Admissible(last + [next], budget, maxItems)
    ensures Greedy(plan + [last] + [[next]], budget, maxItems)
    decreases |plan|
  {
    hide Admissible;
    var longer := plan + [last] + [[next]];
    if plan == [] {
      assert longer == [last, [next]];
      assert Greedy(longer[1..], budget, maxItems);
    } else {
      assert (plan + [last])[1..] == plan[1..] + [last];
      GreedyCloses(plan[1..], last, next, budget, maxItems);
      assert longer[1..] == plan[1..] + [last] + [[next]];
      assert longer[0] == (plan + [last])[0] && longer[1] == (plan + [last])[1];
    }
  }

  lemma {:induction false} GreedyGrows(plan: seq<seq<Document>>, last: seq<Document>, next: Document, budget: int, maxItems: int)
    requires Greedy(plan + [last], budget, maxItems) && last != []
    ensures Greedy(plan + [last + [next]], budget, maxItems)
    decreases |plan|
  {
    hide Admissible;
    var grown := plan + [last + [next]];
    if plan != [] {
      assert (plan + [last])[1..] == plan[1..] + [last];
      GreedyGrows(plan[1..], last, next, budget, maxItems);
      assert grown[1..] == plan[1..] + [last + [next]];
      assert grown[0] == (plan + [last])[0] && grown[1][0] == (plan + [last])[1][0];
    }
  }

  /** A contiguous part of an admissible batch is admissible. */
  lemma PartAdmissible(batch: seq<Document>, from: nat, to: nat, budget: int, maxItems: int)
    requires Admissible(batch, budget, maxItems) && from < to <= |batch|
    ensures Admissible(batch[from..to], budget, maxItems)
  {
    hide Cost;
    assert batch == batch[..from] + batch[from..];
    assert batch[from..] == batch[from..to] + batch[to..];
    CostAppend(batch[..from], batch[from..]);
    CostAppend(batch[from..to], batch[to..]);
  }

  /** If the other plan still has `behind` more to cover, its first batch ends no later than the
      greedy one's. */
  lemma FirstEndsAhead(g: seq<seq<Document>>, first: seq<Document>, tail: seq<Document>, behind: seq<Document>, budget: int, maxItems: int)
    requires g != [] && Greedy(g, budget, maxItems)
    requires Admissible(first, budget, maxItems) && first + tail == behind + Flatten(g)
    ensures |first| <= |behind| + |g[0]|
  {
    hide Admissible, Cost;
    var a, rest := g[0], Flatten(g[1..]);
    assert |g| == 1 ==> rest == [];
    if |g| > 1 && |first| > |behind| + |a| {
      var next := g[1][0];
      assert g[1..][0] == g[1];
      assert rest == g[1] + Flatten(g[1..][1..]);
      var all := behind + (a + rest);
      assert first == all[..|first|];
      assert all[|behind|..|behind| + |a| + 1] == a + [next];
      assert first[|behind|..|behind| + |a| + 1] == all[|behind|..|behind| + |a| + 1];
      PartAdmissible(first, |behind|, |behind| + |a| + 1, budget, maxItems);
      assert false;
    }
    assert |first + tail| == |behind| + |a| + |rest|;
  }

  /** The greedy plan stays ahead of every other plan, so it uses no more batches. */
  lemma {:induction false} StaysAhead(g: seq<seq<Document>>, o: seq<seq<Document>>, behind: seq<Document>, budget: int, maxItems: int)
    requires Greedy(g, budget, maxItems) && (forall b | b in g :: b != [])
    requires (forall b | b in o :: Admissible(b, budget, maxItems)) && Flatten(o) == behind + Flatten(g)
    ensures |g| <= |o|
    decreases |o|
  {
    hide Admissible;
    if g != [] {
      assert g[0] in g;
      if o != [] {
        var first, tail := o[0], Flatten(o[1..]);
        assert first in o;
        FirstEndsAhead(g, first, tail, behind, budget, maxItems);
        var behind' := (behind + g[0])[|first|..];
        assert tail == (first + tail)[|first|..];
        assert behind + Flatten(g) == (behind + g[0]) + Flatten(g[1..]);
        assert tail == behind' + Flatten(g[1..]);
        assert forall b | b in g[1..] :: b in g;
        assert forall b | b in o[1..] :: b in o;
        StaysAhead(g[1..], o[1..], behind', budget, maxItems);
      }
    }
  }

  /** Packs documents in order. The batches concatenate to the input, each is a singleton or within
      both limits, and no other plan of this kind uses fewer batches. */
  method PlanBatches(docs: seq<Document>, budget: int, maxItems: int) returns (batches: seq<seq<Document>>)
    ensures ValidPlan(docs, batches, budget, maxItems)
    ensures forall b | b in batches && |b| > 1 :: |b| <= maxItems && Cost(b) <= budget
    ensures forall k: nat | k + 1 < |batches| :: IsFull(batches, k, budget, maxItems)
    ensures forall other :: ValidPlan(docs, other, budget, maxItems) ==> |batches| <= |other|
  {
    hide Cost, Greedy, Flatten, Packed, Admissible, EstimateTokens;
    batches := [];
    var current: seq<Document> := [];
    var total := 0;
    PackStart(budget, maxItems);
    for i := 0 to |docs|
      invariant total == Cost(current)
      invariant Packed(docs[..i], batches, current, budget, maxItems)
    {
      var document := docs[i];
      var cost := EstimateTokens(document.text);
      CostSnoc(current, document);
      assert docs[..i + 1] == docs[..i] + [document];
      assert [] + [document] == [document];
      if current == [] {
        PackOpens(document, budget, maxItems);
        NothingSeen(docs[..i], batches, budget, maxItems);
      } else if total + cost > budget || |current| >= maxItems {
        PackCloses(docs[..i], batches, current, document, budget, maxItems);
      } else {
        PackGrows(docs[..i], batches, current, document, budget, maxItems);
      }
      if current != [] && (total + cost > budget || |current| >= maxItems) {
        batches := batches + [current];
        current, total := [], 0;
      }
      current := current + [document];
      total := total + cost;
    }
    assert docs[..|docs|] == docs;
    PackEnd(docs, batches, current, budget, maxItems);
    if current != [] {
      batches := batches + [current];
    }
  }

  /** The loop invariant: closed batches and the open one cover the documents seen, and reopening any
      closed batch for the next document would break a limit. */
  ghost predicate Packed(seen: seq<Document>, batches: seq<seq<Document>>, current: seq<Document>, budget: int, maxItems: int) {
    && Flatten(batches) + current == seen
    && (forall b | b in batches :: Admissible(b, budget, maxItems))
    && (if current == [] then batches == [] else Admissible(current, budget, maxItems) && Greedy(batches + [current], budget, maxItems))
  }

  lemma PackStart(budget: int, maxItems: int)
    ensures Packed([], [], [], budget, maxItems) && Cost([]) == 0
  {
  }

  lemma NothingSeen(seen: seq<Document>, batches: seq<seq<Document>>, budget: int, maxItems: int)
    requires Packed(seen, batches, [], budget, maxItems)
    ensures batches == [] && seen == []
  {
  }

  lemma PackOpens(d: Document, budget: int, maxItems: int)
    ensures Packed([d], [], [d], budget, maxItems)
  {
    FlattenNone<Document>();
    assert [] + [d] == [d];
    AdmissibleSnoc([], d, budget, maxItems);
    GreedyOne(d, budget, maxItems);
  }

  lemma PackCloses(seen: seq<Document>, batches: seq<seq<Document>>, current: seq<Document>, d: Document, budget: int, maxItems: int)
    requires Packed(seen, batches, current, budget, maxItems) && current != []
    requires Cost(current) + EstimateTokens(d.text) > budget || |current| >= maxItems
    ensures Packed(seen + [d], batches + [current], [d], budget, maxItems)
  {
    hide Greedy, Flatten, EstimateTokens, Admissible, Cost;
    FlattenSnoc(batches, current);
    AdmissibleSnoc(current, d, budget, maxItems);
    GreedyCloses(batches, current, d, budget, maxItems);
    AdmissibleSnoc([], d, budget, maxItems);
    assert [] + [d] == [d];
  }

  lemma PackGrows(seen: seq<Document>, batches: seq<seq<Document>>, current: seq<Document>, d: Document, budget: int, maxItems: int)
    requires Packed(seen, batches, current, budget, maxItems) && current != []
    requires Cost(current) + EstimateTokens(d.text) <= budget && |current| < maxItems
    ensures Packed(seen + [d], batches, current + [d], budget, maxItems)
  {
    hide Greedy, Flatten, EstimateTokens, Admissible, Cost;
    AdmissibleSnoc(current, d, budget, maxItems);
    GreedyGrows(batches, current, d, budget, maxItems);
    assert (Flatten(batches) + current) + [d] == Flatten(batches) + (current + [d]);
  }

  lemma CostSnoc(current: seq<Document>, d: Document)
    ensures Cost(current + [d]) == Cost(current) + EstimateTokens(d.text) && Cost([d]) == EstimateTokens(d.text)
  {
    CostAppend(current, [d]);
    CostOne(d);
  }

  lemma AdmissibleSnoc(current: seq<Document>, d: Document, budget: int, maxItems: int)
    ensures Admissible(current + [d], budget, maxItems)
       <==> current == [] || (Cost(current) + EstimateTokens(d.text) <= budget && |current| < maxItems)
  {
    hide Cost, EstimateTokens;
    CostAppend(current, [d]);
    CostOne(d);
  }

  lemma CostOne(d: Document)
    ensures Cost([d]) == EstimateTokens(d.text)
  {
    assert [d][1..] == [];
  }

  lemma FlattenSnoc(batches: seq<seq<Document>>, current: seq<Document>)
    ensures Flatten(batches + [current]) == Flatten(batches) + current
  {
    FlattenAppend(batches, [current]);
    FlattenOne(current);
  }

  lemma GreedyOne(d: Document, budget: int, maxItems: int)
    ensures Greedy([] + [[d]], budget, maxItems)
  {
  }

  /** Batch k had no room for the document that opens the next. */
  predicate IsFull(plan: seq<seq<Document>>, k: nat, budget: int, maxItems: int)
    requires k + 1 < |plan|
  {
    plan[k] != [] && plan[k + 1] != [] &&
    (|plan[k]| >= maxItems || Cost(plan[k]) + EstimateTokens(plan[k + 1][0].text) > budget)
  }

  /** In a greedy plan every batch is full for the document that opens the next. */
  lemma {:induction false} GreedyIsFull(plan: seq<seq<Document>>, budget: int, maxItems: int)
    requires Greedy(plan, budget, maxItems) && forall b | b in plan :: Admissible(b, budget, maxItems)
    ensures forall k: nat | k + 1 < |plan| :: IsFull(plan, k, budget, maxItems)
    decreases |plan|
  {
    hide Cost, EstimateTokens, Admissible;
    if |plan| > 1 {
      AdmissibleNonEmpty(plan[0], budget, maxItems);
      AdmissibleSnoc(plan[0], plan[1][0], budget, maxItems);
      GreedyIsFull(plan[1..], budget, maxItems);
      forall k: nat | k + 1 < |plan| ensures IsFull(plan, k, budget, maxItems) {
        if k == 0 {
          assert plan[0] in plan && plan[1] in plan;
        } else {
          assert IsFull(plan[1..], k - 1, budget, maxItems);
        }
      }
    }
  }

  lemma PackEnd(docs: seq<Document>, batches: seq<seq<Document>>, current: seq<Document>, budget: int, maxItems: int)
    requires Packed(docs, batches, current, budget, maxItems)
    ensures var plan := if current != [] then batches + [current] else batches;
      && ValidPlan(docs, plan, budget, maxItems)
      && (forall b | b in plan && |b| > 1 :: |b| <= maxItems && Cost(b) <= budget)
      && (forall k: nat | k + 1 < |plan| :: IsFull(plan, k, budget, maxItems))
      && forall other :: ValidPlan(docs, other, budget, maxItems) ==> |plan| <= |other|
  {
    hide Cost, Admissible, Greedy, EstimateTokens;
    var plan := if current != [] then batches + [current] else batches;
    FlattenSnoc(batches, current);
    PlanGreedy(batches, current, budget, maxItems);
    GreedyIsFull(plan, budget, maxItems);
    forall b | b in plan ensures b != [] && (|b| > 1 ==> |b| <= maxItems && Cost(b) <= budget) {
      AdmissibleNonEmpty(b, budget, maxItems);
    }
    forall other | ValidPlan(docs, other, budget, maxItems) ensures |plan| <= |other| {
      assert Flatten(other) == [] + Flatten(plan);
      StaysAhead(plan, other, [], budget, maxItems);
    }
  }

  lemma AdmissibleNonEmpty(b: seq<Document>, budget: int, maxItems: int)
    ensures Admissible(b, budget, maxItems) ==> b != [] && (|b| > 1 ==> |b| <= maxItems && Cost(b) <= budget)
  {
  }

  lemma PlanGreedy(batches: seq<seq<Document>>, current: seq<Document>, budget: int, maxItems: int)
    requires if current == [] then batches == [] else Greedy(batches + [current], budget, maxItems)
    ensures Greedy(if current != [] then batches + [current] else batches, budget, maxItems)
  {
  }
}
