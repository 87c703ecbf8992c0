/**
 Running the batches of scripts/selfcorpus/translate.py: the retries around a provider call, all
 batches of all languages interleaved in any order, and the cache in front of them. No document is lost.
 */
module Translation {
  import opened Common
  import opened Batching

  /******* One batch *******/

  /** What became of the documents: translated and stored, or given up on. */
  datatype Ledger = Ledger(stored: seq<Document>, failed: seq<Document>)

  function Join(a: Ledger, b: Ledger): Ledger {
    Ledger(a.stored + b.stored, a.failed + b.failed)
  }

  /** The members of a rejected batch tried one at a time, in order; the oracle says whether the n-th
      call fails. */
  function Singly(batch: seq<Document>, fails: nat -> bool, calls: nat): Ledger {
    if batch == [] then Ledger([], [])
    else
      var n := |batch| - 1;
      Join(Singly(batch[..n], fails, calls), if fails(calls + n) then Ledger([], batch[n..]) else Ledger(batch[n..], []))
  }

  /** A batch stored whole, or rejected and retried singly; a rejected single document is given up on. */
  function Ran(batch: seq<Document>, fails: nat -> bool, calls: nat): Ledger {
    if !fails(calls) then Ledger(batch, [])
    else if |batch| == 1 then Ledger([], batch)
    else Singly(batch, fails, calls + 1)
  }

  /** A document of the batch was tried alone, from call `calls` on, and rejected. */
  ghost predicate RejectedAlone(batch: seq<Document>, fails: nat -> bool, calls: nat, d: Document) {
    exists i | 0 <= i < |batch| :: batch[i] == d && fails(calls + i)
  }

  lemma SinglySnoc(batch: seq<Document>, fails: nat -> bool, calls: nat, x: Document)
    ensures var n := |batch|;
      Singly(batch + [x], fails, calls) ==
      Join(Singly(batch, fails, calls), if fails(calls + n) then Ledger([], [x]) else Ledger([x], []))
  {
    assert (batch + [x])[..|batch|] == batch && (batch + [x])[|batch|..] == [x];
  }

  lemma {:induction false} SinglyConserves(batch: seq<Document>, fails: nat -> bool, calls: nat)
    ensures var l := Singly(batch, fails, calls); multiset(l.stored) + multiset(l.failed) == multiset(batch)
    decreases |batch|
  {
    hide Singly;
    if batch == [] {
      SinglyNone(fails, calls);
    } else {
      var n := |batch| - 1;
      SinglyConserves(batch[..n], fails, calls);
      SinglySnoc(batch[..n], fails, calls, batch[n]);
      assert batch == batch[..n] + [batch[n]];
    }
  }

  lemma SinglyNone(fails: nat -> bool, calls: nat)
    ensures Singly([], fails, calls) == Ledger([], [])
  {
  }

  /** Tried singly, exactly the rejected are given up on. */
  lemma {:induction false} SinglyRejects(batch: seq<Document>, fails: nat -> bool, calls: nat, d: Document)
    ensures d in Singly(batch, fails, calls).failed <==> RejectedAlone(batch, fails, calls, d)
    decreases |batch|
  {
    hide Singly;
    if batch == [] {
      SinglyNone(fails, calls);
    } else {
      var n := |batch| - 1;
      SinglyRejects(batch[..n], fails, calls, d);
      SinglySnoc(batch[..n], fails, calls, batch[n]);
      assert batch == batch[..n] + [batch[n]];
      RejectedSnoc(batch[..n], fails, calls, batch[n], d);
    }
  }

  lemma RejectedSnoc(batch: seq<Document>, fails: nat -> bool, calls: nat, x: Document, d: Document)
    ensures var n := |batch|;
      RejectedAlone(batch + [x], fails, calls, d) <==> RejectedAlone(batch, fails, calls, d) || (x == d && fails(calls + n))
  {
    var n, grown := |batch|, batch + [x];
    if x == d && fails(calls + n) {
      assert grown[n] == d;
    }
    if RejectedAlone(batch, fails, calls, d) {
      var i :| 0 <= i < n && batch[i] == d && fails(calls + i);
      assert grown[i] == d;
    }
    if RejectedAlone(grown, fails, calls, d) {
      var i :| 0 <= i <= n && grown[i] == d && fails(calls + i);
      assert i < n ==> batch[i] == d;
    }
  }

  /** A batch loses nothing and stores nothing twice; it gives up on exactly the documents that were
      rejected when tried alone, which happens only after the batch was rejected. */
  lemma RanExact(batch: seq<Document>, fails: nat -> bool, calls: nat)
    requires batch != []
    ensures var l := Ran(batch, fails, calls); multiset(l.stored) + multiset(l.failed) == multiset(batch)
    ensures forall d :: d in Ran(batch, fails, calls).failed <==>
              fails(calls) && RejectedAlone(batch, fails, if |batch| == 1 then calls else calls + 1, d)
  {
    hide Singly, RejectedAlone;
    SinglyConserves(batch, fails, calls + 1);
    forall d ensures d in Ran(batch, fails, calls).failed <==>
              fails(calls) && RejectedAlone(batch, fails, if |batch| == 1 then calls else calls + 1, d)
    {
      SinglyRejects(batch, fails, calls + 1, d);
      if |batch| == 1 {
        RejectedOne(batch[0], fails, calls, d);
        assert batch == [batch[0]];
      }
    }
  }

  lemma RejectedOne(x: Document, fails: nat -> bool, calls: nat, d: Document)
    ensures RejectedAlone([x], fails, calls, d) <==> x == d && fails(calls)
  {
    assert [x][0] == x;
  }

  lemma RanConserves(batch: seq<Document>, fails: nat -> bool, calls: nat)
    ensures var l := Ran(batch, fails, calls); multiset(l.stored) + multiset(l.failed) == multiset(batch)
  {
    hide Singly;
    SinglyConserves(batch, fails, calls + 1);
  }

  lemma RanWhole(batch: seq<Document>, fails: nat -> bool, calls: nat)
    ensures !fails(calls) ==> Ran(batch, fails, calls) == Ledger(batch, [])
  {
  }

  /** One provider call for a batch, and if it fails the retries of its members. */
  method RunBatch(batch: seq<Document>, fails: nat -> bool, calls: nat) returns (ledger: Ledger, calls': nat)
    requires batch != []
    ensures ledger == Ran(batch, fails, calls)
    ensures calls' == if fails(calls) && |batch| > 1 then calls + 1 + |batch| else calls + 1
    decreases |batch|, 1
  {
    var failure := fails(calls);
    calls' := calls + 1;
    if !failure {
      return Ledger(batch, []), calls';
    }
    if |batch| == 1 {
      return Ledger([], batch), calls';
    }
    ledger, calls' := RunSingly(batch, fails, calls');
  }

  method RunSingly(batch: seq<Document>, fails: nat -> bool, calls: nat) returns (ledger: Ledger, calls': nat)
    requires |batch| > 1
    ensures ledger == Singly(batch, fails, calls) && calls' == calls + |batch|
    decreases |batch|, 0
  {
    ledger, calls' := Ledger([], []), calls;
    for i := 0 to |batch|
      invariant calls' == calls + i
      invariant ledger == Singly(batch[..i], fails, calls)
    {
      var one;
      one, calls' := RunBatch([batch[i]], fails, calls');
      assert batch[..i + 1][..i] == batch[..i] && batch[..i + 1][i..] == [batch[i]];
      ledger := Join(ledger, one);
    }
    assert batch[..|batch|] == batch;
  }

  /******* All batches at once *******/

  /** Where the task of a batch stands between two of its calls. */
  datatype Pc = Whole | Single(i: nat) | Done

  /** The oracle of one task: whether its n-th call fails, whenever it is made. */
  function Of(fails: (nat, nat) -> bool, t: nat): nat -> bool { (n: nat) => fails(t, n) }

  predicate PcOk(batch: seq<Document>, pc: Pc, fails: nat -> bool) {
    batch != [] && (pc.Single? ==> |batch| > 1 && pc.i < |batch| && fails(0))
  }

  /** What the next call of a task adds, and where it leaves the task. */
  function Attempt(batch: seq<Document>, pc: Pc, fails: nat -> bool): Ledger
    requires PcOk(batch, pc, fails) && !pc.Done?
  {
    match pc
    case Whole =>
      if !fails(0) then Ledger(batch, []) else if |batch| == 1 then Ledger([], batch) else Ledger([], [])
    case Single(i) => if fails(1 + i) then Ledger([], [batch[i]]) else Ledger([batch[i]], [])
  }

  function After(batch: seq<Document>, pc: Pc, fails: nat -> bool): Pc
    requires PcOk(batch, pc, fails) && !pc.Done?
  {
    match pc
    case Whole => if fails(0) && |batch| > 1 then Single(0) else Done
    case Single(i) => if i + 1 < |batch| then Single(i + 1) else Done
  }

  /** What a task has settled so far, in terms of running its batch alone. */
  function SoFar(batch: seq<Document>, pc: Pc, fails: nat -> bool): Ledger {
    match pc
    case Whole => Ledger([], [])
    case Single(i) => if i <= |batch| then Singly(batch[..i], fails, 1) else Ledger([], [])
    case Done => Ran(batch, fails, 0)
  }

  lemma AttemptContinues(batch: seq<Document>, pc: Pc, fails: nat -> bool)
    requires PcOk(batch, pc, fails) && !pc.Done?
    ensures PcOk(batch, After(batch, pc, fails), fails)
    ensures SoFar(batch, After(batch, pc, fails), fails) == Join(SoFar(batch, pc, fails), Attempt(batch, pc, fails))
  {
    hide Singly;
    SinglyNone(fails, 1);
    if pc.Single? {
      var i := pc.i;
      SinglySnoc(batch[..i], fails, 1, batch[i]);
      assert batch[..i + 1] == batch[..i] + [batch[i]];
      assert i + 1 == |batch| ==> batch[..i + 1] == batch;
    } else {
      assert batch[..0] == [];
    }
  }

  /** What the first n tasks have stored and given up on, in whatever order that happened. */
  function StoredBy(batches: seq<seq<Document>>, pcs: seq<Pc>, fails: (nat, nat) -> bool, n: nat): multiset<Document>
    requires n <= |batches| == |pcs|
  {
    if n == 0 then multiset{}
    else StoredBy(batches, pcs, fails, n - 1) + multiset(SoFar(batches[n - 1], pcs[n - 1], Of(fails, n - 1)).stored)
  }

  function FailedBy(batches: seq<seq<Document>>, pcs: seq<Pc>, fails: (nat, nat) -> bool, n: nat): multiset<Document>
    requires n <= |batches| == |pcs|
  {
    if n == 0 then multiset{}
    else FailedBy(batches, pcs, fails, n - 1) + multiset(SoFar(batches[n - 1], pcs[n - 1], Of(fails, n - 1)).failed)
  }

  /** One call of one task adds what it settled, and nothing else changes. */
  lemma {:induction false} StoredMoves(batches: seq<seq<Document>>, pcs: seq<Pc>, fails: (nat, nat) -> bool, t: nat, pc: Pc,
                                     piece: seq<Document>, n: nat)
    requires n <= |batches| == |pcs| && t < |pcs|
    requires SoFar(batches[t], pc, Of(fails, t)).stored == SoFar(batches[t], pcs[t], Of(fails, t)).stored + piece
    ensures StoredBy(batches, pcs[t := pc], fails, n) ==
            StoredBy(batches, pcs, fails, n) + if t < n then multiset(piece) else multiset{}
    decreases n
  {
    hide SoFar, Of;
    if n > 0 {
      StoredMoves(batches, pcs, fails, t, pc, piece, n - 1);
      if t == n - 1 {
        assert pcs[t := pc][t] == pc;
      } else {
        assert pcs[t := pc][n - 1] == pcs[n - 1];
      }
    }
  }

  lemma {:induction false} FailedMoves(batches: seq<seq<Document>>, pcs: seq<Pc>, fails: (nat, nat) -> bool, t: nat, pc: Pc,
                                     piece: seq<Document>, n: nat)
    requires n <= |batches| == |pcs| && t < |pcs|
    requires SoFar(batches[t], pc, Of(fails, t)).failed == SoFar(batches[t], pcs[t], Of(fails, t)).failed + piece
    ensures FailedBy(batches, pcs[t := pc], fails, n) ==
            FailedBy(batches, pcs, fails, n) + if t < n then multiset(piece) else multiset{}
    decreases n
  {
    hide SoFar, Of;
    if n > 0 {
      FailedMoves(batches, pcs, fails, t, pc, piece, n - 1);
      if t == n - 1 {
        assert pcs[t := pc][t] == pc;
      } else {
        assert pcs[t := pc][n - 1] == pcs[n - 1];
      }
    }
  }

  function AllAt(pc: Pc, n: nat): (pcs: seq<Pc>)
    ensures |pcs| == n && forall t | 0 <= t < n :: pcs[t] == pc
  {
    seq(n, _ => pc)
  }

  lemma {:induction false} NothingYet(batches: seq<seq<Document>>, fails: (nat, nat) -> bool, n: nat)
    requires n <= |batches|
    ensures StoredBy(batches, AllAt(Whole, |batches|), fails, n) == multiset{}
    ensures FailedBy(batches, AllAt(Whole, |batches|), fails, n) == multiset{}
  {
    if n > 0 {
      NothingYet(batches, fails, n - 1);
    }
  }

  /** The calls a task may still make, and those of the first n tasks. */
  function Left(batch: seq<Document>, pc: Pc): nat {
    match pc case Whole => 1 + |batch| case Single(i) => if i <= |batch| then |batch| - i else 0 case Done => 0
  }

  function AllLeft(batches: seq<seq<Document>>, pcs: seq<Pc>, n: nat): nat
    requires n <= |batches| == |pcs|
  {
    if n == 0 then 0 else AllLeft(batches, pcs, n - 1) + Left(batches[n - 1], pcs[n - 1])
  }

  lemma {:induction false} LeftMoves(batches: seq<seq<Document>>, pcs: seq<Pc>, t: nat, pc: Pc, n: nat)
    requires n <= |batches| == |pcs| && t < |pcs|
    ensures AllLeft(batches, pcs[t := pc], n) ==
            AllLeft(batches, pcs, n) + if t < n then Left(batches[t], pc) - Left(batches[t], pcs[t]) else 0
    decreases n
  {
    hide Left;
    if n > 0 {
      LeftMoves(batches, pcs, t, pc, n - 1);
    }
  }

  lemma {:induction false} LeftAtFirst(batches: seq<seq<Document>>, n: nat)
    requires n <= |batches|
    ensures AllLeft(batches, AllAt(Whole, |batches|), n) == |Flatten(batches[..n])| + n
    decreases n
  {
    hide Flatten;
    if n == 0 {
      FlattenNone<Document>();
      assert batches[..0] == [];
    } else {
      LeftAtFirst(batches, n - 1);
      assert batches[..n] == batches[..n - 1] + [batches[n - 1]];
      FlattenSnoc(batches[..n - 1], batches[n - 1]);
    }
  }

  /** Runs all tasks, one call of any unfinished one at a time, in no particular order. What they store and
      give up on together does not depend on the order. */
  method Gather(batches: seq<seq<Document>>, fails: (nat, nat) -> bool) returns (ledger: Ledger, calls: nat)
    requires forall b | b in batches :: b != []
    ensures multiset(ledger.stored) == StoredBy(batches, AllAt(Done, |batches|), fails, |batches|)
    ensures multiset(ledger.failed) == FailedBy(batches, AllAt(Done, |batches|), fails, |batches|)
    ensures calls <= |Flatten(batches)| + |batches|
  {
    hide SoFar, Left, Attempt, After, StoredBy, FailedBy, AllLeft, Flatten;
    var n := |batches|;
    var pcs := AllAt(Whole, n);
    ledger, calls := Ledger([], []), 0;
    NothingYet(batches, fails, n);
    LeftAtFirst(batches, n);
    assert batches[..n] == batches;
    assert forall t | 0 <= t < n :: batches[t] in batches;
    while exists t :: 0 <= t < n && !pcs[t].Done?
      invariant |pcs| == n
      invariant forall t | 0 <= t < n :: PcOk(batches[t], pcs[t], Of(fails, t))
      invariant multiset(ledger.stored) == StoredBy(batches, pcs, fails, n)
      invariant multiset(ledger.failed) == FailedBy(batches, pcs, fails, n)
      invariant calls + AllLeft(batches, pcs, n) <= |Flatten(batches)| + n
      decreases AllLeft(batches, pcs, n)
    {
      var t: nat :| t < n && !pcs[t].Done?;
      var piece := Attempt(batches[t], pcs[t], Of(fails, t));
      var pc := After(batches[t], pcs[t], Of(fails, t));
      AttemptContinues(batches[t], pcs[t], Of(fails, t));
      StoredMoves(batches, pcs, fails, t, pc, piece.stored, n);
      FailedMoves(batches, pcs, fails, t, pc, piece.failed, n);
      LeftMoves(batches, pcs, t, pc, n);
      LeftShrinks(batches[t], pcs[t], Of(fails, t));
      ledger := Join(ledger, piece);
      calls := calls + 1;
      pcs := pcs[t := pc];
    }
    assert pcs == AllAt(Done, n);
  }

  lemma LeftShrinks(batch: seq<Document>, pc: Pc, fails: nat -> bool)
    requires PcOk(batch, pc, fails) && !pc.Done?
    ensures Left(batch, After(batch, pc, fails)) < Left(batch, pc)
  {
  }

  /** All tasks together lose no document and store none twice. */
  lemma {:induction false} AllConserve(batches: seq<seq<Document>>, fails: (nat, nat) -> bool, n: nat)
    requires n <= |batches|
    ensures var done := AllAt(Done, |batches|);
      StoredBy(batches, done, fails, n) + FailedBy(batches, done, fails, n) == multiset(Flatten(batches[..n]))
    decreases n
  {
    hide Ran, Flatten, Of;
    if n == 0 {
      FlattenNone<Document>();
      assert batches[..0] == [];
    } else {
      AllConserve(batches, fails, n - 1);
      RanConserves(batches[n - 1], Of(fails, n - 1), 0);
      assert batches[..n] == batches[..n - 1] + [batches[n - 1]];
      FlattenSnoc(batches[..n - 1], batches[n - 1]);
    }
  }

  /** Some task gave the document up: alone in its batch or tried alone, it was rejected. */
  ghost predicate GivenUp(batches: seq<seq<Document>>, fails: (nat, nat) -> bool, n: nat, d: Document)
    requires n <= |batches|
  {
    exists t: nat :: t < n && d in Ran(batches[t], Of(fails, t), 0).failed
  }

  lemma {:induction false} FailedExactly(batches: seq<seq<Document>>, fails: (nat, nat) -> bool, n: nat, d: Document)
    requires n <= |batches|
    ensures d in FailedBy(batches, AllAt(Done, |batches|), fails, n) <==> GivenUp(batches, fails, n, d)
    decreases n
  {
    hide Ran, Of;
    if n > 0 {
      FailedExactly(batches, fails, n - 1, d);
      if t: nat :| t < n && d in Ran(batches[t], Of(fails, t), 0).failed {
        if t < n - 1 {
          assert GivenUp(batches, fails, n - 1, d);
        }
      }
    }
  }

  lemma {:induction false} NoneFailed(batches: seq<seq<Document>>, fails: (nat, nat) -> bool, n: nat)
    requires n <= |batches| && forall t, k :: !fails(t, k)
    ensures FailedBy(batches, AllAt(Done, |batches|), fails, n) == multiset{}
    decreases n
  {
    hide Ran;
    if n > 0 {
      NoneFailed(batches, fails, n - 1);
      RanWhole(batches[n - 1], Of(fails, n - 1), 0);
    }
  }

  /******* The cache and the languages *******/

  /** The documents the cache has, or those it lacks, in order. */
  function Having(documents: seq<Document>, cached: Document -> bool, yes: bool): (r: seq<Document>)
    ensures forall d | d in r :: cached(d) == yes
  {
    if documents == [] then []
    else
      var n := |documents| - 1;
      Having(documents[..n], cached, yes) + if cached(documents[n]) == yes then [documents[n]] else []
  }

  lemma {:induction false} HavingSplits(documents: seq<Document>, cached: Document -> bool)
    ensures multiset(Having(documents, cached, true)) + multiset(Having(documents, cached, false)) == multiset(documents)
    decreases |documents|
  {
    hide Having;
    if documents == [] {
      HavingNone(cached);
    } else {
      var n := |documents| - 1;
      HavingSplits(documents[..n], cached);
      HavingSnoc(documents[..n], documents[n], cached);
      assert documents == documents[..n] + [documents[n]];
    }
  }

  lemma HavingNone(cached: Document -> bool)
    ensures Having([], cached, true) == [] && Having([], cached, false) == []
  {
  }

  /** The next document joins one of the two. */
  lemma HavingSnoc(documents: seq<Document>, d: Document, cached: Document -> bool)
    ensures Having(documents + [d], cached, cached(d)) == Having(documents, cached, cached(d)) + [d]
    ensures Having(documents + [d], cached, !cached(d)) == Having(documents, cached, !cached(d))
  {
    assert (documents + [d])[..|documents|] == documents;
  }

  method SplitCached(documents: seq<Document>, cached: Document -> bool) returns (hits: seq<Document>, pending: seq<Document>)
    ensures hits == Having(documents, cached, true) && pending == Having(documents, cached, false)
  {
    hits, pending := [], [];
    for i := 0 to |documents|
      invariant hits == Having(documents[..i], cached, true) && pending == Having(documents[..i], cached, false)
    {
      assert documents[..i + 1][..i] == documents[..i];
      if cached(documents[i]) {
        hits := hits + [documents[i]];
      } else {
        pending := pending + [documents[i]];
      }
    }
    assert documents[..|documents|] == documents;
  }

  function InLanguage(documents: seq<Document>, language: string): (r: seq<Document>)
    ensures |r| == |documents|
  {
    seq(|documents|, i requires 0 <= i < |documents| => documents[i].(language := language))
  }

  /** Every document in every language, and those among them the cache has. */
  function AllWanted(documents: seq<Document>, languages: seq<string>): seq<Document> {
    if languages == [] then []
    else
      var n := |languages| - 1;
      AllWanted(documents, languages[..n]) + InLanguage(documents, languages[n])
  }

  function AllHits(documents: seq<Document>, languages: seq<string>, cached: Document -> bool): seq<Document> {
    if languages == [] then []
    else
      var n := |languages| - 1;
      AllHits(documents, languages[..n], cached) + Having(InLanguage(documents, languages[n]), cached, true)
  }

  function AllPending(documents: seq<Document>, languages: seq<string>, cached: Document -> bool): (r: seq<Document>)
    ensures forall d | d in r :: !cached(d)
  {
    if languages == [] then []
    else
      var n := |languages| - 1;
      AllPending(documents, languages[..n], cached) + Having(InLanguage(documents, languages[n]), cached, false)
  }

  lemma {:induction false} WantedSplits(documents: seq<Document>, languages: seq<string>, cached: Document -> bool)
    ensures multiset(AllHits(documents, languages, cached)) + multiset(AllPending(documents, languages, cached))
         == multiset(AllWanted(documents, languages))
    decreases |languages|
  {
    hide Having, InLanguage;
    if languages != [] {
      var n := |languages| - 1;
      WantedSplits(documents, languages[..n], cached);
      HavingSplits(InLanguage(documents, languages[n]), cached);
    }
  }

  lemma RowFits(l: nat, n: nat, d: nat, i: nat)
    requires l < n && i < d
    ensures 0 <= l * d + i < n * d
  {
    assert (l + 1) * d <= n * d by {
      MulAtMost(l + 1, n, d);
    }
  }

  lemma MulAtMost(a: nat, b: nat, d: nat)
    requires a <= b
    ensures a * d <= b * d
  {
  }

  /** What is wanted: for each language in turn each document in turn, its text and key as they are. */
  lemma {:induction false} WantedAt(documents: seq<Document>, languages: seq<string>, l: nat, i: nat)
    requires l < |languages| && i < |documents|
    ensures var wanted, d := AllWanted(documents, languages), |documents|;
      && |wanted| == |languages| * d && 0 <= l * d + i < |wanted|
      && wanted[l * d + i] == Document(languages[l], documents[i].key, documents[i].text)
    decreases |languages|
  {
    var n, d := |languages| - 1, |documents|;
    RowFits(l, n + 1, d, i);
    if n > 0 {
      WantedAt(documents, languages[..n], if l < n then l else 0, i);
    } else {
      assert languages[..n] == [] && AllWanted(documents, []) == [];
    }
    assert |AllWanted(documents, languages[..n])| == n * d && (n + 1) * d == n * d + d;
    if l < n {
      RowFits(l, n, d, i);
    }
  }

  /** The batches of one language: its pending documents in order, in as few batches as can be. */
  ghost predicate Planned(documents: seq<Document>, language: string, cached: Document -> bool, batchSize: int, plan: seq<seq<Document>>) {
    var pending := Having(InLanguage(documents, language), cached, false);
    && ValidPlan(pending, plan, INPUT_BUDGET, batchSize)
    && forall other :: ValidPlan(pending, other, INPUT_BUDGET, batchSize) ==> |plan| <= |other|
  }

  lemma PlannedBatches(documents: seq<Document>, language: string, cached: Document -> bool, batchSize: int, plan: seq<seq<Document>>)
    requires Planned(documents, language, cached, batchSize, plan)
    ensures Flatten(plan) == Having(InLanguage(documents, language), cached, false) && forall b | b in plan :: b != []
  {
  }

  /** All languages. Cached translations are taken as they are; the rest are packed into as few batches as
      possible for each language, and all batches run at once in any order. Every document ends up, in
      every language, with exactly one result or exactly one reported failure; the failures are exactly
      those rejected when tried alone, and none of them was in the cache. */
  method TranslateDocuments(documents: seq<Document>, languages: seq<string>, cached: Document -> bool, batchSize: int,
                            fails: (nat, nat) -> bool)
    returns (results: seq<Document>, errors: seq<Document>, calls: nat, ghost plans: seq<seq<seq<Document>>>)
    ensures |plans| == |languages|
    ensures forall l | 0 <= l < |plans| :: Planned(documents, languages[l], cached, batchSize, plans[l])
    ensures var batches := Flatten(plans); var done := AllAt(Done, |batches|);
      && multiset(results) == multiset(AllHits(documents, languages, cached)) + StoredBy(batches, done, fails, |batches|)
      && (forall d :: d in errors <==> GivenUp(batches, fails, |batches|, d))
      && calls <= |AllPending(documents, languages, cached)| + |batches|
    ensures multiset(results) + multiset(errors) == multiset(AllWanted(documents, languages))
    ensures forall d | d in errors :: !cached(d)
    ensures (forall t, n :: !fails(t, n)) ==> errors == []
  {
    hide Having, InLanguage, Flatten, StoredBy, FailedBy, GivenUp, Planned, ValidPlan, AllHits, AllPending;
    var hits: seq<Document> := [];
    var batches: seq<seq<Document>> := [];
    plans := [];
    FlattenNone<Document>();
    FlattenNone<seq<Document>>();
    NoLanguages(documents, cached);
    for l := 0 to |languages|
      invariant |plans| == l
      invariant forall k | 0 <= k < l :: Planned(documents, languages[k], cached, batchSize, plans[k])
      invariant batches == Flatten(plans) && forall b | b in batches :: b != []
      invariant hits == AllHits(documents, languages[..l], cached)
      invariant Flatten(batches) == AllPending(documents, languages[..l], cached)
    {
      var found, pending := SplitCached(InLanguage(documents, languages[l]), cached);
      var plan := PlanBatches(pending, INPUT_BUDGET, batchSize);
      PlanIs(documents, languages[l], cached, batchSize, plan, pending);
      PlannedBatches(documents, languages[l], cached, batchSize, plan);
      FlattenAppend(batches, plan);
      FlattenAppend(plans, [plan]);
      FlattenOne(plan);
      OneLanguage(documents, languages, l, cached);
      plans := plans + [plan];
      hits, batches := hits + found, batches + plan;
    }
    assert languages[..|languages|] == languages;
    var ledger;
    ledger, calls := Gather(batches, fails);
    results, errors := hits + ledger.stored, ledger.failed;
    var n := |batches|;
    assert batches[..n] == batches;
    AllConserve(batches, fails, n);
    WantedSplits(documents, languages, cached);
    forall d ensures d in errors <==> GivenUp(batches, fails, n, d) {
      FailedExactly(batches, fails, n, d);
      assert d in errors <==> d in multiset(errors);
    }
    forall d | d in errors ensures !cached(d) {
      assert d in multiset(errors) && multiset(errors) <= multiset(Flatten(batches));
      assert d in AllPending(documents, languages, cached);
    }
    if forall t, k :: !fails(t, k) {
      NoneFailed(batches, fails, n);
      assert |errors| == |multiset(errors)| == 0;
    }
  }

  lemma PlanIs(documents: seq<Document>, language: string, cached: Document -> bool, batchSize: int,
               plan: seq<seq<Document>>, pending: seq<Document>)
    requires pending == Having(InLanguage(documents, language), cached, false)
    requires ValidPlan(pending, plan, INPUT_BUDGET, batchSize)
    requires forall other :: ValidPlan(pending, other, INPUT_BUDGET, batchSize) ==> |plan| <= |other|
    ensures Planned(documents, language, cached, batchSize, plan)
  {
    hide ValidPlan, Having, InLanguage;
  }

  lemma NoLanguages(documents: seq<Document>, cached: Document -> bool)
    ensures AllHits(documents, [], cached) == [] && AllPending(documents, [], cached) == []
  {
  }

  lemma OneLanguage(documents: seq<Document>, languages: seq<string>, l: nat, cached: Document -> bool)
    requires l < |languages|
    ensures AllHits(documents, languages[..l + 1], cached) ==
            AllHits(documents, languages[..l], cached) + Having(InLanguage(documents, languages[l]), cached, true)
    ensures AllPending(documents, languages[..l + 1], cached) ==
            AllPending(documents, languages[..l], cached) + Having(InLanguage(documents, languages[l]), cached, false)
  {
    hide Having, InLanguage;
    assert languages[..l + 1][..l] == languages[..l];
  }
}
