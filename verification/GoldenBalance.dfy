/**
 Balancing the evaluation set in scripts/ingest-msmarco.py: round-robin over languages, and the
 split between answerable and unanswerable questions.
 */
module GoldenBalance {
  import opened Common

  datatype Item = Item(id: string, language: string, answerable: bool)

  /** The items of one language, in order. */
  function OfLanguage(items: seq<Item>, language: string): (r: seq<Item>)
    ensures forall x | x in r :: x.language == language
  {
    if items == [] then []
    else (if items[0].language == language then [items[0]] else []) + OfLanguage(items[1..], language)
  }

  lemma {:induction false} OfLanguageAppend(a: seq<Item>, b: seq<Item>, language: string)
    ensures OfLanguage(a + b, language) == OfLanguage(a, language) + OfLanguage(b, language)
    decreases |a|
  {
    hide OfLanguage;
    if a == [] {
      assert a + b == b;
      OfLanguageNone(language);
    } else {
      OfLanguageAppend(a[1..], b, language);
      assert a + b == [a[0]] + (a[1..] + b) && a == [a[0]] + a[1..];
      OfLanguageCons(a[0], a[1..] + b, language);
      OfLanguageCons(a[0], a[1..], language);
    }
  }

  lemma OfLanguageNone(language: string)
    ensures OfLanguage([], language) == []
  {
  }

  lemma OfLanguageCons(x: Item, rest: seq<Item>, language: string)
    ensures OfLanguage([x] + rest, language) == (if x.language == language then [x] else []) + OfLanguage(rest, language)
  {
    assert ([x] + rest)[1..] == rest;
  }

  lemma OfLanguageOne(x: Item, language: string)
    ensures OfLanguage([x], language) == if x.language == language then [x] else []
  {
    assert [x][1..] == [];
  }

  /** Every occurrence of an item is among those of its own language. */
  lemma {:induction false} OfLanguageCounts(items: seq<Item>, x: Item)
    ensures multiset(OfLanguage(items, x.language))[x] == multiset(items)[x]
    decreases |items|
  {
    if items != [] {
      OfLanguageCounts(items[1..], x);
      assert items == [items[0]] + items[1..];
    }
  }

  /** Taking a prefix of every language takes no item more often than it occurs. */
  lemma PrefixesAreItems(selected: seq<Item>, items: seq<Item>)
    requires PrefixOfEach(items, selected)
    ensures multiset(selected) <= multiset(items) && |selected| <= |items|
  {
    hide OfLanguage;
    forall x ensures multiset(selected)[x] <= multiset(items)[x] {
      OfLanguageCounts(selected, x);
      OfLanguageCounts(items, x);
      PrefixCounts(OfLanguage(selected, x.language), OfLanguage(items, x.language), x);
    }
    CardinalityBound(multiset(selected), multiset(items));
  }

  ghost predicate PrefixOfEach(items: seq<Item>, selected: seq<Item>) {
    forall language :: OfLanguage(selected, language) <= OfLanguage(items, language)
  }

  lemma PrefixCounts(p: seq<Item>, q: seq<Item>, x: Item)
    requires p <= q
    ensures multiset(p)[x] <= multiset(q)[x]
  {
    assert q == p + q[|p|..];
  }

  lemma CardinalityBound(m: multiset<Item>, n: multiset<Item>)
    requires m <= n
    ensures |m| <= |n|
  {
    assert n == m + (n - m);
  }

  /** Taking all of every language takes everything. */
  lemma AllLanguagesAreAll(selected: seq<Item>, items: seq<Item>)
    requires forall language :: OfLanguage(selected, language) == OfLanguage(items, language)
    ensures multiset(selected) == multiset(items) && |selected| == |items|
  {
    hide OfLanguage;
    forall x ensures multiset(selected)[x] == multiset(items)[x] {
      OfLanguageCounts(selected, x);
      OfLanguageCounts(items, x);
    }
    assert multiset(selected) == multiset(items);
    CardinalityBound(multiset(selected), multiset(items));
    CardinalityBound(multiset(items), multiset(selected));
  }

  /******* Round robin *******/

  datatype Bucket = Bucket(language: string, items: seq<Item>)

  /** Language p occurs before language q does. */
  ghost predicate Earlier(items: seq<Item>, p: string, q: string) {
    exists i :: 0 <= i < |items| && FirstAt(items, p, q, i)
  }

  ghost predicate FirstAt(items: seq<Item>, p: string, q: string, i: nat)
    requires i < |items|
  {
    items[i].language == p && forall j | 0 <= j <= i :: items[j].language != q
  }

  /** One bucket per language that occurs, holding exactly its items in order; the buckets in the order in
      which the languages first occur. */
  ghost predicate Buckets(items: seq<Item>, buckets: seq<Bucket>) {
    && (forall b | 0 <= b < |buckets| :: buckets[b].items == OfLanguage(items, buckets[b].language))
    && (forall a, b | 0 <= a < b < |buckets| :: buckets[a].language != buckets[b].language)
    && (forall x | x in items :: HasBucket(buckets, x.language))
    && (forall b | 0 <= b < |buckets| :: buckets[b].items != [])
    && (forall a, b | 0 <= a < b < |buckets| :: Earlier(items, buckets[a].language, buckets[b].language))
  }

  ghost predicate HasBucket(buckets: seq<Bucket>, language: string) {
    exists b | 0 <= b < |buckets| :: buckets[b].language == language
  }

  method FindBucket(buckets: seq<Bucket>, language: string) returns (b: nat)
    ensures b <= |buckets|
    ensures b < |buckets| ==> buckets[b].language == language
    ensures b == |buckets| ==> forall a | 0 <= a < |buckets| :: buckets[a].language != language
  {
    b := 0;
    while b < |buckets| && buckets[b].language != language
      invariant b <= |buckets|
      invariant forall a | 0 <= a < b :: buckets[a].language != language
    {
      b := b + 1;
    }
  }

  method GroupByLanguage(items: seq<Item>) returns (buckets: seq<Bucket>)
    ensures Buckets(items, buckets)
  {
    buckets := [];
    for i := 0 to |items|
      invariant Buckets(items[..i], buckets)
    {
      var x := items[i];
      assert items[..i + 1] == items[..i] + [x];
      var b := FindBucket(buckets, x.language);
      GroupStep(items[..i], buckets, x, b);
      if b < |buckets| {
        buckets := buckets[b := Bucket(x.language, buckets[b].items + [x])];
      } else {
        buckets := buckets + [Bucket(x.language, [x])];
      }
    }
    assert items[..|items|] == items;
  }

  /** The buckets after one more item. */
  function Grouped(buckets: seq<Bucket>, x: Item, b: nat): seq<Bucket>
    requires b <= |buckets|
  {
    if b < |buckets| then buckets[b := Bucket(x.language, buckets[b].items + [x])]
    else buckets + [Bucket(x.language, [x])]
  }

  lemma GroupStep(items: seq<Item>, buckets: seq<Bucket>, x: Item, b: nat)
    requires Buckets(items, buckets) && b <= |buckets|
    requires if b < |buckets| then buckets[b].language == x.language
             else forall a | 0 <= a < |buckets| :: buckets[a].language != x.language
    ensures Buckets(items + [x], Grouped(buckets, x, b))
  {
    hide OfLanguage;
    var next := Grouped(buckets, x, b);
    forall a | 0 <= a < |next| ensures next[a].items == OfLanguage(items + [x], next[a].language) {
      OfLanguageAppend(items, [x], next[a].language);
      OfLanguageOne(x, next[a].language);
      if b == |buckets| {
        NoneOfLanguage(items, buckets, x.language);
      }
    }
    forall y | y in items + [x] ensures HasBucket(next, y.language) {
      GroupedHas(items, buckets, x, b, y);
    }
    forall a, c | 0 <= a < c < |next| ensures Earlier(items + [x], next[a].language, next[c].language) {
      if c < |buckets| {
        EarlierKept(items, x, buckets[a].language, buckets[c].language);
      } else {
        NewIsLater(items, buckets, x, a);
      }
    }
  }

  lemma EarlierKept(items: seq<Item>, x: Item, p: string, q: string)
    requires Earlier(items, p, q)
    ensures Earlier(items + [x], p, q)
  {
    var i :| 0 <= i < |items| && FirstAt(items, p, q, i);
    assert FirstAt(items + [x], p, q, i);
  }

  /** A language without a bucket comes after every language that has one. */
  lemma NewIsLater(items: seq<Item>, buckets: seq<Bucket>, x: Item, a: nat)
    requires Buckets(items, buckets) && a < |buckets| && forall c | 0 <= c < |buckets| :: buckets[c].language != x.language
    ensures Earlier(items + [x], buckets[a].language, x.language)
  {
    hide OfLanguage, Earlier;
    var first := buckets[a].items[0];
    assert first in OfLanguage(items, buckets[a].language);
    OfLanguageMember(items, first, buckets[a].language);
    var i :| 0 <= i < |items| && items[i] == first;
    forall j | 0 <= j <= i ensures items[j].language != x.language {
      assert items[j] in items && HasBucket(buckets, items[j].language);
    }
    AtIndex(items, x, buckets[a].language, i);
  }

  lemma AtIndex(items: seq<Item>, x: Item, p: string, i: nat)
    requires i < |items| && items[i].language == p && forall j | 0 <= j <= i :: items[j].language != x.language
    ensures Earlier(items + [x], p, x.language)
  {
    assert FirstAt(items + [x], p, x.language, i);
  }

  lemma GroupedHas(items: seq<Item>, buckets: seq<Bucket>, x: Item, b: nat, y: Item)
    requires Buckets(items, buckets) && b <= |buckets| && y in items + [x]
    requires b < |buckets| ==> buckets[b].language == x.language
    ensures HasBucket(Grouped(buckets, x, b), y.language)
  {
    hide OfLanguage;
    var next := Grouped(buckets, x, b);
    if y in items {
      assert HasBucket(buckets, y.language);
      var a :| 0 <= a < |buckets| && buckets[a].language == y.language;
      assert next[a].language == y.language;
    } else {
      assert next[b].language == y.language;
    }
  }

  lemma NoneOfLanguage(items: seq<Item>, buckets: seq<Bucket>, language: string)
    requires Buckets(items, buckets) && !HasBucket(buckets, language)
    ensures OfLanguage(items, language) == []
  {
    if OfLanguage(items, language) != [] {
      OfLanguageMember(items, OfLanguage(items, language)[0], language);
    }
  }

  lemma {:induction false} OfLanguageMember(items: seq<Item>, x: Item, language: string)
    requires x in OfLanguage(items, language)
    ensures x in items
    decreases |items|
  {
    if items[0] != x {
      OfLanguageMember(items[1..], x, language);
    }
  }

  /** How many of bucket b are taken after `round` whole rounds and `j` buckets of the next. */
  function Taken(buckets: seq<Bucket>, round: nat, j: nat, b: nat): nat
    requires b < |buckets|
  {
    Min(|buckets[b].items|, if b < j then round + 1 else round)
  }

  ghost predicate BucketShare(buckets: seq<Bucket>, selected: seq<Item>, round: nat, j: nat, b: nat)
    requires b < |buckets|
  {
    OfLanguage(selected, buckets[b].language) == buckets[b].items[..Taken(buckets, round, j, b)]
  }

  /** The selection so far takes that prefix of every bucket, and nothing else. */
  ghost predicate Shared(buckets: seq<Bucket>, selected: seq<Item>, round: nat, j: nat) {
    && (forall b | 0 <= b < |buckets| :: BucketShare(buckets, selected, round, j, b))
    && (forall language | !HasBucket(buckets, language) :: OfLanguage(selected, language) == [])
  }

  /** The selection after bucket j has had its turn. */
  function Turned(buckets: seq<Bucket>, selected: seq<Item>, round: nat, j: nat): seq<Item>
    requires j < |buckets|
  {
    if round < |buckets[j].items| then selected + [buckets[j].items[round]] else selected
  }

  lemma SharedStep(items: seq<Item>, buckets: seq<Bucket>, selected: seq<Item>, round: nat, j: nat)
    requires Buckets(items, buckets) && Shared(buckets, selected, round, j) && j < |buckets|
    ensures Shared(buckets, Turned(buckets, selected, round, j), round, j + 1)
  {
    hide OfLanguage;
    var next := Turned(buckets, selected, round, j);
    var after := j + 1;
    forall b | 0 <= b < |buckets| ensures BucketShare(buckets, next, round, after, b) {
      assert BucketShare(buckets, selected, round, j, b);
      TurnedLanguage(items, buckets, selected, round, j, buckets[b].language);
      if b == j && round < |buckets[j].items| {
        assert buckets[j].items[..round + 1] == buckets[j].items[..round] + [buckets[j].items[round]];
      }
    }
    forall language | !HasBucket(buckets, language) ensures OfLanguage(next, language) == [] {
      TurnedLanguage(items, buckets, selected, round, j, language);
    }
  }

  lemma TurnedLanguage(items: seq<Item>, buckets: seq<Bucket>, selected: seq<Item>, round: nat, j: nat, language: string)
    requires Buckets(items, buckets) && j < |buckets|
    ensures OfLanguage(Turned(buckets, selected, round, j), language) ==
            OfLanguage(selected, language) +
            (if round < |buckets[j].items| && buckets[j].language == language then [buckets[j].items[round]] else [])
  {
    if round < |buckets[j].items| {
      var x := buckets[j].items[round];
      assert x in OfLanguage(items, buckets[j].language);
      OfLanguageAppend(selected, [x], language);
      OfLanguageOne(x, language);
    }
  }

  /** The selection takes a prefix of each language, evenly: two languages differ by at most one unless
      the one with fewer has none left, and the one that occurs first goes first. */
  ghost predicate Fair(items: seq<Item>, selected: seq<Item>) {
    && PrefixOfEach(items, selected)
    && forall p, q :: Even(items, selected, p, q) && InTurn(items, selected, p, q)
  }

  /** And so does every prefix of it: at no point is one language served ahead of its turn. */
  ghost predicate FairThroughout(items: seq<Item>, selected: seq<Item>) {
    forall k | 0 <= k <= |selected| :: Fair(items, selected[..k])
  }

  lemma FairThroughoutStep(items: seq<Item>, selected: seq<Item>, x: Item)
    requires FairThroughout(items, selected) && Fair(items, selected + [x])
    ensures FairThroughout(items, selected + [x])
  {
    hide Fair;
    var next := selected + [x];
    forall k | 0 <= k <= |next| ensures Fair(items, next[..k]) {
      if k <= |selected| {
        assert next[..k] == selected[..k];
      } else {
        assert next[..k] == next;
      }
    }
  }

  ghost predicate Even(items: seq<Item>, selected: seq<Item>, p: string, q: string) {
    |OfLanguage(selected, p)| + 1 < |OfLanguage(selected, q)| ==>
      OfLanguage(selected, p) == OfLanguage(items, p)
  }

  /** A language that occurs earlier is not behind one that occurs later, unless all of it is taken. */
  ghost predicate InTurn(items: seq<Item>, selected: seq<Item>, p: string, q: string) {
    Earlier(items, p, q) ==>
      |OfLanguage(selected, p)| >= |OfLanguage(selected, q)| || OfLanguage(selected, p) == OfLanguage(items, p)
  }

  lemma SharedIsFair(items: seq<Item>, buckets: seq<Bucket>, selected: seq<Item>, round: nat, j: nat)
    requires Buckets(items, buckets) && Shared(buckets, selected, round, j)
    ensures Fair(items, selected)
  {
    hide OfLanguage, Buckets, Shared;
    forall language ensures SharedOf(items, selected, round, language) {
      LanguageShare(items, buckets, selected, round, j, language);
    }
    forall p, q ensures Even(items, selected, p, q) && InTurn(items, selected, p, q) {
      assert SharedOf(items, selected, round, p) && SharedOf(items, selected, round, q);
      TakenInTurn(items, buckets, selected, round, j, p, q);
    }
    forall language ensures OfLanguage(selected, language) <= OfLanguage(items, language) {
      assert SharedOf(items, selected, round, language);
    }
  }

  lemma TakenInTurn(items: seq<Item>, buckets: seq<Bucket>, selected: seq<Item>, round: nat, j: nat, p: string, q: string)
    requires Buckets(items, buckets) && Shared(buckets, selected, round, j)
    ensures InTurn(items, selected, p, q)
  {
    hide OfLanguage, Earlier;
    if Earlier(items, p, q) && HasBucket(buckets, q) {
      EarlierOccurs(items, p, q);
      var i :| 0 <= i < |items| && items[i].language == p;
      assert items[i] in items && HasBucket(buckets, p);
      var a :| 0 <= a < |buckets| && buckets[a].language == p;
      var b :| 0 <= b < |buckets| && buckets[b].language == q;
      if b <= a {
        if b < a {
          EarlierOneWay(items, p, q);
        }
        assert false;
      }
      assert BucketShare(buckets, selected, round, j, a) && BucketShare(buckets, selected, round, j, b);
      var taken, all := Taken(buckets, round, j, a), buckets[a].items;
      assert taken == |all| ==> all[..taken] == all;
    }
  }

  lemma EarlierOccurs(items: seq<Item>, p: string, q: string)
    requires Earlier(items, p, q)
    ensures p != q && exists i :: 0 <= i < |items| && items[i].language == p
  {
    var i :| 0 <= i < |items| && FirstAt(items, p, q, i);
    assert items[i].language != q;
  }

  lemma EarlierOneWay(items: seq<Item>, p: string, q: string)
    requires Earlier(items, p, q)
    ensures !Earlier(items, q, p)
  {
    var i :| 0 <= i < |items| && FirstAt(items, p, q, i);
    forall k | 0 <= k < |items| ensures !FirstAt(items, q, p, k) {
      if k < i {
        assert items[k].language != q;
      }
    }
  }

  /** Between `round` and `round + 1` items of the language are taken, or all of them if fewer. */
  ghost predicate SharedOf(items: seq<Item>, selected: seq<Item>, round: nat, language: string) {
    var s, all := OfLanguage(selected, language), OfLanguage(items, language);
    s <= all && |s| <= round + 1 && (|s| < round ==> s == all)
  }

  lemma LanguageShare(items: seq<Item>, buckets: seq<Bucket>, selected: seq<Item>, round: nat, j: nat, language: string)
    requires Buckets(items, buckets) && Shared(buckets, selected, round, j)
    ensures SharedOf(items, selected, round, language)
  {
    hide OfLanguage;
    if HasBucket(buckets, language) {
      var b :| 0 <= b < |buckets| && buckets[b].language == language;
      assert BucketShare(buckets, selected, round, j, b);
    } else {
      NoneOfLanguage(items, buckets, language);
    }
  }

  /** Exactly min(count, available) items; it and every prefix of it a fair prefix of every language. */
  method RoundRobin(items: seq<Item>, count: int) returns (selected: seq<Item>)
    ensures |selected| == if count < 0 then 0 else Min(count, |items|)
    ensures FairThroughout(items, selected) && multiset(selected) <= multiset(items)
  {
    hide Shared, Buckets, Fair, FairThroughout, OfLanguage;
    var buckets := GroupByLanguage(items);
    selected := [];
    var index := 0;
    SharedStart(buckets);
    ghost var reached := 0;
    FairStart(items, buckets);
    var more := true;
    while |selected| < count && more
      invariant Shared(buckets, selected, index, reached)
      invariant FairThroughout(items, selected)
      invariant |selected| < count && more ==> reached == 0
      invariant |selected| > 0 ==> |selected| <= count
      invariant !more ==> Shared(buckets, selected, index, 0) && Exhausted(buckets, index)
      decreases more, count - |selected|
    {
      var added := false;
      ghost var before := |selected|;
      reached := 0;
      for j := 0 to |buckets|
        invariant Shared(buckets, selected, index, reached) && reached <= j
        invariant FairThroughout(items, selected)
        invariant |selected| < count ==> reached == j
        invariant |selected| <= count && before <= |selected|
        invariant added <==> |selected| > before
        invariant !added ==> forall b | 0 <= b < j :: |buckets[b].items| <= index
      {
        if |selected| < count {
          SharedStep(items, buckets, selected, index, j);
        }
        if index < |buckets[j].items| && |selected| < count {
          SharedIsFair(items, buckets, selected + [buckets[j].items[index]], index, j + 1);
          FairThroughoutStep(items, selected, buckets[j].items[index]);
          selected := selected + [buckets[j].items[index]];
          added := true;
          reached := j + 1;
        } else if |selected| < count {
          reached := j + 1;
        }
      }
      if !added {
        more := false;
        SharedExhausted(buckets, selected, index, reached);
        reached := 0;
      } else if |selected| < count {
        SharedRound(buckets, selected, index);
        index := index + 1;
        reached := 0;
      }
    }
    FairPrefixes(items, selected);
    PrefixesAreItems(selected, items);
    if !more {
      ExhaustedTakesAll(items, buckets, selected, index);
    }
  }

  lemma FairStart(items: seq<Item>, buckets: seq<Bucket>)
    requires Buckets(items, buckets) && Shared(buckets, [], 0, 0)
    ensures FairThroughout(items, [])
  {
    hide Buckets, Shared, Fair, OfLanguage;
    SharedIsFair(items, buckets, [], 0, 0);
    var none: seq<Item> := [];
    assert none[..0] == [];
  }

  lemma FairPrefixes(items: seq<Item>, selected: seq<Item>)
    requires FairThroughout(items, selected)
    ensures PrefixOfEach(items, selected)
  {
    assert selected[..|selected|] == selected;
  }

  lemma SharedStart(buckets: seq<Bucket>)
    ensures Shared(buckets, [], 0, 0)
  {
  }

  lemma SharedRound(buckets: seq<Bucket>, selected: seq<Item>, round: nat)
    requires Shared(buckets, selected, round, |buckets|)
    ensures Shared(buckets, selected, round + 1, 0)
  {
    hide OfLanguage;
    var after := round + 1;
    forall b | 0 <= b < |buckets| ensures BucketShare(buckets, selected, after, 0, b) {
      assert BucketShare(buckets, selected, round, |buckets|, b);
    }
  }

  ghost predicate Exhausted(buckets: seq<Bucket>, round: nat) {
    forall b | 0 <= b < |buckets| :: |buckets[b].items| <= round
  }

  lemma SharedExhausted(buckets: seq<Bucket>, selected: seq<Item>, round: nat, j: nat)
    requires Shared(buckets, selected, round, j) && Exhausted(buckets, round)
    ensures Shared(buckets, selected, round, 0)
  {
    hide OfLanguage;
    forall b | 0 <= b < |buckets| ensures BucketShare(buckets, selected, round, 0, b) {
      assert BucketShare(buckets, selected, round, j, b);
    }
  }

  lemma ExhaustedTakesAll(items: seq<Item>, buckets: seq<Bucket>, selected: seq<Item>, round: nat)
    requires Buckets(items, buckets) && Shared(buckets, selected, round, 0) && Exhausted(buckets, round)
    ensures |selected| == |items|
  {
    hide OfLanguage;
    forall language ensures OfLanguage(selected, language) == OfLanguage(items, language) {
      if HasBucket(buckets, language) {
        var b :| 0 <= b < |buckets| && buckets[b].language == language;
        assert BucketShare(buckets, selected, round, 0, b);
        assert buckets[b].items[..|buckets[b].items|] == buckets[b].items;
      } else {
        NoneOfLanguage(items, buckets, language);
      }
    }
    AllLanguagesAreAll(selected, items);
  }

  /******* Answerable and unanswerable *******/

  function Total(answerable: nat, unanswerable: nat, minimum: int): int {
    Max(minimum, Min(answerable + unanswerable, minimum * 2))
  }

  /** round(): any integer within a half, whichever way ties go. */
  predicate RoundsTo(x: real, r: int) { x - 0.5 <= r as real <= x + 0.5 }

  /** How many of each kind are asked for, given the rounded share. */
  function Wanted(answerable: nat, unanswerable: nat, minimum: int, rounded: int): (int, int) {
    var total := Total(answerable, unanswerable, minimum);
    var first := Min(unanswerable, Max(1, rounded));
    var wantAnswerable := Min(answerable, total - first);
    (wantAnswerable, Min(unanswerable, total - wantAnswerable))
  }

  function NonNegative(x: int): nat { if x < 0 then 0 else x }

  /** The items the two round robins return together. */
  function Selected(answerable: nat, unanswerable: nat, minimum: int, rounded: int): nat {
    var (a, u) := Wanted(answerable, unanswerable, minimum, rounded);
    Min(NonNegative(a), answerable) + Min(NonNegative(u), unanswerable)
  }

  /** With both kinds present the set has exactly min(available, total) items precisely when the
      share of unanswerable questions asked for first fits in the total. */
  lemma SelectedExactly(answerable: nat, unanswerable: nat, minimum: int, rounded: int)
    requires answerable >= 1 && unanswerable >= 1
    ensures Selected(answerable, unanswerable, minimum, rounded) == Min(answerable + unanswerable, Total(answerable, unanswerable, minimum))
       <==> Min(unanswerable, Max(1, rounded)) <= Total(answerable, unanswerable, minimum)
  {
    hide Total;
    if Min(unanswerable, Max(1, rounded)) > Total(answerable, unanswerable, minimum) {
      ShareTooLarge(answerable, unanswerable, minimum, rounded);
    }
  }

  /** Asking for more than the total selects that many, which is more than the total. */
  lemma ShareTooLarge(answerable: nat, unanswerable: nat, minimum: int, rounded: int)
    requires answerable >= 1 && unanswerable >= 1
    requires Min(unanswerable, Max(1, rounded)) > Total(answerable, unanswerable, minimum)
    ensures Selected(answerable, unanswerable, minimum, rounded) == Min(unanswerable, Max(1, rounded))
    ensures Total(answerable, unanswerable, minimum) >= minimum
  {
  }

  /** It fits for every rounding of a ratio in the unit interval exactly when the minimum is at least one. */
  lemma RatioFits(answerable: nat, unanswerable: nat, minimum: int, ratio: real, rounded: int)
    requires answerable >= 1 && unanswerable >= 1 && 0.0 <= ratio <= 1.0
    requires RoundsTo(Share(Total(answerable, unanswerable, minimum), ratio), rounded)
    ensures Min(unanswerable, Max(1, rounded)) <= Total(answerable, unanswerable, minimum) <==> minimum >= 1
  {
    hide Share;
    var total := Total(answerable, unanswerable, minimum);
    if minimum >= 1 {
      ShareWithin(total, ratio, Share(total, ratio), rounded);
    }
  }

  /** The exact share that is rounded. */
  function Share(total: int, ratio: real): real { total as real * ratio }

  lemma ShareWithin(total: int, ratio: real, share: real, rounded: int)
    requires total >= 1 && 0.0 <= ratio <= 1.0 && share == Share(total, ratio)
    requires RoundsTo(share, rounded)
    ensures rounded <= total
  {
    ScaleDown(total as real, ratio);
  }

  lemma ScaleDown(x: real, ratio: real)
    requires x >= 0.0 && ratio <= 1.0
    ensures x * ratio <= x
  {
    assert x * (1.0 - ratio) >= 0.0;
  }

  datatype Balanced = Balanced(items: seq<Item>) | NoUnanswerable | NoAnswerable | TooFew(available: nat)

  function Answerable(items: seq<Item>, yes: bool): (r: seq<Item>)
    ensures forall x | x in r :: x.answerable == yes
  {
    if items == [] then []
    else (if items[0].answerable == yes then [items[0]] else []) + Answerable(items[1..], yes)
  }

  lemma {:induction false} AnswerableSplits(items: seq<Item>)
    ensures multiset(items) == multiset(Answerable(items, true)) + multiset(Answerable(items, false))
    ensures |items| == |Answerable(items, true)| + |Answerable(items, false)|
    decreases |items|
  {
    if items != [] {
      AnswerableSplits(items[1..]);
      assert items == [items[0]] + items[1..];
    }
  }

  /******* Sorting by id *******/

  /** Strings compare by their first difference, character by character. */
  predicate AtMost(a: string, b: string) {
    a == "" || (b != "" && (a[0] < b[0] || (a[0] == b[0] && AtMost(a[1..], b[1..]))))
  }

  lemma {:induction false} AtMostTotal(a: string, b: string)
    ensures AtMost(a, b) || AtMost(b, a)
    decreases |a|
  {
    if a != "" && b != "" {
      AtMostTotal(a[1..], b[1..]);
    }
  }

  lemma {:induction false} AtMostTransitive(a: string, b: string, c: string)
    requires AtMost(a, b) && AtMost(b, c)
    ensures AtMost(a, c)
    decreases |a|
  {
    if a != "" && a[0] == b[0] == c[0] {
      AtMostTransitive(a[1..], b[1..], c[1..]);
    }
  }

  /** That is: one is a prefix of the other, or the first character that differs is the lesser. */
  lemma {:induction false} AtMostExactly(a: string, b: string)
    ensures AtMost(a, b) <==> a <= b || exists k :: 0 <= k < |a| && k < |b| && a[..k] == b[..k] && a[k] < b[k]
    decreases |a|
  {
    if a != "" && b != "" && a[0] == b[0] {
      var x, y := a[1..], b[1..];
      AtMostExactly(x, y);
      assert a == [a[0]] + x && b == [a[0]] + y;
      if k :| 0 <= k < |x| && k < |y| && x[..k] == y[..k] && x[k] < y[k] {
        assert a[..k + 1] == [a[0]] + x[..k] && b[..k + 1] == [a[0]] + y[..k];
        assert a[k + 1] < b[k + 1];
      }
      if k :| 0 <= k < |a| && k < |b| && a[..k] == b[..k] && a[k] < b[k] {
        assert k > 0;
        assert x[..k - 1] == a[..k][1..] && y[..k - 1] == b[..k][1..];
        assert x[k - 1] < y[k - 1];
      }
    } else if a != "" && b != "" && a[0] < b[0] {
      assert a[..0] == b[..0];
    } else if a != "" && b != "" {
      forall k | 0 < k < |a| && k < |b| ensures a[..k] != b[..k] {
        assert a[..k][0] != b[..k][0];
      }
    }
  }

  ghost predicate AscendingById(items: seq<Item>) {
    forall i, j | 0 <= i < j < |items| :: AtMost(items[i].id, items[j].id)
  }

  /** The items with one id, in order. */
  function OfId(items: seq<Item>, id: string): seq<Item> {
    if items == [] then [] else (if items[0].id == id then [items[0]] else []) + OfId(items[1..], id)
  }

  lemma OfIdCons(x: Item, rest: seq<Item>, id: string)
    ensures OfId([x] + rest, id) == (if x.id == id then [x] else []) + OfId(rest, id)
  {
    assert ([x] + rest)[1..] == rest;
  }

  function Insert(x: Item, items: seq<Item>): seq<Item> {
    if items == [] || AtMost(x.id, items[0].id) then [x] + items else [items[0]] + Insert(x, items[1..])
  }

  function SortById(items: seq<Item>): seq<Item> {
    if items == [] then [] else Insert(items[0], SortById(items[1..]))
  }

  lemma {:induction false} InsertSorts(x: Item, items: seq<Item>)
    requires AscendingById(items)
    ensures AscendingById(Insert(x, items)) && multiset(Insert(x, items)) == multiset(items) + multiset{x}
    decreases |items|
  {
    hide AtMost;
    if items == [] || AtMost(x.id, items[0].id) {
      forall j | 0 <= j < |items| ensures AtMost(x.id, items[j].id) {
        if j > 0 {
          AtMostTransitive(x.id, items[0].id, items[j].id);
        }
      }
    } else {
      AtMostTotal(x.id, items[0].id);
      InsertSorts(x, items[1..]);
      var rest := Insert(x, items[1..]);
      assert items == [items[0]] + items[1..];
      assert multiset(items) == multiset{items[0]} + multiset(items[1..]);
      assert multiset(rest) == multiset(items[1..]) + multiset{x};
      forall j | 0 <= j < |rest| ensures AtMost(items[0].id, rest[j].id) {
        assert rest[j] in multiset(rest);
        assert rest[j] == x || rest[j] in items[1..];
      }
    }
  }

  /** Items of equal id keep their order. */
  lemma {:induction false} InsertStable(x: Item, items: seq<Item>, id: string)
    requires AscendingById(items)
    ensures OfId(Insert(x, items), id) == (if x.id == id then [x] else []) + OfId(items, id)
    decreases |items|
  {
    hide AtMost, OfId;
    OfIdCons(x, items, id);
    if items != [] && !AtMost(x.id, items[0].id) {
      AtMostTotal(x.id, x.id);
      InsertStable(x, items[1..], id);
      assert items == [items[0]] + items[1..];
      OfIdCons(items[0], items[1..], id);
      OfIdCons(items[0], Insert(x, items[1..]), id);
    }
  }

  /** The sort is stable: ascending ids, and for each id the same items in the same order. */
  lemma {:induction false} SortSorts(items: seq<Item>)
    ensures AscendingById(SortById(items)) && multiset(SortById(items)) == multiset(items)
    ensures forall id :: OfId(SortById(items), id) == OfId(items, id)
    decreases |items|
  {
    hide AtMost, OfId, AscendingById, Insert;
    if items == [] {
      EmptyAscends();
    } else {
      SortSorts(items[1..]);
      var rest := SortById(items[1..]);
      InsertSorts(items[0], rest);
      assert items == [items[0]] + items[1..];
      forall id ensures OfId(SortById(items), id) == OfId(items, id) {
        InsertStable(items[0], rest, id);
        OfIdCons(items[0], items[1..], id);
      }
    }
  }

  lemma EmptyAscends()
    ensures AscendingById([])
  {
  }

  /** Why the two parts of a balanced set were chosen. */
  ghost predicate Halves(items: seq<Item>, combined: seq<Item>, a: seq<Item>, u: seq<Item>) {
    combined == SortById(a + u) && FairThroughout(Answerable(items, true), a) && FairThroughout(Answerable(items, false), u)
  }

  /** The balanced set, sorted by id. With both kinds present it fails exactly when fewer than the minimum
      exist. It has twice the minimum of items, or all if there are fewer, if the first share of unanswerable
      ones fits in that, and just that share otherwise; more unanswerable ones than the share are taken
      only where answerable ones run out. */
  method BalanceGolden(items: seq<Item>, minimum: int, rounded: int) returns (r: Balanced)
    ensures r.NoUnanswerable? <==> Answerable(items, false) == []
    ensures r.NoAnswerable? <==> Answerable(items, false) != [] && Answerable(items, true) == []
    ensures r.TooFew? <==> Answerable(items, false) != [] && Answerable(items, true) != [] && |items| < minimum
    ensures r.TooFew? ==> r.available == |items|
    ensures r.Balanced? ==> multiset(r.items) <= multiset(items) && AscendingById(r.items)
    ensures r.Balanced? ==>
      var total, unanswerable := Min(|items|, 2 * minimum), |Answerable(items, false)|;
      var first := Min(unanswerable, Max(1, rounded));
      var asked := if first <= total then Max(first, Min(unanswerable, total - |Answerable(items, true)|)) else first;
      && |r.items| == (if first <= total then total else first)
      && exists a, u :: Halves(items, r.items, a, u) && |u| == asked
  {
    hide FairThroughout, Wanted, Total, Answerable, SortById, AscendingById, OfId;
    var answerable, unanswerable := Answerable(items, true), Answerable(items, false);
    AnswerableSplits(items);
    if unanswerable == [] {
      return NoUnanswerable;
    }
    if answerable == [] {
      return NoAnswerable;
    }
    var (wantAnswerable, wantUnanswerable) := Wanted(|answerable|, |unanswerable|, minimum, rounded);
    var a := RoundRobin(answerable, wantAnswerable);
    var u := RoundRobin(unanswerable, wantUnanswerable);
    var combined := a + u;
    SelectedSize(|answerable|, |unanswerable|, minimum, rounded);
    if |combined| < minimum {
      return TooFew(|combined|);
    }
    SortSorts(combined);
    var sorted := SortById(combined);
    assert |sorted| == |multiset(sorted)| == |multiset(combined)| == |combined|;
    assert Halves(items, sorted, a, u);
    SubsetSum(multiset(a), multiset(answerable), multiset(u), multiset(unanswerable));
    return Balanced(sorted);
  }

  lemma SubsetSum(a: multiset<Item>, b: multiset<Item>, c: multiset<Item>, d: multiset<Item>)
    requires a <= b && c <= d
    ensures a + c <= b + d
  {
  }

  /** What the two round robins return, in number. */
  lemma SelectedSize(answerable: nat, unanswerable: nat, minimum: int, rounded: int)
    requires answerable >= 1 && unanswerable >= 1
    ensures var (a, u) := Wanted(answerable, unanswerable, minimum, rounded);
      var asked := Min(NonNegative(u), unanswerable);
      var size := Min(NonNegative(a), answerable) + asked;
      var total, first := Min(answerable + unanswerable, 2 * minimum), Min(unanswerable, Max(1, rounded));
      && (size < minimum <==> answerable + unanswerable < minimum)
      && (size < minimum ==> size == answerable + unanswerable)
      && (size >= minimum ==> size == if first <= total then total else first)
      && (size >= minimum ==> asked == if first <= total then Max(first, Min(unanswerable, total - answerable)) else first)
  {
    SelectedExactly(answerable, unanswerable, minimum, rounded);
    if Min(unanswerable, Max(1, rounded)) > Total(answerable, unanswerable, minimum) {
      ShareTooLarge(answerable, unanswerable, minimum, rounded);
    }
  }
}
