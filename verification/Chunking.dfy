/**
 The chunking strategies of src/fastrag/chunking.py: packing whole sentences with a carried overlap,
 sliding word windows, parents and children, and cuts at dips in similarity. A sentence is its
 sequence of words; joining with spaces is left to the reader.
 */
module Chunking {
  import opened Common
  import opened Ordering

  type Sentence = seq<string>

  function Words(ss: seq<Sentence>): nat {
    if ss == [] then 0 else |ss[0]| + Words(ss[1..])
  }

  lemma {:induction false} WordsAppend(a: seq<Sentence>, b: seq<Sentence>)
    ensures Words(a + b) == Words(a) + Words(b)
    decreases |a|
  {
    if a == [] {
      assert a + b == b;
    } else {
      WordsAppend(a[1..], b);
      assert (a + b)[1..] == a[1..] + b;
    }
  }

  lemma WordsOne(s: Sentence)
    ensures Words([s]) == |s|
  {
    assert [s][1..] == [];
  }

  /******* Sentence packing *******/

  /** A chunk as a range of sentences [lo, hi); those before `first` are carried from the chunk before. */
  datatype Span = Span(lo: nat, first: nat, hi: nat)

  predicate InRange(s: Span, n: nat) { s.lo <= s.first < s.hi <= n }

  /** The carry is the longest suffix of the previous chunk within the overlap. */
  predicate LongestCarry(ss: seq<Sentence>, prev: Span, next: Span, overlap: int) {
    && InRange(prev, |ss|) && InRange(next, |ss|)
    && next.first == prev.hi && prev.lo <= next.lo
    && Words(ss[next.lo..prev.hi]) <= Max(overlap, 0)
    && (next.lo == prev.lo || Words(ss[next.lo - 1..prev.hi]) > overlap)
  }

  /** A range of new sentences after its carry, within the size unless the carry and its first new
      sentence overrun it. */
  predicate Fits(ss: seq<Sentence>, s: Span, size: int, overlap: int) {
    InRange(s, |ss|) && Words(ss[s.lo..s.hi]) <= Max(size, Max(overlap, 0) + |ss[s.first]|)
  }

  /** A closed chunk could not take the next sentence. */
  predicate Full(ss: seq<Sentence>, s: Span, size: int) {
    InRange(s, |ss|) && s.hi < |ss| && Words(ss[s.lo..s.hi]) + |ss[s.hi]| > size
  }

  /** The span `s` may follow `spans`. */
  ghost predicate Follows(ss: seq<Sentence>, spans: seq<Span>, s: Span, size: int, overlap: int)
    decreases |spans|, 1
  {
    && Fits(ss, s, size, overlap)
    && (if spans == [] then s.lo == s.first == 0
        else
          && Chained(ss, spans, size, overlap)
          && LongestCarry(ss, spans[|spans| - 1], s, overlap) && Full(ss, spans[|spans| - 1], size))
  }

  /** A document's chunks: the first starts it, and each follows those before. */
  ghost predicate Chained(ss: seq<Sentence>, spans: seq<Span>, size: int, overlap: int)
    decreases |spans|, 0
  {
    spans == [] || Follows(ss, spans[..|spans| - 1], spans[|spans| - 1], size, overlap)
  }

  function ChunkOf(ss: seq<Sentence>, s: Span): seq<Sentence> {
    if InRange(s, |ss|) then ss[s.lo..s.hi] else []
  }

  /** The longest suffix of `current` within the overlap, built from the end. */
  method Carry(current: seq<Sentence>, overlap: int) returns (carry: seq<Sentence>, carried: nat, ghost k: nat)
    ensures k <= |current| && carry == current[k..] && carried == Words(carry) && carried <= Max(overlap, 0)
    ensures k == 0 || Words(current[k - 1..]) > overlap
  {
    carry, carried, k := [], 0, |current|;
    var j := |current|;
    while j > 0
      invariant 0 <= j <= |current| && k == j
      invariant carry == current[j..] && carried == Words(carry) && carried <= Max(overlap, 0)
      decreases j
    {
      var previous := current[j - 1];
      assert current[j - 1..] == [previous] + current[j..];
      if carried + |previous| > overlap {
        return;
      }
      carry := [previous] + carry;
      carried := carried + |previous|;
      j := j - 1;
      k := j;
    }
  }

  /** How the chunks of a document lie in it: contiguous ranges of sentences whose ends strictly increase
      to the last sentence; each closed chunk was full; what a chunk carries over is the longest
      suffix within the overlap; and each stays within max(size, overlap + its first new sentence). */
  ghost predicate Packs(ss: seq<Sentence>, chunks: seq<seq<Sentence>>, spans: seq<Span>, size: int, overlap: int) {
    && Chained(ss, spans, size, overlap) && |chunks| == |spans|
    && (forall k | 0 <= k < |spans| :: chunks[k] == ChunkOf(ss, spans[k]))
    && (ss == [] <==> spans == [])
    && (spans != [] ==> spans[|spans| - 1].hi == |ss|)
  }

  /** Packs whole sentences. */
  method SplitSentences(ss: seq<Sentence>, size: int, overlap: int) returns (chunks: seq<seq<Sentence>>)
    ensures exists spans :: Packs(ss, chunks, spans, size, overlap)
  {
    hide Words, Follows, Chained;
    chunks := [];
    ghost var spans: seq<Span> := [];
    var current: seq<Sentence> := [];
    var currentWords := 0;
    ghost var lo, first := 0, 0;
    ChainedNone(ss, size, overlap);
    for i := 0 to |ss|
      invariant lo <= first <= i && current == ss[lo..i] && currentWords == Words(current)
      invariant i > 0 ==> first < i && Follows(ss, spans, Span(lo, first, i), size, overlap)
      invariant i == 0 ==> spans == [] && first == 0
      invariant |chunks| == |spans|
      invariant forall k | 0 <= k < |spans| :: chunks[k] == ChunkOf(ss, spans[k])
    {
      var sentence := ss[i];
      var closes := current != [] && currentWords + |sentence| > size;
      if closes {
        chunks := chunks + [current];
        ghost var k;
        var closed := current;
        current, currentWords, k := Carry(closed, overlap);
        Reopens(ss, spans, Span(lo, first, i), k, size, overlap);
        assert closed[k..] == ss[lo + k..i];
        spans := spans + [Span(lo, first, i)];
        lo, first := lo + k, i;
      } else if i > 0 {
        Grows(ss, spans, Span(lo, first, i), size, overlap);
      } else {
        Opens(ss, size, overlap);
      }
      WordsAppend(current, [sentence]);
      WordsOne(sentence);
      assert ss[lo..i + 1] == ss[lo..i] + [sentence];
      current := current + [sentence];
      currentWords := currentWords + |sentence|;
    }
    if current != [] {
      chunks := chunks + [current];
      Closes(ss, spans, Span(lo, first, |ss|), size, overlap);
      spans := spans + [Span(lo, first, |ss|)];
    }
    assert Packs(ss, chunks, spans, size, overlap);
  }

  lemma ChainedNone(ss: seq<Sentence>, size: int, overlap: int)
    ensures Chained(ss, [], size, overlap) && Words([]) == 0
  {
  }

  lemma Closes(ss: seq<Sentence>, spans: seq<Span>, s: Span, size: int, overlap: int)
    requires Follows(ss, spans, s, size, overlap)
    ensures Chained(ss, spans + [s], size, overlap)
  {
    assert (spans + [s])[..|spans|] == spans;
  }

  lemma Opens(ss: seq<Sentence>, size: int, overlap: int)
    requires ss != []
    ensures Follows(ss, [], Span(0, 0, 1), size, overlap)
  {
    WordsOne(ss[0]);
    assert ss[0..1] == [ss[0]];
  }

  lemma Grows(ss: seq<Sentence>, spans: seq<Span>, s: Span, size: int, overlap: int)
    requires Follows(ss, spans, s, size, overlap) && InRange(s, |ss|) && s.hi < |ss|
    requires Words(ss[s.lo..s.hi]) + |ss[s.hi]| <= size
    ensures Follows(ss, spans, s.(hi := s.hi + 1), size, overlap)
  {
    hide Words, Chained;
    assert ss[s.lo..s.hi + 1] == ss[s.lo..s.hi] + [ss[s.hi]];
    WordsAppend(ss[s.lo..s.hi], [ss[s.hi]]);
    WordsOne(ss[s.hi]);
  }

  lemma Reopens(ss: seq<Sentence>, spans: seq<Span>, s: Span, k: nat, size: int, overlap: int)
    requires Follows(ss, spans, s, size, overlap) && InRange(s, |ss|) && s.hi < |ss|
    requires Words(ss[s.lo..s.hi]) + |ss[s.hi]| > size
    requires k <= s.hi - s.lo && Words(ss[s.lo..s.hi][k..]) <= Max(overlap, 0)
    requires k == 0 || Words(ss[s.lo..s.hi][k - 1..]) > overlap
    ensures Follows(ss, spans + [s], Span(s.lo + k, s.hi, s.hi + 1), size, overlap)
  {
    hide Words, Chained, Follows, Fits, LongestCarry;
    var next := Span(s.lo + k, s.hi, s.hi + 1);
    NextFits(ss, next, size, overlap, ss[s.lo..s.hi][k..]);
    NextCarries(ss, s, k, overlap);
    Closes(ss, spans, s, size, overlap);
    FollowsLast(ss, spans, s, next, size, overlap);
  }

  lemma NextFits(ss: seq<Sentence>, next: Span, size: int, overlap: int, carry: seq<Sentence>)
    requires next.lo <= next.first < |ss| && next.hi == next.first + 1
    requires carry == ss[next.lo..next.first] && Words(carry) <= Max(overlap, 0)
    ensures Fits(ss, next, size, overlap)
  {
    hide Words;
    assert ss[next.lo..next.hi] == carry + [ss[next.first]];
    WordsAppend(carry, [ss[next.first]]);
    WordsOne(ss[next.first]);
  }

  lemma NextCarries(ss: seq<Sentence>, s: Span, k: nat, overlap: int)
    requires InRange(s, |ss|) && s.hi < |ss|
    requires k <= s.hi - s.lo && Words(ss[s.lo..s.hi][k..]) <= Max(overlap, 0)
    requires k == 0 || Words(ss[s.lo..s.hi][k - 1..]) > overlap
    ensures LongestCarry(ss, s, Span(s.lo + k, s.hi, s.hi + 1), overlap)
  {
    hide Words;
    assert ss[s.lo..s.hi][k..] == ss[s.lo + k..s.hi];
    if k > 0 {
      assert ss[s.lo..s.hi][k - 1..] == ss[s.lo + k - 1..s.hi];
    }
  }

  lemma FollowsLast(ss: seq<Sentence>, spans: seq<Span>, s: Span, next: Span, size: int, overlap: int)
    requires Chained(ss, spans + [s], size, overlap)
    requires Fits(ss, next, size, overlap) && LongestCarry(ss, s, next, overlap) && Full(ss, s, size)
    ensures Follows(ss, spans + [s], next, size, overlap)
  {
    hide Words, Fits, LongestCarry, Full, Chained;
  }

  /** The sentences of a chunk that are not carried. */
  function FreshPart(ss: seq<Sentence>, s: Span): seq<Sentence> {
    if InRange(s, |ss|) then ChunkOf(ss, s)[s.first - s.lo..] else []
  }

  function FreshParts(ss: seq<Sentence>, spans: seq<Span>): seq<seq<Sentence>> {
    if spans == [] then []
    else FreshParts(ss, spans[..|spans| - 1]) + [FreshPart(ss, spans[|spans| - 1])]
  }

  /** What a chain says of its last span and of the one before it. */
  lemma LastFollows(ss: seq<Sentence>, spans: seq<Span>, size: int, overlap: int)
    requires Chained(ss, spans, size, overlap) && spans != []
    ensures var n := |spans| - 1;
      && InRange(spans[n], |ss|)
      && (n == 0 ==> spans[0].first == 0)
      && (n > 0 ==> Chained(ss, spans[..n], size, overlap) && spans[n].first == spans[n - 1].hi)
  {
    hide Words;
  }

  /** Removing from each chunk what it carried rebuilds the document, and the chunk ends increase. */
  lemma {:induction false} FreshRebuilds(ss: seq<Sentence>, spans: seq<Span>, size: int, overlap: int)
    requires Chained(ss, spans, size, overlap) && spans != []
    ensures InRange(spans[|spans| - 1], |ss|)
    ensures Flatten(FreshParts(ss, spans)) == ss[..spans[|spans| - 1].hi]
    ensures |spans| > 1 ==> spans[|spans| - 2].hi < spans[|spans| - 1].hi
    decreases |spans|
  {
    hide Words, Flatten, Chained;
    LastFollows(ss, spans, size, overlap);
    var n := |spans| - 1;
    var last, init := spans[n], spans[..n];
    FlattenAppend(FreshParts(ss, init), [FreshPart(ss, last)]);
    FlattenOne(FreshPart(ss, last));
    assert FreshPart(ss, last) == ss[last.first..last.hi];
    if n == 0 {
      FlattenNone<Sentence>();
    } else {
      FreshRebuilds(ss, init, size, overlap);
      assert ss[..last.hi] == ss[..last.first] + ss[last.first..last.hi];
    }
  }

  /** A chunk without the sentences it carried over. */
  function Uncarried(chunk: seq<Sentence>, s: Span): seq<Sentence> {
    if s.lo <= s.first <= s.lo + |chunk| then chunk[s.first - s.lo..] else []
  }

  lemma {:induction false} FreshPartsAt(ss: seq<Sentence>, spans: seq<Span>)
    ensures |FreshParts(ss, spans)| == |spans|
    ensures forall k | 0 <= k < |spans| :: FreshParts(ss, spans)[k] == FreshPart(ss, spans[k])
    decreases |spans|
  {
    hide FreshPart;
    if spans != [] {
      FreshPartsAt(ss, spans[..|spans| - 1]);
    }
  }

  lemma UncarriedIs(ss: seq<Sentence>, chunk: seq<Sentence>, s: Span)
    requires chunk == ChunkOf(ss, s)
    ensures Uncarried(chunk, s) == FreshPart(ss, s)
  {
  }

  /** The chunks of a document, each without what it carried, are the document again. */
  lemma PackingRebuilds(ss: seq<Sentence>, chunks: seq<seq<Sentence>>, spans: seq<Span>, size: int, overlap: int)
    requires Packs(ss, chunks, spans, size, overlap)
    ensures Flatten(seq(|chunks|, k requires 0 <= k < |chunks| => Uncarried(chunks[k], spans[k]))) == ss
  {
    hide Words, Flatten, Chained, FreshParts, FreshPart, Uncarried, ChunkOf;
    FreshPartsAt(ss, spans);
    var parts := seq(|chunks|, k requires 0 <= k < |chunks| => Uncarried(chunks[k], spans[k]));
    forall k | 0 <= k < |chunks| ensures parts[k] == FreshPart(ss, spans[k]) {
      UncarriedIs(ss, chunks[k], spans[k]);
    }
    assert parts == FreshParts(ss, spans);
    if spans == [] {
      FlattenNone<Sentence>();
      assert parts == [];
    } else {
      FreshRebuilds(ss, spans, size, overlap);
      assert ss[..|ss|] == ss;
    }
  }

  /******* Sliding word windows *******/

  function StepOf(size: int, overlap: int): (step: int)
    ensures step >= 1
  {
    Max(1, size - overlap)
  }

  /** Where the k-th window starts. */
  function StartOf(k: nat, step: nat): nat { k * step }

  lemma StartNext(k: nat, step: nat)
    ensures StartOf(0, step) == 0 && StartOf(k + 1, step) == StartOf(k, step) + step
  {
  }

  lemma StartMonotone(a: nat, b: nat, step: nat)
    requires a <= b
    ensures StartOf(a, step) <= StartOf(b, step)
  {
  }

  /** Where the slice words[start : stop] ends: a negative bound counts from the end of the text. */
  function StopAt(n: nat, stop: int): (end: nat)
    ensures end <= n
  {
    if stop < 0 then Max(0, n + stop) else Min(stop, n)
  }

  /** The k-th window of n words. */
  predicate IsWindow(words: seq<string>, w: seq<string>, k: nat, size: nat, step: nat) {
    var start := StartOf(k, step);
    start < |words| && w == words[start..Min(start + size, |words|)]
  }

  /** Windows start every `step` words; the sequence stops at the first that reaches the end, or when
      the next would start past it. */
  predicate AreWindows(words: seq<string>, windows: seq<seq<string>>, size: nat, step: nat) {
    && windows != []
    && (forall k | 0 <= k < |windows| :: IsWindow(words, windows[k], k, size, step))
    && (forall k: nat | k < |windows| - 1 :: StartOf(k, step) + size < |words|)
    && (StartOf(|windows| - 1, step) + size >= |words| || StartOf(|windows|, step) >= |words|)
  }

  /** The k-th window for a negative size: it stops `back` words before the end of what follows it. */
  predicate IsClipped(words: seq<string>, w: seq<string>, k: nat, back: nat, step: nat) {
    var start := StartOf(k, step);
    start < back < |words| && w == words[start..start + (|words| - back)]
  }

  /** What a negative size yields: windows all `back` words shorter than the text, as long as they start
      within the first `back` words. */
  predicate AreClipped(words: seq<string>, windows: seq<seq<string>>, back: nat, step: nat) {
    if |words| <= back then windows == []
    else
      && (forall k | 0 <= k < |windows| :: IsClipped(words, windows[k], k, back, step))
      && StartOf(|windows|, step) >= back
  }

  /** What splitting into windows yields, for texts and sizes of any length. */
  predicate WindowsOf(words: seq<string>, windows: seq<seq<string>>, size: int, overlap: int) {
    if words == [] || size == 0 then windows == []
    else if |words| <= size then windows == [words]
    else if size < 0 then AreClipped(words, windows, -size, StepOf(size, overlap))
    else AreWindows(words, windows, size, StepOf(size, overlap))
  }

  /** The k-th slice of the loop, whatever the sign of the size. */
  predicate IsSlice(words: seq<string>, w: seq<string>, k: nat, size: int, step: nat) {
    var start := StartOf(k, step);
    start < |words| && w == words[start..Max(start, StopAt(|words|, start + size))] && w != []
  }

  /** Why the loop stops with `count` slices. */
  predicate Ends(words: seq<string>, count: nat, size: int, step: nat) {
    || (count > 0 && StartOf(count - 1, step) + size >= |words|)
    || StartOf(count, step) >= |words|
    || StopAt(|words|, StartOf(count, step) + size) <= StartOf(count, step)
  }

  method WordWindows(words: seq<string>, size: int, overlap: int) returns (windows: seq<seq<string>>)
    ensures WindowsOf(words, windows, size, overlap)
  {
    if words == [] {
      return [];
    }
    if |words| <= size {
      return [words];
    }
    hide StartOf, WindowsOf;
    var step := StepOf(size, overlap);
    windows := [];
    var start := 0;
    StartNext(0, step);
    while start < |words|
      invariant start == StartOf(|windows|, step)
      invariant forall k | 0 <= k < |windows| :: IsSlice(words, windows[k], k, size, step)
      invariant forall k: nat | k < |windows| :: StartOf(k, step) + size < |words|
      decreases |words| - start
    {
      var window := words[start..Max(start, StopAt(|words|, start + size))];
      if window == [] {
        break;
      }
      StartNext(|windows|, step);
      windows := windows + [window];
      if start + size >= |words| {
        break;
      }
      start := start + step;
    }
    assert Ends(words, |windows|, size, step);
    SlicesAre(words, windows, size, overlap);
  }

  lemma SlicesAre(words: seq<string>, windows: seq<seq<string>>, size: int, overlap: int)
    requires words != [] && |words| > size
    requires forall k | 0 <= k < |windows| :: IsSlice(words, windows[k], k, size, StepOf(size, overlap))
    requires forall k: nat | k < |windows| - 1 :: StartOf(k, StepOf(size, overlap)) + size < |words|
    requires Ends(words, |windows|, size, StepOf(size, overlap))
    ensures WindowsOf(words, windows, size, overlap)
  {
    hide StartOf;
    var step := StepOf(size, overlap);
    StartNext(0, step);
    if size > 0 {
      forall k | 0 <= k < |windows| ensures IsWindow(words, windows[k], k, size, step) {
        assert IsSlice(words, windows[k], k, size, step);
      }
    } else if size == 0 {
      if windows != [] {
        EmptySlice(words, windows[0], step);
      }
    } else if |words| <= -size {
      if windows != [] {
        ShortText(words, windows[0], size, step);
      }
    } else {
      forall k | 0 <= k < |windows| ensures IsClipped(words, windows[k], k, -size, step) {
        assert IsSlice(words, windows[k], k, size, step);
      }
      if windows != [] {
        assert IsSlice(words, windows[|windows| - 1], |windows| - 1, size, step);
      }
    }
  }

  lemma EmptySlice(words: seq<string>, w: seq<string>, step: nat)
    ensures !IsSlice(words, w, 0, 0, step)
  {
  }

  lemma ShortText(words: seq<string>, w: seq<string>, size: int, step: nat)
    requires size < 0 && |words| <= -size
    ensures !IsSlice(words, w, 0, size, step)
  {
  }

  /** Whether every word is in some window: the k-th starts at StartOf(k, step). */
  ghost predicate Covers(words: seq<string>, windows: seq<seq<string>>, step: nat) {
    forall i | 0 <= i < |words| :: Covered(windows, i, step)
  }

  ghost predicate Covered(windows: seq<seq<string>>, i: nat, step: nat) {
    exists k: nat :: k < |windows| && StartOf(k, step) <= i < StartOf(k, step) + |windows[k]|
  }

  /** The same for windows of full size, cut off where the text ends. */
  ghost predicate InSomeWindow(count: nat, i: nat, size: nat, step: nat) {
    exists k: nat :: k < count && StartOf(k, step) <= i < StartOf(k, step) + size
  }

  lemma TimesAtLeast(a: nat, b: nat, step: nat)
    requires a <= b
    ensures a * step <= b * step
  {
  }

  lemma WindowLength(words: seq<string>, w: seq<string>, k: nat, size: nat, step: nat, i: nat)
    requires IsWindow(words, w, k, size, step) && i < |words|
    ensures StartOf(k, step) <= i < StartOf(k, step) + |w| <==> StartOf(k, step) <= i < StartOf(k, step) + size
  {
    hide StartOf;
  }

  lemma CoveredBySize(words: seq<string>, windows: seq<seq<string>>, size: nat, step: nat, i: nat)
    requires AreWindows(words, windows, size, step) && i < |words|
    ensures Covered(windows, i, step) <==> InSomeWindow(|windows|, i, size, step)
  {
    hide StartOf, IsWindow;
    if k: nat :| k < |windows| && StartOf(k, step) <= i < StartOf(k, step) + |windows[k]| {
      WindowLength(words, windows[k], k, size, step, i);
    }
    if k: nat :| k < |windows| && StartOf(k, step) <= i < StartOf(k, step) + size {
      WindowLength(words, windows[k], k, size, step, i);
    }
  }

  /** A text longer than one window is covered exactly when the overlap is not negative: a negative one
      steps over words. */
  lemma LongTextCovered(words: seq<string>, windows: seq<seq<string>>, size: nat, overlap: int)
    requires size >= 1 && |words| > size && AreWindows(words, windows, size, StepOf(size, overlap))
    ensures Covers(words, windows, StepOf(size, overlap)) <==> overlap >= 0
  {
    hide AreWindows, IsWindow;
    var step := StepOf(size, overlap);
    if overlap >= 0 {
      forall i | 0 <= i < |words| ensures Covered(windows, i, step) {
        WindowsReach(words, windows, size, step);
        FindWindow(|words|, |windows|, i, size, step);
        CoveredBySize(words, windows, size, step, i);
      }
    } else {
      CoveredBySize(words, windows, size, step, size);
      assert !InSomeWindow(|windows|, size, size, step) by {
        forall k: nat | k < |windows| ensures !(StartOf(k, step) <= size < StartOf(k, step) + size) {
          if k > 0 {
            TimesAtLeast(1, k, step);
          }
        }
      }
    }
  }

  lemma WindowsReach(words: seq<string>, windows: seq<seq<string>>, size: nat, step: nat)
    requires AreWindows(words, windows, size, step)
    ensures |windows| >= 1
    ensures StartOf(|windows| - 1, step) + size >= |words| || StartOf(|windows|, step) >= |words|
  {
  }

  /** A negative size leaves out the last word, and so does size zero. */
  lemma LastWordMissed(words: seq<string>, windows: seq<seq<string>>, back: nat, step: nat)
    requires words != [] && AreClipped(words, windows, back, step) && back >= 1
    ensures !Covered(windows, |words| - 1, step)
  {
    hide StartOf;
    if |words| > back {
      forall k: nat | k < |windows| ensures StartOf(k, step) + |windows[k]| <= |words| - 1 {
        assert IsClipped(words, windows[k], k, back, step);
      }
    }
  }

  /** Every word of a text is in some window exactly when the size is at least one and either the text fits
      one window or the overlap is not negative. */
  lemma WindowsCoverExactly(words: seq<string>, windows: seq<seq<string>>, size: int, overlap: int)
    requires WindowsOf(words, windows, size, overlap)
    ensures Covers(words, windows, StepOf(size, overlap)) <==>
            words == [] || (size >= 1 && (|words| <= size || overlap >= 0))
  {
    hide StartOf, AreWindows, AreClipped;
    var step := StepOf(size, overlap);
    if words != [] {
      if size <= 0 {
        if size < 0 {
          LastWordMissed(words, windows, -size, step);
        }
        assert !Covered(windows, |words| - 1, step);
      } else if |words| <= size {
        StartNext(0, step);
        forall i | 0 <= i < |words| ensures Covered(windows, i, step) {
          assert StartOf(0, step) <= i < StartOf(0, step) + |windows[0]|;
        }
      } else {
        LongTextCovered(words, windows, size, overlap);
      }
    }
  }

  /** With no word stepped over, the windows reach the end, so dividing by the step finds one. */
  lemma FindWindow(n: nat, count: nat, i: nat, size: nat, step: nat)
    requires 1 <= step <= size && i < n && count >= 1
    requires StartOf(count - 1, step) + size >= n || StartOf(count, step) >= n
    ensures InSomeWindow(count, i, size, step)
  {
    hide StartOf;
    var q := i / step;
    DivStart(i, step);
    if q < count {
      assert StartOf(q, step) <= i < StartOf(q, step) + size;
    } else {
      StartMonotone(count, q, step);
      StartNext(count - 1, step);
      assert StartOf(count - 1, step) <= i < StartOf(count - 1, step) + size;
    }
  }

  lemma DivStart(i: nat, step: nat)
    requires step >= 1
    ensures StartOf(i / step, step) <= i < StartOf(i / step, step) + step
  {
  }

  /** The last window reaches the end when the overlap is not negative. */
  lemma LastReaches(words: seq<string>, windows: seq<seq<string>>, size: nat, step: nat)
    requires 1 <= step <= size && AreWindows(words, windows, size, step)
    ensures StartOf(|windows| - 1, step) + size >= |words|
  {
    hide StartOf, IsWindow;
    StartNext(|windows| - 1, step);
  }

  function CeilDiv(a: nat, b: nat): nat
    requires b > 0
  {
    (a + b - 1) / b
  }

  /** ceil((n - size) / step) + 1 windows. */
  lemma WindowCount(words: seq<string>, windows: seq<seq<string>>, size: nat, step: nat)
    requires 1 <= step <= size && |words| > size && AreWindows(words, windows, size, step)
    ensures |windows| == CeilDiv(|words| - size, step) + 1
  {
    hide IsWindow, CeilDiv;
    LastReaches(words, windows, size, step);
    var m := |windows| - 1;
    var rest := |words| - size;
    PositiveFactor(m, step);
    assert StartOf(m - 1, step) + size < |words|;
    CeilUnique(rest, step, m);
  }

  lemma CeilUnique(a: nat, b: nat, m: nat)
    requires b > 0 && m >= 1 && (m - 1) * b < a <= m * b
    ensures CeilDiv(a, b) == m
  {
    var x := a + b - 1;
    assert (m - 1) * b == m * b - b;
    assert m * b <= x < m * b + b;
    DivUnique(x, b, m);
  }

  lemma PositiveFactor(m: int, step: nat)
    requires m * step > 0 && m >= 0
    ensures m >= 1
  {
  }

  lemma TimesLess(a: nat, b: nat, step: nat)
    requires a * step < b * step
    ensures a < b
  {
    if b <= a {
      TimesAtLeast(b, a, step);
      assert false;
    }
  }

  lemma DivUnique(x: nat, b: nat, m: nat)
    requires b > 0 && m * b <= x < m * b + b
    ensures x / b == m
  {
    var q := x / b;
    assert q * b <= x < q * b + b;
    assert (q + 1) * b == q * b + b && (m + 1) * b == m * b + b;
    TimesLess(q, m + 1, b);
    TimesLess(m, q + 1, b);
  }

  /** The first window, then each later one without its first size - step words. */
  function Unrepeated(windows: seq<seq<string>>, repeated: nat): seq<string> {
    if windows == [] then []
    else if |windows| == 1 then windows[0]
    else
      var last := windows[|windows| - 1];
      Unrepeated(windows[..|windows| - 1], repeated) + (if repeated <= |last| then last[repeated..] else [])
  }

  /** What a later window adds starts where the one before ended. */
  lemma WindowTail(words: seq<string>, w: seq<string>, k: nat, size: nat, step: nat)
    requires 1 <= step <= size && k >= 1 && IsWindow(words, w, k, size, step) && StartOf(k - 1, step) + size < |words|
    ensures size - step <= |w|
    ensures w[size - step..] == words[StartOf(k - 1, step) + size..Min(StartOf(k, step) + size, |words|)]
  {
    hide StartOf;
    StartNext(k - 1, step);
    var start := StartOf(k, step);
    assert start + (size - step) == StartOf(k - 1, step) + size;
  }

  lemma JoinSlices(words: seq<string>, a: nat, b: nat)
    requires a <= b <= |words|
    ensures words[..a] + words[a..b] == words[..b]
  {
  }

  /** Dropping the repeated words of each later window rebuilds the text. */
  lemma {:induction false} WindowsRebuild(words: seq<string>, windows: seq<seq<string>>, size: nat, step: nat)
    requires 1 <= step <= size && windows != []
    requires forall k | 0 <= k < |windows| :: IsWindow(words, windows[k], k, size, step)
    requires forall k: nat | k < |windows| - 1 :: StartOf(k, step) + size < |words|
    ensures Unrepeated(windows, size - step) == words[..Min(StartOf(|windows| - 1, step) + size, |words|)]
    decreases |windows|
  {
    hide IsWindow, StartOf, Unrepeated;
    var m := |windows| - 1;
    if m == 0 {
      UnrepeatedOne(windows, size - step);
      FirstWindow(words, windows[0], size, step);
    } else {
      var init := windows[..m];
      WindowsRebuild(words, init, size, step);
      UnrepeatedLast(windows, size - step);
      WindowTail(words, windows[m], m, size, step);
      StartNext(m - 1, step);
      JoinSlices(words, StartOf(m - 1, step) + size, Min(StartOf(m, step) + size, |words|));
    }
  }

  lemma UnrepeatedOne(windows: seq<seq<string>>, repeated: nat)
    requires |windows| == 1
    ensures Unrepeated(windows, repeated) == windows[0]
  {
  }

  lemma UnrepeatedLast(windows: seq<seq<string>>, repeated: nat)
    requires |windows| > 1
    ensures var m := |windows| - 1;
      repeated <= |windows[m]| ==>
        Unrepeated(windows, repeated) == Unrepeated(windows[..m], repeated) + windows[m][repeated..]
  {
  }

  lemma FirstWindow(words: seq<string>, w: seq<string>, size: nat, step: nat)
    requires IsWindow(words, w, 0, size, step)
    ensures w == words[..Min(StartOf(0, step) + size, |words|)]
  {
  }

  /******* Parents and children *******/

  /** Parents are windows without overlap; each is split again into its children. */
  method SplitHierarchical(words: seq<string>, parentSize: int, childSize: int, overlap: int)
    returns (parents: seq<seq<string>>, children: seq<seq<seq<string>>>)
    ensures WindowsOf(words, parents, parentSize, 0)
    ensures |children| == |parents| && forall i | 0 <= i < |parents| :: WindowsOf(parents[i], children[i], childSize, overlap)
  {
    parents := WordWindows(words, parentSize, 0);
    children := [];
    for i := 0 to |parents|
      invariant |children| == i
      invariant forall j | 0 <= j < i :: WindowsOf(parents[j], children[j], childSize, overlap)
    {
      var below := WordWindows(parents[i], childSize, overlap);
      children := children + [below];
    }
  }

  /** Windows rebuild their text when the overlap is not negative. */
  lemma WindowsOfRebuild(words: seq<string>, windows: seq<seq<string>>, size: nat, overlap: int)
    requires size >= 1 && overlap >= 0 && WindowsOf(words, windows, size, overlap)
    ensures Unrepeated(windows, size - StepOf(size, overlap)) == words
  {
    hide StartOf, IsWindow;
    if |words| > size {
      var step := StepOf(size, overlap);
      LastReaches(words, windows, size, step);
      WindowsRebuild(words, windows, size, step);
      assert words[..|words|] == words;
    }
  }

  lemma {:induction false} UnrepeatedNone(windows: seq<seq<string>>)
    ensures Unrepeated(windows, 0) == Flatten(windows)
    decreases |windows|
  {
    if |windows| == 1 {
      FlattenOne(windows[0]);
      assert windows == [windows[0]];
    } else if windows != [] {
      var n := |windows| - 1;
      UnrepeatedNone(windows[..n]);
      assert windows == windows[..n] + [windows[n]];
      FlattenAppend(windows[..n], [windows[n]]);
      FlattenOne(windows[n]);
    }
  }

  /** The parents partition the document, and the children of each parent cover it. */
  lemma ParentsPartition(words: seq<string>, parents: seq<seq<string>>, parentSize: nat)
    requires parentSize >= 1 && WindowsOf(words, parents, parentSize, 0)
    ensures Flatten(parents) == words
  {
    hide WindowsOf, Unrepeated, Flatten;
    WindowsOfRebuild(words, parents, parentSize, 0);
    UnrepeatedNone(parents);
  }

  /******* Cuts at dips in similarity *******/

  /** The similarity below which a cut is made. */
  function Percentile(values: seq<real>, fraction: real): real {
    if values == [] then 0.0 else Sort(values)[Rank(|values|, fraction)]
  }

  lemma PercentileIsQuantile(values: seq<real>, fraction: real)
    ensures values != [] ==> IsQuantile(values, fraction, Percentile(values, fraction))
  {
    hide IsQuantile, Sort, Rank;
    if values != [] {
      RankIsQuantile(values, fraction);
    }
  }

  /** Within a chunk starting at `from`, neither a dip nor the word limit was met before its end. */
  predicate NoCutInside(sims: seq<real>, cut: real, maxWords: int, chunk: seq<Sentence>, from: nat) {
    forall j | 1 <= j < |chunk| :: OpenAfter(sims, cut, maxWords, chunk, from, j)
  }

  /** After j sentences there was neither a dip nor too many words. */
  predicate OpenAfter(sims: seq<real>, cut: real, maxWords: int, chunk: seq<Sentence>, from: nat, j: nat)
    requires j <= |chunk|
  {
    1 <= j && from + j - 1 < |sims| && sims[from + j - 1] >= cut && Words(chunk[..j]) < maxWords
  }

  /** Each chunk but the last was closed after its last sentence, at position `from` + its length - 1,
      by a dip or by reaching the word limit; inside a chunk neither held. */
  predicate CutsJustified(sims: seq<real>, cut: real, maxWords: int, chunks: seq<seq<Sentence>>, from: nat) {
    if chunks == [] then true
    else
      var end := from + |chunks[0]|;
      && chunks[0] != []
      && (|chunks| > 1 ==> end - 1 < |sims| && (sims[end - 1] < cut || Words(chunks[0]) >= maxWords))
      && NoCutInside(sims, cut, maxWords, chunks[0], from)
      && CutsJustified(sims, cut, maxWords, chunks[1..], end)
  }

  /** How many chunk ends are at dips. */
  function DipCuts(sims: seq<real>, cut: real, chunks: seq<seq<Sentence>>, from: nat): nat {
    if |chunks| <= 1 then 0
    else
      var end := from + |chunks[0]|;
      (if 1 <= end <= |sims| && sims[end - 1] < cut then 1 else 0) + DipCuts(sims, cut, chunks[1..], end)
  }

  /** Sentence i of the whole is not followed by a dip inside a chunk. */
  lemma NoDipInside(sims: seq<real>, cut: real, maxWords: int, chunk: seq<Sentence>, from: nat, n: nat)
    requires NoCutInside(sims, cut, maxWords, chunk, from) && from + n < from + |chunk| && from + n <= |sims|
    ensures CountBelow(sims[from..from + n], cut) == 0
  {
    var inside := sims[from..from + n];
    forall x | x in inside ensures cut <= x {
      var i :| 0 <= i < n && inside[i] == x;
      NotADip(sims, cut, maxWords, chunk, from, i + 1);
    }
    CountBelowNone(inside, cut);
  }

  lemma NotADip(sims: seq<real>, cut: real, maxWords: int, chunk: seq<Sentence>, from: nat, j: nat)
    requires NoCutInside(sims, cut, maxWords, chunk, from) && 1 <= j < |chunk|
    ensures from + j - 1 < |sims| && sims[from + j - 1] >= cut
  {
    assert OpenAfter(sims, cut, maxWords, chunk, from, j);
  }

  /** Every similarity below the cut closes a chunk: there are as many cuts at dips as dips. */
  lemma {:induction false} DipCutsExactly(sims: seq<real>, cut: real, maxWords: int, chunks: seq<seq<Sentence>>, from: nat)
    requires chunks != [] && CutsJustified(sims, cut, maxWords, chunks, from) && from + |Flatten(chunks)| == |sims| + 1
    ensures from <= |sims| && DipCuts(sims, cut, chunks, from) == CountBelow(sims[from..], cut)
    decreases |chunks|
  {
    hide CountBelow, NoCutInside;
    var end := from + |chunks[0]|;
    assert Flatten(chunks) == chunks[0] + Flatten(chunks[1..]);
    if |chunks| > 1 {
      NoDipInside(sims, cut, maxWords, chunks[0], from, |chunks[0]| - 1);
      DipCutsExactly(sims, cut, maxWords, chunks[1..], end);
      assert sims[from..] == sims[from..end - 1] + ([sims[end - 1]] + sims[end..]);
      CountBelowAppend(sims[from..end - 1], [sims[end - 1]] + sims[end..], cut);
      CountBelowCons(sims[end - 1], sims[end..], cut);
    } else {
      FlattenNone<Sentence>();
      assert chunks[1..] == [];
      NoDipInside(sims, cut, maxWords, chunks[0], from, |chunks[0]| - 1);
      assert sims[from..] == sims[from..from + (|chunks[0]| - 1)];
    }
  }

  lemma CountBelowCons(x: real, xs: seq<real>, t: real)
    ensures CountBelow([x] + xs, t) == (if x < t then 1 else 0) + CountBelow(xs, t)
  {
    assert ([x] + xs)[1..] == xs;
  }

  /** A chunk ends after the first n sentences. */
  ghost predicate EndsAfter(chunks: seq<seq<Sentence>>, n: nat) {
    exists k :: 0 <= k <= |chunks| && |Flatten(chunks[..k])| == n
  }

  /** A chunk ends after every sentence whose similarity to the next lies below the cut. */
  lemma {:induction false} DipsEnd(sims: seq<real>, cut: real, maxWords: int, chunks: seq<seq<Sentence>>, from: nat, i: nat)
    requires CutsJustified(sims, cut, maxWords, chunks, from) && from + |Flatten(chunks)| == |sims| + 1
    requires from <= i < |sims| && sims[i] < cut
    ensures EndsAfter(chunks, i + 1 - from)
    decreases |chunks|
  {
    if chunks == [] {
      FlattenNone<Sentence>();
    } else {
      var end := from + |chunks[0]|;
      assert Flatten(chunks) == chunks[0] + Flatten(chunks[1..]);
      if i + 1 < end {
        NotADip(sims, cut, maxWords, chunks[0], from, i + 1 - from);
      } else if i + 1 == end {
        assert chunks[..1] == [chunks[0]];
        FlattenOne(chunks[0]);
      } else {
        DipsEnd(sims, cut, maxWords, chunks[1..], end, i);
        var k :| 0 <= k <= |chunks[1..]| && |Flatten(chunks[1..][..k])| == i + 1 - end;
        assert chunks[..k + 1] == [chunks[0]] + chunks[1..][..k];
        FlattenAppend([chunks[0]], chunks[1..][..k]);
        FlattenOne(chunks[0]);
      }
    }
  }

  /** With a fraction in [0, 1), at most floor(m * fraction) of the cuts are driven by similarity, for m
      adjacent similarities, and exactly that many when these are pairwise distinct. A chunk ends at every
      similarity below the cut. */
  lemma SimilarityCuts(sims: seq<real>, fraction: real, cut: real, maxWords: int, chunks: seq<seq<Sentence>>)
    requires 0.0 <= fraction < 1.0 && IsQuantile(sims, fraction, cut)
    requires CutsJustified(sims, cut, maxWords, chunks, 0) && |Flatten(chunks)| == |sims| + 1
    ensures DipCuts(sims, cut, chunks, 0) == CountBelow(sims, cut) <= (|sims| as real * fraction).Floor
    ensures Distinct(sims) ==> DipCuts(sims, cut, chunks, 0) == (|sims| as real * fraction).Floor
    ensures forall i: nat | i < |sims| && sims[i] < cut :: EndsAfter(chunks, i + 1)
  {
    hide CutsJustified, DipCuts, CountBelow, CountAtMost, Distinct, EndsAfter;
    FlattenNone<Sentence>();
    DipCutsExactly(sims, cut, maxWords, chunks, 0);
    assert sims[0..] == sims;
    if Distinct(sims) {
      DistinctBelow(sims, fraction, cut);
    }
    forall i: nat | i < |sims| && sims[i] < cut ensures EndsAfter(chunks, i + 1) {
      DipsEnd(sims, cut, maxWords, chunks, 0, i);
    }
  }

  /** Cuts where adjacent sentences are least alike, and wherever a chunk has reached the word limit. */
  method SplitSemantic(ss: seq<Sentence>, sims: seq<real>, fraction: real, maxWords: int, minSentences: nat)
    returns (chunks: seq<seq<Sentence>>)
    requires ss != [] ==> |sims| == |ss| - 1
    ensures Flatten(chunks) == ss
    ensures |ss| <= minSentences ==> |chunks| <= 1
    ensures |ss| > minSentences ==>
      exists cut :: (sims != [] ==> IsQuantile(sims, fraction, cut)) && CutsJustified(sims, cut, maxWords, chunks, 0)
  {
    hide Words, CutsJustified, Flatten, ClosedSoFar, Percentile, IsQuantile;
    if |ss| <= minSentences {
      FlattenOne(ss);
      FlattenNone<Sentence>();
      return if ss == [] then [] else [ss];
    }
    var cut := Percentile(sims, fraction);
    PercentileIsQuantile(sims, fraction);
    chunks := [];
    var current := [ss[0]];
    ghost var from := 0;
    CutsStart(sims, cut, maxWords, ss[0]);
    FlattenNone<Sentence>();
    assert ss[..1] == [ss[0]];
    for index := 0 to |sims|
      invariant from + |current| == index + 1 && current != []
      invariant Flatten(chunks) + current == ss[..index + 1]
      invariant ClosedSoFar(sims, cut, maxWords, chunks, current, from)
    {
      var words := Words(current);
      NextCut(sims, cut, maxWords, chunks, current, from, ss[index + 1]);
      assert ss[..index + 2] == ss[..index + 1] + [ss[index + 1]];
      if sims[index] < cut || words >= maxWords {
        FlattenAppend(chunks, [current]);
        FlattenOne(current);
        chunks := chunks + [current];
        from := from + |current|;
        current := [];
      }
      assert [] + [ss[index + 1]] == [ss[index + 1]];
      current := current + [ss[index + 1]];
    }
    AllClosed(sims, cut, maxWords, chunks, current, from);
    FlattenAppend(chunks, [current]);
    FlattenOne(current);
    assert ss[..|ss|] == ss;
    chunks := chunks + [current];
  }

  /** The loop invariant of the semantic cut: appending the open chunk, and whatever follows it, to the
      closed ones keeps every cut justified. */
  ghost predicate ClosedSoFar(sims: seq<real>, cut: real, maxWords: int, chunks: seq<seq<Sentence>>, current: seq<Sentence>, from: nat) {
    NoCutInside(sims, cut, maxWords, current, from) && Extendable(sims, cut, maxWords, chunks, from)
  }

  /** Any justified continuation keeps the closed chunks justified. */
  ghost predicate Extendable(sims: seq<real>, cut: real, maxWords: int, chunks: seq<seq<Sentence>>, from: nat) {
    forall rest: seq<seq<Sentence>> :: rest != [] && CutsJustified(sims, cut, maxWords, rest, from) ==>
      CutsJustified(sims, cut, maxWords, chunks + rest, 0)
  }

  lemma CutsStart(sims: seq<real>, cut: real, maxWords: int, s: Sentence)
    ensures ClosedSoFar(sims, cut, maxWords, [], [s], 0)
  {
    hide CutsJustified, Words;
    forall rest: seq<seq<Sentence>> | rest != [] && CutsJustified(sims, cut, maxWords, rest, 0)
      ensures CutsJustified(sims, cut, maxWords, [] + rest, 0)
    {
      assert [] + rest == rest;
    }
  }

  /** One turn of the loop: the chunk closes at a dip or at the limit, and otherwise grows. */
  lemma NextCut(sims: seq<real>, cut: real, maxWords: int, chunks: seq<seq<Sentence>>, current: seq<Sentence>, from: nat, next: Sentence)
    requires ClosedSoFar(sims, cut, maxWords, chunks, current, from) && current != [] && from + |current| - 1 < |sims|
    ensures var dip := sims[from + |current| - 1] < cut;
      if dip || Words(current) >= maxWords
      then ClosedSoFar(sims, cut, maxWords, chunks + [current], [next], from + |current|)
      else ClosedSoFar(sims, cut, maxWords, chunks, current + [next], from)
  {
    hide Words, CutsJustified, NoCutInside, Extendable;
    if sims[from + |current| - 1] < cut || Words(current) >= maxWords {
      ExtendOne(sims, cut, maxWords, chunks, current, from);
      OneSentence(sims, cut, maxWords, next, from + |current|);
    } else {
      GrownFits(sims, cut, maxWords, current, from, next);
    }
  }

  lemma OneSentence(sims: seq<real>, cut: real, maxWords: int, s: Sentence, from: nat)
    ensures NoCutInside(sims, cut, maxWords, [s], from)
  {
  }

  lemma ExtendOne(sims: seq<real>, cut: real, maxWords: int, chunks: seq<seq<Sentence>>, current: seq<Sentence>, from: nat)
    requires Extendable(sims, cut, maxWords, chunks, from) && NoCutInside(sims, cut, maxWords, current, from)
    requires current != [] && from + |current| - 1 < |sims|
    requires sims[from + |current| - 1] < cut || Words(current) >= maxWords
    ensures Extendable(sims, cut, maxWords, chunks + [current], from + |current|)
  {
    hide Words, CutsJustified, NoCutInside;
    forall rest: seq<seq<Sentence>> | rest != [] && CutsJustified(sims, cut, maxWords, rest, from + |current|)
      ensures CutsJustified(sims, cut, maxWords, chunks + [current] + rest, 0)
    {
      JustifiedCons(sims, cut, maxWords, current, rest, from);
      assert chunks + [current] + rest == chunks + ([current] + rest);
    }
  }

  lemma JustifiedCons(sims: seq<real>, cut: real, maxWords: int, current: seq<Sentence>, rest: seq<seq<Sentence>>, from: nat)
    requires current != [] && from + |current| - 1 < |sims|
    requires sims[from + |current| - 1] < cut || Words(current) >= maxWords
    requires NoCutInside(sims, cut, maxWords, current, from)
    requires CutsJustified(sims, cut, maxWords, rest, from + |current|)
    ensures CutsJustified(sims, cut, maxWords, [current] + rest, from)
  {
    hide Words, NoCutInside;
    assert ([current] + rest)[1..] == rest;
  }

  lemma GrownFits(sims: seq<real>, cut: real, maxWords: int, current: seq<Sentence>, from: nat, next: Sentence)
    requires current != [] && from + |current| - 1 < |sims|
    requires sims[from + |current| - 1] >= cut && Words(current) < maxWords
    requires NoCutInside(sims, cut, maxWords, current, from)
    ensures NoCutInside(sims, cut, maxWords, current + [next], from)
  {
    hide Words;
    var grown := current + [next];
    forall j | 1 <= j < |grown| ensures OpenAfter(sims, cut, maxWords, grown, from, j) {
      if j < |current| {
        assert OpenAfter(sims, cut, maxWords, current, from, j);
        assert grown[..j] == current[..j];
      } else {
        assert grown[..j] == current;
      }
    }
  }

  lemma AllClosed(sims: seq<real>, cut: real, maxWords: int, chunks: seq<seq<Sentence>>, current: seq<Sentence>, from: nat)
    requires ClosedSoFar(sims, cut, maxWords, chunks, current, from) && current != []
    ensures CutsJustified(sims, cut, maxWords, chunks + [current], 0)
  {
    hide Words;
    assert [current][1..] == [];
    assert CutsJustified(sims, cut, maxWords, [], from + |current|);
    assert CutsJustified(sims, cut, maxWords, [current], from);
  }
}
