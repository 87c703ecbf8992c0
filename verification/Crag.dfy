/**
 Corrective retrieval, src/fastrag/crag.py: grading by the top reranker score, knowledge refinement
 by sentence strips, and one rewritten retry. Text is held as sentences of words; the reranker, the
 rewriting model and the retriever are inputs that may answer anything or fail.
 */
module Crag {
  import opened Common
  import opened Citations
  import MarkerText
  import opened Calibration
  import Chunking

  type Sentence = Chunking.Sentence

  datatype Chunk = Chunk(id: string, text: seq<Sentence>)

  datatype Ranked = Ranked(chunk: Chunk, score: real)

  const MIN_STRIP_WORDS := 4

  /******* Strips *******/

  datatype Strip = Strip(index: nat, sentence: Sentence)

  function Labelled(index: nat, text: seq<Sentence>): (r: seq<Strip>)
    ensures forall s | s in r :: s.index == index && s.sentence in text && |s.sentence| >= MIN_STRIP_WORDS
  {
    if text == [] then []
    else
      var init := text[..|text| - 1];
      var last := text[|text| - 1];
      Labelled(index, init) + if |last| >= MIN_STRIP_WORDS then [Strip(index, last)] else []
  }

  /** The strips of the candidates, in order. */
  function StripsOf(top: seq<Ranked>): (r: seq<Strip>)
    ensures forall s | s in r :: s.index < |top| && s.sentence in top[s.index].chunk.text
    decreases |top|
  {
    if top == [] then []
    else StripsOf(top[..|top| - 1]) + Labelled(|top| - 1, top[|top| - 1].chunk.text)
  }

  /** The sentences long enough to be scored, in order. */
  function Long(text: seq<Sentence>): seq<Sentence> {
    if text == [] then [] else (if |text[0]| >= MIN_STRIP_WORDS then [text[0]] else []) + Long(text[1..])
  }

  /** The sentences of the strips of one candidate, in order. */
  function SentencesAt(strips: seq<Strip>, index: nat): seq<Sentence> {
    if strips == [] then []
    else (if strips[0].index == index then [strips[0].sentence] else []) + SentencesAt(strips[1..], index)
  }

  lemma {:induction false} SentencesAppend(a: seq<Strip>, b: seq<Strip>, index: nat)
    ensures SentencesAt(a + b, index) == SentencesAt(a, index) + SentencesAt(b, index)
    decreases |a|
  {
    if a == [] {
      assert a + b == b;
    } else {
      SentencesAppend(a[1..], b, index);
      assert (a + b)[1..] == a[1..] + b;
    }
  }

  lemma {:induction false} LongAppend(a: seq<Sentence>, b: seq<Sentence>)
    ensures Long(a + b) == Long(a) + Long(b)
    decreases |a|
  {
    if a == [] {
      assert a + b == b;
    } else {
      LongAppend(a[1..], b);
      assert (a + b)[1..] == a[1..] + b;
    }
  }

  lemma {:induction false} LabelledExactly(index: nat, text: seq<Sentence>, i: nat)
    ensures SentencesAt(Labelled(index, text), i) == if i == index then Long(text) else []
    decreases |text|
  {
    hide SentencesAt, Long;
    if text == [] {
      NoSentences(i);
    } else {
      var n := |text| - 1;
      var last := if |text[n]| >= MIN_STRIP_WORDS then [Strip(index, text[n])] else [];
      LabelledExactly(index, text[..n], i);
      SentencesAppend(Labelled(index, text[..n]), last, i);
      assert text == text[..n] + [text[n]];
      LongAppend(text[..n], [text[n]]);
      NoSentences(i);
      OneSentence(index, text[n], i);
    }
  }

  lemma NoSentences(i: nat)
    ensures SentencesAt([], i) == [] && Long([]) == []
  {
  }

  lemma OneSentence(index: nat, sentence: Sentence, i: nat)
    ensures SentencesAt([Strip(index, sentence)], i) == if i == index then [sentence] else []
    ensures Long([sentence]) == if |sentence| >= MIN_STRIP_WORDS then [sentence] else []
  {
    assert [Strip(index, sentence)][1..] == [] && [sentence][1..] == [];
  }

  /** The strips are, candidate by candidate, every sentence of at least four words, in order and once. */
  lemma {:induction false} StripsExactly(top: seq<Ranked>, i: nat)
    ensures SentencesAt(StripsOf(top), i) == if i < |top| then Long(top[i].chunk.text) else []
    ensures forall a, b | 0 <= a < b < |StripsOf(top)| :: StripsOf(top)[a].index <= StripsOf(top)[b].index
    decreases |top|
  {
    hide SentencesAt, Long, Labelled;
    if top == [] {
      NoSentences(i);
    } else {
      var n := |top| - 1;
      StripsExactly(top[..n], i);
      var last := Labelled(n, top[n].chunk.text);
      LabelledExactly(n, top[n].chunk.text, i);
      SentencesAppend(StripsOf(top[..n]), last, i);
      var strips := StripsOf(top);
      forall a, b | 0 <= a < b < |strips| ensures strips[a].index <= strips[b].index {
        var before := StripsOf(top[..n]);
        assert strips[a] == if a < |before| then before[a] else last[a - |before|];
        assert strips[b] == if b < |before| then before[b] else last[b - |before|];
        LabelledIndex(n, top[n].chunk.text);
        if a < |before| {
          assert strips[a] in before;
        }
      }
    }
  }

  lemma LabelledIndex(index: nat, text: seq<Sentence>)
    ensures forall k | 0 <= k < |Labelled(index, text)| :: Labelled(index, text)[k].index == index
  {
    forall k | 0 <= k < |Labelled(index, text)| ensures Labelled(index, text)[k].index == index {
      assert Labelled(index, text)[k] in Labelled(index, text);
    }
  }

  /** The sentences of one candidate whose strips scored at least the threshold, in order. */
  function KeptFor(strips: seq<Strip>, scores: seq<real>, threshold: real, index: nat): seq<Sentence>
    requires |scores| == |strips|
    decreases |strips|
  {
    if strips == [] then []
    else
      var n := |strips| - 1;
      KeptFor(strips[..n], scores[..n], threshold, index)
      + if strips[n].index == index && scores[n] >= threshold then [strips[n].sentence] else []
  }

  ghost predicate KeptAt(strips: seq<Strip>, scores: seq<real>, threshold: real, index: nat, sentence: Sentence, k: nat)
    requires |scores| == |strips|
  {
    k < |strips| && strips[k] == Strip(index, sentence) && scores[k] >= threshold
  }

  /** Exactly the sentences of strips that reached the threshold are kept. */
  lemma {:induction false} KeptExactly(strips: seq<Strip>, scores: seq<real>, threshold: real, index: nat, sentence: Sentence)
    requires |scores| == |strips|
    ensures sentence in KeptFor(strips, scores, threshold, index) <==>
            exists k: nat :: KeptAt(strips, scores, threshold, index, sentence, k)
    decreases |strips|
  {
    if strips != [] {
      var n := |strips| - 1;
      KeptExactly(strips[..n], scores[..n], threshold, index, sentence);
      if k: nat :| KeptAt(strips[..n], scores[..n], threshold, index, sentence, k) {
        assert KeptAt(strips, scores, threshold, index, sentence, k);
      }
      if k: nat :| KeptAt(strips, scores, threshold, index, sentence, k) {
        if k < n {
          assert KeptAt(strips[..n], scores[..n], threshold, index, sentence, k);
        }
      }
      if strips[n].index == index && scores[n] >= threshold {
        assert KeptAt(strips, scores, threshold, index, strips[n].sentence, n);
      }
    }
  }

  /** They are kept in order, one for each such strip. */
  lemma {:induction false} KeptInOrder(strips: seq<Strip>, scores: seq<real>, threshold: real, index: nat) returns (at: seq<nat>)
    requires |scores| == |strips|
    ensures Increasing(at) && |at| == |KeptFor(strips, scores, threshold, index)|
    ensures forall k :: k in at <==> 0 <= k < |strips| && strips[k].index == index && scores[k] >= threshold
    ensures forall j | 0 <= j < |at| :: at[j] < |strips| && KeptFor(strips, scores, threshold, index)[j] == strips[at[j]].sentence
    decreases |strips|
  {
    hide KeptFor;
    if strips == [] {
      at := [];
      KeptOfNone(scores, threshold, index);
    } else {
      var n := |strips| - 1;
      at := KeptInOrder(strips[..n], scores[..n], threshold, index);
      KeptSnoc(strips, scores, threshold, index, n);
      assert strips[..n + 1] == strips && scores[..n + 1] == scores;
      if strips[n].index == index && scores[n] >= threshold {
        at := at + [n];
      }
    }
  }

  lemma KeptOfNone(scores: seq<real>, threshold: real, index: nat)
    requires scores == []
    ensures KeptFor([], scores, threshold, index) == []
  {
  }

  lemma KeptSnoc(strips: seq<Strip>, scores: seq<real>, threshold: real, index: nat, n: nat)
    requires |scores| == |strips| && n < |strips|
    ensures KeptFor(strips[..n + 1], scores[..n + 1], threshold, index) ==
            KeptFor(strips[..n], scores[..n], threshold, index) +
            if strips[n].index == index && scores[n] >= threshold then [strips[n].sentence] else []
  {
    assert strips[..n + 1][..n] == strips[..n] && scores[..n + 1][..n] == scores[..n];
  }

  /** A candidate after refinement: its kept sentences, or the original when they are too short. */
  function RefineOne(original: Ranked, kept: seq<Sentence>, minTokens: int): Ranked {
    if Chunking.Words(kept) < minTokens then original
    else Ranked(Chunk(original.chunk.id, kept), original.score)
  }

  function Refined(top: seq<Ranked>, strips: seq<Strip>, scores: seq<real>, threshold: real, minTokens: int, n: nat): seq<Ranked>
    requires n <= |top| && |scores| == |strips|
  {
    if n == 0 then []
    else
      var kept := KeptFor(strips, scores, threshold, n - 1);
      Refined(top, strips, scores, threshold, minTokens, n - 1)
      + if kept == [] then [] else [RefineOne(top[n - 1], kept, minTokens)]
  }

  /** Where the refined candidates come from. */
  function Origins(strips: seq<Strip>, scores: seq<real>, threshold: real, n: nat): (r: seq<nat>)
    requires |scores| == |strips|
  {
    if n == 0 then []
    else Origins(strips, scores, threshold, n - 1)
         + if KeptFor(strips, scores, threshold, n - 1) == [] then [] else [n - 1]
  }

  ghost predicate Increasing(xs: seq<nat>) {
    forall a, b | 0 <= a < b < |xs| :: xs[a] < xs[b]
  }

  /** Refinement keeps the order, identities and scores of exactly those candidates with a strip at
      the threshold; each keeps only such strips, or stays whole when they are too short to cite. */
  lemma {:induction false} RefinementFaithful(top: seq<Ranked>, strips: seq<Strip>, scores: seq<real>, threshold: real,
                                              minTokens: int, n: nat)
    requires n <= |top| && |scores| == |strips|
    ensures var r, from := Refined(top, strips, scores, threshold, minTokens, n), Origins(strips, scores, threshold, n);
      && |r| == |from| && Increasing(from)
      && (forall i: nat :: i in from <==> i < n && KeptFor(strips, scores, threshold, i) != [])
      && (forall k | 0 <= k < |r| :: from[k] < n && r[k] == RefineOne(top[from[k]], KeptFor(strips, scores, threshold, from[k]), minTokens))
  {
    hide KeptFor, RefineOne;
    if n > 0 {
      RefinementFaithful(top, strips, scores, threshold, minTokens, n - 1);
    }
  }

  lemma RefineOneKeeps(original: Ranked, kept: seq<Sentence>, minTokens: int)
    ensures var r := RefineOne(original, kept, minTokens);
      && r.chunk.id == original.chunk.id && r.score == original.score
      && r.chunk.text == if Chunking.Words(kept) < minTokens then original.chunk.text else kept
  {
  }

  /******* Runs *******/

  datatype Scoring = NoScorer | ScoringFailed | Scores(values: seq<real>)
  datatype Rewriting = RewriteFailed | Rewritten(text: string)
  datatype Retrying = RetryFailed | Retried(ranked: seq<Ranked>)

  /** What the models and the retriever answer during one run. */
  datatype Replies = Replies(scoring: Scoring, rewriting: Rewriting, retrying: Retrying)

  datatype Setting = Setting(enabled: bool, threshold: real, confident: Option<real>, canRewrite: bool,
                             maxRewrites: int, stripMinTokens: int, candidateK: nat)

  datatype Action = Disabled | Graded(grade: Grade)

  datatype CragOutcome =
    | CragOutcome(action: Action, ranked: seq<Ranked>, topScore: Option<real>, keptStrips: Option<nat>, rewrites: nat, abstain: bool)
    | CragRaised

  function TopScore(ranked: seq<Ranked>): Option<real> {
    if ranked == [] then None else Some(ranked[0].score)
  }

  predicate Clears(ranked: seq<Ranked>, threshold: real) {
    ranked != [] && ranked[0].score >= threshold
  }

  function Candidates(ranked: seq<Ranked>, k: nat): (top: seq<Ranked>)
    ensures top <= ranked && |top| == Min(k, |ranked|)
  {
    if k < |ranked| then ranked[..k] else ranked
  }

  function CountKept(scores: seq<real>, threshold: real): nat {
    if scores == [] then 0
    else CountKept(scores[..|scores| - 1], threshold) + if scores[|scores| - 1] >= threshold then 1 else 0
  }

  lemma CountSnoc(scores: seq<real>, threshold: real, n: nat)
    requires n < |scores|
    ensures CountKept(scores[..n + 1], threshold) == CountKept(scores[..n], threshold) + if scores[n] >= threshold then 1 else 0
  {
    assert scores[..n + 1][..n] == scores[..n];
  }

  lemma {:induction false} CountPositive(strips: seq<Strip>, scores: seq<real>, threshold: real)
    requires |scores| == |strips|
    ensures CountKept(scores, threshold) == 0 <==> forall k | 0 <= k < |scores| :: scores[k] < threshold
    decreases |scores|
  {
    if scores != [] {
      var n := |scores| - 1;
      CountPositive(strips[..n], scores[..n], threshold);
      assert forall k | 0 <= k < n :: scores[..n][k] == scores[k];
    }
  }

  function RefineResult(s: Setting, ranked: seq<Ranked>, scoring: Scoring): CragOutcome
  {
    var top := Candidates(ranked, s.candidateK);
    var strips := StripsOf(top);
    var whole := CragOutcome(Graded(Ambiguous), ranked, TopScore(ranked), None, 0, false);
    if strips == [] || scoring.NoScorer? then whole
    else if scoring.ScoringFailed? || |scoring.values| != |strips| then CragRaised
    else
      var count := CountKept(scoring.values, s.threshold);
      if count == 0 then whole.(keptStrips := Some(0))
      else CragOutcome(Graded(Ambiguous), Refined(top, strips, scoring.values, s.threshold, s.stripMinTokens, |top|),
                       TopScore(ranked), Some(count), 0, false)
  }

  /** Whether a rewrite is worth retrying with: not blank, and not the question again. */
  predicate Usable(fold: string -> string, query: string, rewritten: string) {
    Citations.Strip(rewritten) != "" && fold(Citations.Strip(rewritten)) != fold(Citations.Strip(query))
  }

  function RetryResult(s: Setting, fold: string -> string, query: string, scoped: bool, ranked: seq<Ranked>, replies: Replies): CragOutcome
  {
    hide Usable;
    var kept := CragOutcome(Graded(Incorrect), ranked, TopScore(ranked), None, 0, true);
    if s.maxRewrites < 1 || !s.canRewrite then kept.(abstain := !scoped)
    else if replies.rewriting.RewriteFailed? || !Usable(fold, query, replies.rewriting.text) then kept
    else if replies.retrying.RetryFailed? then CragRaised
    else
      var retried := replies.retrying.ranked;
      var passed := retried != [] && (scoped || retried[0].score >= s.threshold);
      CragOutcome(Graded(Incorrect), if passed then retried else ranked,
                  if retried != [] then TopScore(retried) else TopScore(ranked), None, 1, !passed)
  }

  function RunResult(s: Setting, fold: string -> string, query: string, scoped: bool, ranked: seq<Ranked>, replies: Replies): CragOutcome
  {
    if !s.enabled then
      CragOutcome(Disabled, ranked, TopScore(ranked), None, 0, !Clears(ranked, s.threshold))
    else
      var grade := GradeOf(TopScore(ranked), s.threshold, s.confident);
      match grade
      case Correct => CragOutcome(Graded(Correct), ranked, TopScore(ranked), None, 0, false)
      case Ambiguous => RefineResult(s, ranked, replies.scoring)
      case Incorrect => RetryResult(s, fold, query, scoped, ranked, replies)
  }

  /** The rewritten retry was made and its best result reached the threshold. */
  predicate RetryClears(s: Setting, fold: string -> string, query: string, replies: Replies) {
    && s.enabled && s.maxRewrites >= 1 && s.canRewrite
    && replies.rewriting.Rewritten? && Usable(fold, query, replies.rewriting.text)
    && replies.retrying.Retried? && Clears(replies.retrying.ranked, s.threshold)
  }

  /** An unscoped run proceeds to an answer exactly when the original ranking or the one retry
      reached the threshold, and in the second case it is the retried ranking that is used. */
  lemma GateDecides(s: Setting, fold: string -> string, query: string, ranked: seq<Ranked>, replies: Replies)
    requires RunResult(s, fold, query, false, ranked, replies).CragOutcome?
    ensures var r := RunResult(s, fold, query, false, ranked, replies);
      && (!r.abstain <==> Clears(ranked, s.threshold) || RetryClears(s, fold, query, replies))
      && (!r.abstain && !Clears(ranked, s.threshold) ==> r.ranked == replies.retrying.ranked)
  {
    hide StripsOf, Refined, Usable, CountKept, KeptFor;
    assert CragUpper(s.threshold, s.confident) >= s.threshold;
  }

  /** Some candidate has a sentence long enough to be scored. */
  predicate Scorable(top: seq<Ranked>) {
    exists c :: c in top && exists text :: text in c.chunk.text && |text| >= MIN_STRIP_WORDS
  }

  lemma {:induction false} LongMembers(text: seq<Sentence>, t: Sentence)
    ensures t in Long(text) <==> t in text && |t| >= MIN_STRIP_WORDS
    decreases |text|
  {
    if text != [] {
      LongMembers(text[1..], t);
      assert text == [text[0]] + text[1..];
    }
  }

  lemma {:induction false} SentenceHasStrip(strips: seq<Strip>, i: nat, t: Sentence)
    ensures t in SentencesAt(strips, i) <==> Strip(i, t) in strips
    decreases |strips|
  {
    if strips != [] {
      SentenceHasStrip(strips[1..], i, t);
      assert strips == [strips[0]] + strips[1..];
    }
  }

  lemma StripsOrNone(top: seq<Ranked>)
    ensures StripsOf(top) != [] <==> Scorable(top)
  {
    hide StripsOf, Long, SentencesAt;
    if StripsOf(top) != [] {
      var s := StripsOf(top)[0];
      assert s in StripsOf(top) && top[s.index] in top;
      StripsExactly(top, s.index);
      SentenceHasStrip(StripsOf(top), s.index, s.sentence);
      LongMembers(top[s.index].chunk.text, s.sentence);
    }
    if Scorable(top) {
      var c :| c in top && exists text :: text in c.chunk.text && |text| >= MIN_STRIP_WORDS;
      var i :| 0 <= i < |top| && top[i] == c;
      var text :| text in c.chunk.text && |text| >= MIN_STRIP_WORDS;
      StripsExactly(top, i);
      LongMembers(c.chunk.text, text);
      SentenceHasStrip(StripsOf(top), i, text);
    }
  }

  /** A rewrite is allowed, possible and worth a retry: not blank, and not the question again up to case and
      whitespace around it. */
  predicate Rewrites(s: Setting, fold: string -> string, query: string, r: Rewriting) {
    hide Citations.Strip;
    && s.maxRewrites >= 1 && s.canRewrite && r.Rewritten?
    && (exists c :: c in r.text && !MarkerText.IsSpace(c)) && fold(Citations.Strip(r.text)) != fold(Citations.Strip(query))
  }

  lemma UsableExactly(fold: string -> string, query: string, rewritten: string)
    ensures Usable(fold, query, rewritten) <==>
            (exists c :: c in rewritten && !MarkerText.IsSpace(c)) && fold(Citations.Strip(rewritten)) != fold(Citations.Strip(query))
  {
    hide Citations.Strip, MarkerText.IsSpace;
    Citations.BlankIsSpace(rewritten);
  }

  /** Refinement alone: it raises exactly when scores are needed and do not come, never abstains, and leaves
      the ranking alone when no score reaches the gate. */
  ghost predicate OnlyRefines(s: Setting, ranked: seq<Ranked>, scoring: Scoring, out: CragOutcome) {
    var top := Candidates(ranked, s.candidateK);
    var needed := Scorable(top) && !scoring.NoScorer?;
    && (out.CragRaised? <==> needed && (scoring.ScoringFailed? || |scoring.values| != |StripsOf(top)|))
    && (out.CragOutcome? ==> out.action == Graded(Ambiguous) && out.topScore == TopScore(ranked) && out.rewrites == 0 && !out.abstain)
    && (out.CragOutcome? && (!needed || forall k | 0 <= k < |scoring.values| :: scoring.values[k] < s.threshold) ==> out.ranked == ranked)
  }

  /** The rewritten retry alone: it raises exactly when retrieval fails, and replaces the ranking exactly
      when it ranks something, and for an unscoped query something at the gate. Without a retry to make a
      scoped query does not abstain. */
  ghost predicate OnlyRetries(s: Setting, fold: string -> string, query: string, scoped: bool, ranked: seq<Ranked>,
                              replies: Replies, out: CragOutcome) {
    hide Rewrites;
    var tries := Rewrites(s, fold, query, replies.rewriting);
    && (out.CragRaised? <==> tries && replies.retrying.RetryFailed?)
    && (out.CragOutcome? ==>
          var retried := if tries then replies.retrying.ranked else [];
          var passed := retried != [] && (scoped || retried[0].score >= s.threshold);
          && out.action == Graded(Incorrect)
          && out.ranked == (if passed then retried else ranked) && out.rewrites == (if tries then 1 else 0)
          && out.topScore == (if retried != [] then TopScore(retried) else TopScore(ranked))
          && (out.abstain <==> !passed && !(scoped && (s.maxRewrites < 1 || !s.canRewrite))))
  }

  lemma MiddleBand(s: Setting, ranked: seq<Ranked>, scoring: Scoring)
    ensures OnlyRefines(s, ranked, scoring, RefineResult(s, ranked, scoring))
  {
    hide StripsOf, Refined, CountKept, KeptFor, Scorable;
    var top := Candidates(ranked, s.candidateK);
    StripsOrNone(top);
    if scoring.Scores? && |scoring.values| == |StripsOf(top)| {
      CountPositive(StripsOf(top), scoring.values, s.threshold);
    }
  }

  lemma LowBand(s: Setting, fold: string -> string, query: string, scoped: bool, ranked: seq<Ranked>, replies: Replies)
    ensures OnlyRetries(s, fold, query, scoped, ranked, replies, RetryResult(s, fold, query, scoped, ranked, replies))
  {
    hide Usable, Citations.Strip, MarkerText.IsSpace;
    if replies.rewriting.Rewritten? {
      UsableExactly(fold, query, replies.rewriting.text);
    }
  }

  /** What correction does, band by band, scoped or not: switched off nothing, and it abstains below the gate;
      with the top score at both gates nothing; between them refinement alone; below both the retry alone. */
  lemma RunByBand(s: Setting, fold: string -> string, query: string, scoped: bool, ranked: seq<Ranked>, replies: Replies)
    ensures var out := RunResult(s, fold, query, scoped, ranked, replies);
      var clears := ranked != [] && ranked[0].score >= s.threshold;
      var trusted := clears && (s.confident.Some? ==> ranked[0].score >= s.confident.value);
      if !s.enabled then out == CragOutcome(Disabled, ranked, TopScore(ranked), None, 0, !clears)
      else if trusted then out == CragOutcome(Graded(Correct), ranked, TopScore(ranked), None, 0, false)
      else if clears then OnlyRefines(s, ranked, replies.scoring, out)
      else OnlyRetries(s, fold, query, scoped, ranked, replies, out)
  {
    hide RefineResult, RetryResult, OnlyRefines, OnlyRetries, GradeOf;
    GradesExactly(TopScore(ranked), s.threshold, s.confident);
    MiddleBand(s, ranked, replies.scoring);
    LowBand(s, fold, query, scoped, ranked, replies);
  }

  /** Correction never invents passages: whatever it returns has the identity and the score of one of
      the candidates it was given or retried with. */
  ghost predicate From(r: Ranked, pool: seq<Ranked>) {
    exists k | 0 <= k < |pool| :: r.chunk.id == pool[k].chunk.id && r.score == pool[k].score
  }

  lemma CorrectionFrom(s: Setting, fold: string -> string, query: string, scoped: bool, ranked: seq<Ranked>, replies: Replies)
    requires RunResult(s, fold, query, scoped, ranked, replies).CragOutcome?
    ensures var out := RunResult(s, fold, query, scoped, ranked, replies);
      var pool := if out.rewrites == 1 && !out.abstain then replies.retrying.ranked else ranked;
      forall r | r in out.ranked :: From(r, pool)
  {
    hide StripsOf, Refined, KeptFor, CountKept, From, Usable;
    var out := RunResult(s, fold, query, scoped, ranked, replies);
    FromItself(ranked);
    if out.action == Graded(Ambiguous) {
      RefineFrom(s, ranked, replies.scoring);
    } else if out.rewrites == 1 && !out.abstain {
      FromItself(replies.retrying.ranked);
    }
  }

  lemma FromItself(pool: seq<Ranked>)
    ensures forall r | r in pool :: From(r, pool)
  {
    forall r | r in pool ensures From(r, pool) {
      var k :| 0 <= k < |pool| && pool[k] == r;
    }
  }

  lemma RefineFrom(s: Setting, ranked: seq<Ranked>, scoring: Scoring)
    requires RefineResult(s, ranked, scoring).CragOutcome?
    ensures forall r | r in RefineResult(s, ranked, scoring).ranked :: From(r, ranked)
  {
    hide StripsOf, Refined, CountKept, From;
    FromItself(ranked);
    var top := Candidates(ranked, s.candidateK);
    var out := RefineResult(s, ranked, scoring).ranked;
    if out != ranked {
      RefinedFrom(top, StripsOf(top), scoring.values, s.threshold, s.stripMinTokens);
      forall r | r in out ensures From(r, ranked) {
        FromPrefix(r, ranked, s.candidateK);
      }
    }
  }

  lemma FromPrefix(r: Ranked, ranked: seq<Ranked>, k: nat)
    requires From(r, Candidates(ranked, k))
    ensures From(r, ranked)
  {
    var top := Candidates(ranked, k);
    var i :| 0 <= i < |top| && r.chunk.id == top[i].chunk.id && r.score == top[i].score;
    assert ranked[i] == top[i];
  }

  lemma RefinedFrom(top: seq<Ranked>, strips: seq<Strip>, scores: seq<real>, threshold: real, minTokens: int)
    requires |scores| == |strips|
    ensures forall r | r in Refined(top, strips, scores, threshold, minTokens, |top|) :: From(r, top)
  {
    hide Refined, Origins, KeptFor, RefineOne;
    RefinementFaithful(top, strips, scores, threshold, minTokens, |top|);
    var out, from := Refined(top, strips, scores, threshold, minTokens, |top|), Origins(strips, scores, threshold, |top|);
    forall r | r in out ensures From(r, top) {
      var k :| 0 <= k < |out| && out[k] == r;
      assert from[k] in from;
      RefineOneKeeps(top[from[k]], KeptFor(strips, scores, threshold, from[k]), minTokens);
    }
  }

  /** Candidate i is the first with a strip at the threshold. */
  ghost predicate FirstKept(strips: seq<Strip>, scores: seq<real>, threshold: real, i: nat)
    requires |scores| == |strips|
  {
    KeptFor(strips, scores, threshold, i) != [] && forall j: nat | j < i :: KeptFor(strips, scores, threshold, j) == []
  }

  /** No candidate was scored above an earlier one. */
  ghost predicate Descending(ranked: seq<Ranked>) {
    forall a, b | 0 <= a < b < |ranked| :: ranked[a].score >= ranked[b].score
  }

  /** The head of a refined ranking is the first candidate that kept a strip, with its own score. */
  lemma RefinedHead(top: seq<Ranked>, strips: seq<Strip>, scores: seq<real>, threshold: real, minTokens: int, i: nat)
    requires |scores| == |strips| && i < |top| && FirstKept(strips, scores, threshold, i)
    ensures var r := Refined(top, strips, scores, threshold, minTokens, |top|); r != [] && r[0].score == top[i].score
  {
    hide Refined, Origins, KeptFor, RefineOne;
    RefinementFaithful(top, strips, scores, threshold, minTokens, |top|);
    var from := Origins(strips, scores, threshold, |top|);
    assert i in from;
    assert from[0] in from;
    var k :| 0 <= k < |from| && from[k] == i;
    assert k == 0;
    RefineOneKeeps(top[i], KeptFor(strips, scores, threshold, i), minTokens);
  }

  lemma {:induction false} KeptNowhere(strips: seq<Strip>, scores: seq<real>, threshold: real, n: nat) returns (i: nat)
    requires |scores| == |strips| && exists j: nat :: j < n && KeptFor(strips, scores, threshold, j) != []
    ensures i < n && FirstKept(strips, scores, threshold, i)
    decreases n
  {
    hide KeptFor;
    if j: nat :| j < n - 1 && KeptFor(strips, scores, threshold, j) != [] {
      i := KeptNowhere(strips, scores, threshold, n - 1);
    } else {
      i := n - 1;
    }
  }

  /** Keeping any strip keeps one of some candidate. */
  lemma SomeoneKept(top: seq<Ranked>, scores: seq<real>, threshold: real) returns (i: nat)
    requires |scores| == |StripsOf(top)| && CountKept(scores, threshold) > 0
    ensures i < |top| && FirstKept(StripsOf(top), scores, threshold, i)
  {
    hide KeptFor, StripsOf, CountKept;
    var strips := StripsOf(top);
    CountPositive(strips, scores, threshold);
    var k: nat :| k < |scores| && scores[k] >= threshold;
    var s := strips[k];
    assert s in strips;
    assert KeptAt(strips, scores, threshold, s.index, s.sentence, k);
    KeptExactly(strips, scores, threshold, s.index, s.sentence);
    assert KeptFor(strips, scores, threshold, s.index) != [];
    i := KeptNowhere(strips, scores, threshold, |top|);
  }

  /** When the refined ranking still clears the gate: if no strip was kept, exactly when the ranking did;
      otherwise exactly when the first candidate that kept a strip has a score at the threshold, and for
      a descending ranking exactly when any candidate at the threshold kept one. */
  lemma RefinedTopExactly(s: Setting, ranked: seq<Ranked>, scoring: Scoring)
    requires RefineResult(s, ranked, scoring).CragOutcome?
    ensures var out, top := RefineResult(s, ranked, scoring), Candidates(ranked, s.candidateK);
      if out.keptStrips.None? || out.keptStrips.value == 0 then out.ranked == ranked
      else
        && scoring.Scores? && |scoring.values| == |StripsOf(top)|
        && (Clears(out.ranked, s.threshold) <==>
              exists i :: 0 <= i < |top| && FirstKept(StripsOf(top), scoring.values, s.threshold, i) && top[i].score >= s.threshold)
        && (Descending(ranked) ==>
              (Clears(out.ranked, s.threshold) <==>
                 exists i: nat :: i < |top| && KeptFor(StripsOf(top), scoring.values, s.threshold, i) != [] && top[i].score >= s.threshold))
  {
    hide KeptFor, StripsOf, CountKept, Refined;
    var out, top := RefineResult(s, ranked, scoring), Candidates(ranked, s.candidateK);
    if out.keptStrips.Some? && out.keptStrips.value > 0 {
      var first := SomeoneKept(top, scoring.values, s.threshold);
      RefinedHead(top, StripsOf(top), scoring.values, s.threshold, s.stripMinTokens, first);
      assert Clears(out.ranked, s.threshold) <==> top[first].score >= s.threshold;
    }
  }

  /** The gate looks at the ranking before refinement: after it, the first passage can be one that
      scored below the threshold. */
  lemma RefinementCanLowerTheTop()
    ensures exists s: Setting, fold, query, ranked, replies ::
      var out := RunResult(s, fold, query, false, ranked, replies);
      out.CragOutcome? && !out.abstain && Clears(ranked, s.threshold) && !Clears(out.ranked, s.threshold)
  {
    hide StripsOf, Refined, KeptFor, CountKept, Usable, RefineOne;
    var words := ["a", "b", "c", "d"];
    var high, low := Ranked(Chunk("high", [words]), 0.6), Ranked(Chunk("low", [words]), 0.2);
    var ranked := [high, low];
    var s := Setting(true, 0.5, Some(0.9), false, 1, 0, 2);
    var scores := [0.1, 0.7];
    var replies := Replies(Scores(scores), RewriteFailed, RetryFailed);
    TwoStrips(high, low, words);
    TwoKept(words);
    var strips := [Strip(0, words), Strip(1, words)];
    CountPositive(strips, scores, 0.5);
    assert scores[1] >= 0.5;
    RefinedNone(ranked, strips, scores, 0.5, 0);
    RefinedSnoc(ranked, strips, scores, 0.5, 0, 0);
    RefinedSnoc(ranked, strips, scores, 0.5, 0, 1);
    RefineOneKeeps(low, [words], 0);
    assert Candidates(ranked, 2) == ranked;
    var fold := (x: string) => x;
    var out := RunResult(s, fold, "", false, ranked, replies);
    assert out == RefineResult(s, ranked, replies.scoring);
    assert out.ranked == Refined(ranked, strips, scores, 0.5, 0, 2);
    assert out.ranked == [RefineOne(low, [words], 0)];
  }

  lemma TwoStrips(high: Ranked, low: Ranked, words: Sentence)
    requires high.chunk.text == low.chunk.text == [words] && |words| == 4
    ensures StripsOf([high, low]) == [Strip(0, words), Strip(1, words)]
  {
    hide StripsOf, Labelled;
    var top := [high, low];
    StripsNone();
    StripsSnoc(top, 0);
    StripsSnoc(top, 1);
    LabelledOne(0, words);
    LabelledOne(1, words);
    assert top[..0] == [] && top[..2] == top;
  }

  lemma TwoKept(words: Sentence)
    ensures var strips, scores := [Strip(0, words), Strip(1, words)], [0.1, 0.7];
      KeptFor(strips, scores, 0.5, 0) == [] && KeptFor(strips, scores, 0.5, 1) == [words]
  {
    hide KeptFor;
    var strips, scores := [Strip(0, words), Strip(1, words)], [0.1, 0.7];
    KeptNone(0.5);
    KeptSnoc(strips, scores, 0.5, 0, 0);
    KeptSnoc(strips, scores, 0.5, 0, 1);
    KeptSnoc(strips, scores, 0.5, 1, 0);
    KeptSnoc(strips, scores, 0.5, 1, 1);
    assert strips[..0] == [] && scores[..0] == [] && strips[..2] == strips && scores[..2] == scores;
  }

  lemma LabelledOne(index: nat, words: Sentence)
    requires |words| >= MIN_STRIP_WORDS
    ensures Labelled(index, [words]) == [Strip(index, words)]
  {
    assert [words][..0] == [];
  }

  /******* The loops *******/

  method CollectStrips(top: seq<Ranked>) returns (strips: seq<Strip>)
    ensures strips == StripsOf(top)
  {
    hide Labelled, StripsOf;
    strips := [];
    StripsNone();
    for i := 0 to |top|
      invariant strips == StripsOf(top[..i])
    {
      ghost var before := strips;
      var text := top[i].chunk.text;
      LabelledNone(i);
      for j := 0 to |text|
        invariant strips == before + Labelled(i, text[..j])
      {
        LabelledSnoc(i, text, j);
        if |text[j]| >= MIN_STRIP_WORDS {
          strips := strips + [Strip(i, text[j])];
        }
      }
      assert text[..|text|] == text;
      StripsSnoc(top, i);
    }
    assert top[..|top|] == top;
  }

  lemma StripsNone()
    ensures StripsOf([]) == []
  {
  }

  lemma LabelledNone(index: nat)
    ensures Labelled(index, []) == []
  {
  }

  lemma LabelledSnoc(index: nat, text: seq<Sentence>, j: nat)
    requires j < |text|
    ensures Labelled(index, text[..j + 1]) ==
            Labelled(index, text[..j]) + if |text[j]| >= MIN_STRIP_WORDS then [Strip(index, text[j])] else []
  {
    assert text[..j + 1][..j] == text[..j];
  }

  lemma StripsSnoc(top: seq<Ranked>, i: nat)
    requires i < |top|
    ensures StripsOf(top[..i + 1]) == StripsOf(top[..i]) + Labelled(i, top[i].chunk.text)
  {
    assert top[..i + 1][..i] == top[..i];
  }

  /** The kept sentences by candidate, and how many there are. */
  method KeepStrips(strips: seq<Strip>, scores: seq<real>, threshold: real) returns (kept: map<nat, seq<Sentence>>, count: nat)
    requires |scores| == |strips|
    ensures forall i: nat :: i in kept <==> KeptFor(strips, scores, threshold, i) != []
    ensures forall i | i in kept :: kept[i] == KeptFor(strips, scores, threshold, i)
    ensures count == CountKept(scores, threshold) && (count == 0 <==> kept == map[])
  {
    kept := map[];
    count := 0;
    hide KeptFor, CountKept;
    KeptNone(threshold);
    for n := 0 to |strips|
      invariant forall i: nat :: i in kept <==> KeptFor(strips[..n], scores[..n], threshold, i) != []
      invariant forall i | i in kept :: kept[i] == KeptFor(strips[..n], scores[..n], threshold, i)
      invariant count == CountKept(scores[..n], threshold) && (count == 0 <==> kept == map[])
    {
      forall i: nat ensures KeptFor(strips[..n + 1], scores[..n + 1], threshold, i) ==
            KeptFor(strips[..n], scores[..n], threshold, i) +
            if strips[n].index == i && scores[n] >= threshold then [strips[n].sentence] else []
      {
        KeptSnoc(strips, scores, threshold, i, n);
      }
      CountSnoc(scores, threshold, n);
      var s := strips[n];
      if scores[n] >= threshold {
        var earlier := if s.index in kept then kept[s.index] else [];
        kept := kept[s.index := earlier + [s.sentence]];
        count := count + 1;
      }
    }
    assert strips[..|strips|] == strips && scores[..|scores|] == scores;
  }

  lemma KeptNone(threshold: real)
    ensures forall i: nat :: KeptFor([], [], threshold, i) == []
    ensures CountKept([], threshold) == 0
  {
  }

  method Refine(s: Setting, ranked: seq<Ranked>, scoring: Scoring) returns (r: CragOutcome)
    ensures r == RefineResult(s, ranked, scoring)
  {
    hide StripsOf, KeptFor, CountKept, Refined, RefineOne;
    var top := Candidates(ranked, s.candidateK);
    var strips := CollectStrips(top);
    if strips == [] || scoring.NoScorer? {
      return CragOutcome(Graded(Ambiguous), ranked, TopScore(ranked), None, 0, false);
    }
    if scoring.ScoringFailed? || |scoring.values| != |strips| {
      return CragRaised;
    }
    var kept, count := KeepStrips(strips, scoring.values, s.threshold);
    if kept == map[] {
      return CragOutcome(Graded(Ambiguous), ranked, TopScore(ranked), Some(0), 0, false);
    }
    var refined: seq<Ranked> := [];
    RefinedNone(top, strips, scoring.values, s.threshold, s.stripMinTokens);
    for i := 0 to |top|
      invariant refined == Refined(top, strips, scoring.values, s.threshold, s.stripMinTokens, i)
    {
      RefinedSnoc(top, strips, scoring.values, s.threshold, s.stripMinTokens, i);
      if i in kept {
        refined := refined + [RefineOne(top[i], kept[i], s.stripMinTokens)];
      }
    }
    return CragOutcome(Graded(Ambiguous), refined, TopScore(ranked), Some(count), 0, false);
  }

  lemma RefinedNone(top: seq<Ranked>, strips: seq<Strip>, scores: seq<real>, threshold: real, minTokens: int)
    requires |scores| == |strips|
    ensures Refined(top, strips, scores, threshold, minTokens, 0) == []
  {
  }

  lemma RefinedSnoc(top: seq<Ranked>, strips: seq<Strip>, scores: seq<real>, threshold: real, minTokens: int, i: nat)
    requires i < |top| && |scores| == |strips|
    ensures var kept := KeptFor(strips, scores, threshold, i);
      Refined(top, strips, scores, threshold, minTokens, i + 1) ==
      Refined(top, strips, scores, threshold, minTokens, i) + if kept == [] then [] else [RefineOne(top[i], kept, minTokens)]
  {
  }

  /** A corrective run: grade, then pass on, refine or retry. */
  method Run(s: Setting, fold: string -> string, query: string, scoped: bool, ranked: seq<Ranked>, replies: Replies)
    returns (r: CragOutcome)
    ensures r == RunResult(s, fold, query, scoped, ranked, replies)
  {
    hide StripsOf, Refined, CountKept, Citations.Strip;
    if !s.enabled {
      return CragOutcome(Disabled, ranked, TopScore(ranked), None, 0, !Clears(ranked, s.threshold));
    }
    var grade := GradeOf(TopScore(ranked), s.threshold, s.confident);
    if grade.Correct? {
      return CragOutcome(Graded(Correct), ranked, TopScore(ranked), None, 0, false);
    }
    if grade.Ambiguous? {
      r := Refine(s, ranked, replies.scoring);
      return;
    }
    if s.maxRewrites < 1 || !s.canRewrite {
      return CragOutcome(Graded(Incorrect), ranked, TopScore(ranked), None, 0, !scoped);
    }
    if replies.rewriting.RewriteFailed? || !Usable(fold, query, replies.rewriting.text) {
      return CragOutcome(Graded(Incorrect), ranked, TopScore(ranked), None, 0, true);
    }
    if replies.retrying.RetryFailed? {
      return CragRaised;
    }
    var retried := replies.retrying.ranked;
    var passed := retried != [] && (scoped || retried[0].score >= s.threshold);
    var top := if retried != [] then TopScore(retried) else TopScore(ranked);
    return CragOutcome(Graded(Incorrect), if passed then retried else ranked, top, None, 1, !passed);
  }
}
