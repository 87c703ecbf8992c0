/**
 One query through src/fastrag/pipeline.py: guards, cache lookups, retrieval, correction, context
 selection, generation through the citation buffer, and the cache write. What the outside answers is
 an input; what the pipeline does with it is proved.
 */
module QueryPipeline {
  import opened Common
  import opened AnswerCache
  import Citations
  import MarkerText
  import SentenceSplitter
  import Runs = CitationRuns
  import Buffer = CitationBuffer
  import Answers = CitationAnswers
  import Meaning = CitationMeaning
  import Crag

  /******* Selecting contexts *******/

  function Total(cost: Crag.Chunk -> nat, chunks: seq<Crag.Chunk>): nat {
    if chunks == [] then 0 else Total(cost, chunks[..|chunks| - 1]) + cost(chunks[|chunks| - 1])
  }

  /** The chunks taken from the first n ranked ones: each that still fits. */
  function Taken(cost: Crag.Chunk -> nat, budget: int, items: seq<Crag.Ranked>, n: nat): seq<Crag.Chunk>
    requires n <= |items|
  {
    if n == 0 then []
    else
      var before := Taken(cost, budget, items, n - 1);
      if Total(cost, before) + cost(items[n - 1].chunk) > budget then before else before + [items[n - 1].chunk]
  }

  ghost predicate TooLarge(cost: Crag.Chunk -> nat, budget: int, items: seq<Crag.Ranked>, i: nat)
    requires i < |items|
  {
    Total(cost, Taken(cost, budget, items, i)) + cost(items[i].chunk) > budget
  }

  ghost predicate Among(items: seq<Crag.Ranked>, n: nat, c: Crag.Chunk)
    requires n <= |items|
  {
    exists i | 0 <= i < n :: items[i].chunk == c
  }

  /** The contexts fit the budget, come from the ranking, and every ranked chunk passed over was too
      large for what the chunks taken before it had left. */
  lemma {:induction false} TakenFits(cost: Crag.Chunk -> nat, budget: int, items: seq<Crag.Ranked>, n: nat)
    requires n <= |items|
    ensures var r := Taken(cost, budget, items, n);
      && (r == [] || Total(cost, r) <= budget)
      && (forall c | c in r :: Among(items, n, c))
      && (forall i | 0 <= i < n :: items[i].chunk in r || TooLarge(cost, budget, items, i))
  {
    hide Total, TooLarge, Among;
    if n > 0 {
      TakenFits(cost, budget, items, n - 1);
      TakenStep(cost, budget, items, n - 1);
      forall c | c in Taken(cost, budget, items, n) ensures Among(items, n, c) {
        assert c in Taken(cost, budget, items, n - 1) || c == items[n - 1].chunk;
        AmongStep(items, n - 1, c);
      }
    }
  }

  lemma TakenStep(cost: Crag.Chunk -> nat, budget: int, items: seq<Crag.Ranked>, n: nat)
    requires n < |items|
    ensures var before, c := Taken(cost, budget, items, n), items[n].chunk;
      Taken(cost, budget, items, n + 1) == (if TooLarge(cost, budget, items, n) then before else before + [c])
      && (!TooLarge(cost, budget, items, n) ==> Total(cost, before + [c]) <= budget)
  {
    hide Total;
    TotalSnoc(cost, Taken(cost, budget, items, n), items[n].chunk);
  }

  lemma AmongStep(items: seq<Crag.Ranked>, n: nat, c: Crag.Chunk)
    requires n < |items| && (Among(items, n, c) || c == items[n].chunk)
    ensures Among(items, n + 1, c)
  {
    if c != items[n].chunk {
      var i :| 0 <= i < n && items[i].chunk == c;
      assert items[i].chunk == c && i < n + 1;
    }
  }

  lemma TotalSnoc(cost: Crag.Chunk -> nat, chunks: seq<Crag.Chunk>, c: Crag.Chunk)
    ensures Total(cost, chunks + [c]) == Total(cost, chunks) + cost(c)
  {
    assert (chunks + [c])[..|chunks|] == chunks;
  }

  method SelectContexts(cost: Crag.Chunk -> nat, budget: int, items: seq<Crag.Ranked>) returns (contexts: seq<Crag.Chunk>)
    ensures contexts == Taken(cost, budget, items, |items|)
  {
    contexts := [];
    var tokensUsed := 0;
    for i := 0 to |items|
      invariant contexts == Taken(cost, budget, items, i) && tokensUsed == Total(cost, contexts)
    {
      var tokenCount := cost(items[i].chunk);
      TotalSnoc(cost, contexts, items[i].chunk);
      if tokensUsed + tokenCount <= budget {
        contexts := contexts + [items[i].chunk];
        tokensUsed := tokensUsed + tokenCount;
      }
    }
  }

  function Ids(chunks: seq<Crag.Chunk>): (ids: seq<string>)
    ensures |ids| == |chunks| && forall i | 0 <= i < |ids| :: ids[i] == chunks[i].id
  {
    seq(|chunks|, i requires 0 <= i < |chunks| => chunks[i].id)
  }

  /******* Generation *******/

  datatype End = Done | Broken | Invalid(error: Citations.Outcome)

  /** What generation leaves: the buffer, the raw text received, the sentences sent, and how it ended. */
  datatype Generated = Generated(state: Runs.State, raw: string, sent: seq<string>, end: End)

  /** Feeds every token and finishes, stopping at the first error. */
  function Generate(c: Runs.Config, st: Runs.State, raw: string, sent: seq<string>, tokens: seq<string>, breaks: bool): Generated
    requires c.Valid()
    decreases |tokens|
  {
    if tokens == [] then
      if breaks then Generated(st, raw, sent, Broken)
      else
        var e := Runs.Finish(c, st);
        if e.outcome.Rendered? then Generated(e.state, raw, sent + e.outcome.sentences, Done)
        else Generated(e.state, raw, sent, Invalid(e.outcome))
    else
      var e := Runs.Feed(c, st, tokens[0]);
      if e.outcome.Rendered? then
        Generate(c, e.state, raw + tokens[0], sent + e.outcome.sentences, tokens[1..], breaks)
      else Generated(e.state, raw + tokens[0], sent, Invalid(e.outcome))
  }

  ghost predicate AllGrounded(order: seq<string>, numbers: Citations.Numbers, sentences: seq<string>) {
    forall s | s in sentences :: Citations.Grounded(order, numbers, s)
  }

  /** One more call of the buffer keeps everything sent so far grounded. */
  lemma CallKeeps(c: Runs.Config, st: Runs.State, call: Runs.Call, sent: seq<string>)
    requires c.Valid() && Citations.Numbered(c.order, st.numbers) && AllGrounded(c.order, st.numbers, sent)
    ensures var e := Runs.Perform(c, st, call);
      && Citations.Numbered(c.order, e.state.numbers) && AllGrounded(c.order, e.state.numbers, sent)
      && (e.outcome.Rendered? ==> AllGrounded(c.order, e.state.numbers, e.outcome.sentences))
  {
    hide Runs.Perform, Citations.Numbered, Citations.Grounded;
    var e := Runs.Perform(c, st, call);
    Runs.CallGrounded(c, st, call);
    forall s | s in sent ensures Citations.Grounded(c.order, e.state.numbers, s) {
      Citations.GroundedStable(c.order, st.numbers, e.state.numbers, s);
    }
  }

  lemma AllGroundedJoin(order: seq<string>, numbers: Citations.Numbers, a: seq<string>, b: seq<string>)
    requires AllGrounded(order, numbers, a) && AllGrounded(order, numbers, b)
    ensures AllGrounded(order, numbers, a + b)
  {
    hide Citations.Grounded;
  }

  lemma {:induction false} GenerateGrounded(c: Runs.Config, st: Runs.State, raw: string, sent: seq<string>, tokens: seq<string>,
                                            breaks: bool)
    requires c.Valid() && Citations.Numbered(c.order, st.numbers) && AllGrounded(c.order, st.numbers, sent)
    ensures var g := Generate(c, st, raw, sent, tokens, breaks);
      Citations.Numbered(c.order, g.state.numbers) && AllGrounded(c.order, g.state.numbers, g.sent)
    decreases |tokens|
  {
    hide Citations.Numbered, AllGrounded, Runs.Feed, Runs.Finish;
    if tokens == [] {
      CallKeeps(c, st, Runs.CallFinish, sent);
      var e := Runs.Finish(c, st);
      if e.outcome.Rendered? {
        AllGroundedJoin(c.order, e.state.numbers, sent, e.outcome.sentences);
      }
    } else {
      CallKeeps(c, st, Runs.CallFeed(tokens[0]), sent);
      var e := Runs.Feed(c, st, tokens[0]);
      if e.outcome.Rendered? {
        AllGroundedJoin(c.order, e.state.numbers, sent, e.outcome.sentences);
        GenerateGrounded(c, e.state, raw + tokens[0], sent + e.outcome.sentences, tokens[1..], breaks);
      }
    }
  }

  /******* The citation list *******/

  ghost function IdOf(numbers: Citations.Numbers, n: nat): string {
    if Citations.Held(numbers, n) then (var id :| id in numbers && numbers[id] == n; id) else ""
  }

  /** The cited ids in the order of their numbers. */
  ghost function Listing(numbers: Citations.Numbers): (ids: seq<string>)
    ensures |ids| == |numbers| && forall i | 0 <= i < |ids| :: ids[i] == IdOf(numbers, i + 1)
  {
    seq(|numbers|, i requires 0 <= i < |numbers| => IdOf(numbers, i + 1))
  }

  lemma ListingIs(order: seq<string>, numbers: Citations.Numbers, ids: seq<string>)
    requires Citations.Numbered(order, numbers) && |ids| == |numbers|
    requires forall i | 0 <= i < |ids| :: ids[i] in numbers && numbers[ids[i]] == i + 1
    ensures ids == Listing(numbers)
  {
    forall i | 0 <= i < |ids| ensures ids[i] == IdOf(numbers, i + 1) {
      assert Citations.Held(numbers, i + 1);
    }
  }

  ghost predicate Distinct(ids: seq<string>) {
    forall a, b | 0 <= a < b < |ids| :: ids[a] != ids[b]
  }

  lemma ListingCites(order: seq<string>, numbers: Citations.Numbers)
    requires Citations.Numbered(order, numbers)
    ensures Distinct(Listing(numbers)) && forall id :: id in Listing(numbers) ==> id in order && id in numbers
  {
    var ids := Listing(numbers);
    forall i | 0 <= i < |ids| ensures ids[i] in numbers && numbers[ids[i]] == i + 1 {
      assert Citations.Held(numbers, i + 1);
    }
  }

  /******* One query *******/

  datatype CacheStatus = Miss | Exact | Semantic

  datatype Response = Response(kind: AnswerKind, answer: string, citations: seq<string>, status: CacheStatus, version: string)

  datatype Event = Meta | Text(text: string) | Final(response: Response)

  datatype Stage = IndexRegistry | Embedding | Retrieval | Rerank | Correction | Generation | CitationValidation

  datatype Guard = Allowed | Blocked(refusal: string)

  datatype Settings = Settings(hasProvider: bool, contentVersion: string, strategy: string, budget: int,
                               cost: Crag.Chunk -> nat, fold: string -> string)

  /** The effective configuration: defaults with the overrides of the request applied. */
  datatype Effective = Effective(skipCache: bool, corrects: bool, topK: nat, crag: Crag.Setting, model: string, maxTokens: int)

  datatype Request = Request(query: string, documents: seq<string>, strategy: Option<string>, locale: string, effective: Effective)

  /** Everything the outside answers; None is a failure. */
  datatype Env = Env(guard: Guard, index: Option<string>, exactAnswers: bool, vector: Option<Vector>, vectorGuard: Guard,
                     semanticAnswers: bool, found: Option<nat>, retrieved: Option<seq<Crag.Chunk>>,
                     ranked: Option<seq<Crag.Ranked>>, replies: Crag.Replies, tokens: seq<string>, breaks: bool, progress: Progress)

  const NO_ANSWER_TEXT := "I don't know based on the available sources."

  /** The events sent, the stage that raised if one did, and the answer handed to the cache if any. */
  datatype Served = Served(events: seq<Event>, raised: Option<Stage>, write: Option<Write>)

  function Texts(sentences: seq<string>): (events: seq<Event>)
    ensures |events| == |sentences| && forall i | 0 <= i < |events| :: events[i] == Text(sentences[i])
  {
    seq(|sentences|, i requires 0 <= i < |sentences| => Text(sentences[i]))
  }

  predicate Mentions(text: string, s: string) {
    text <= s || (s != "" && Mentions(text, s[1..]))
  }

  /** The text occurs somewhere in s. */
  lemma {:induction false} MentionsExactly(text: string, s: string)
    ensures Mentions(text, s) <==> exists k :: 0 <= k <= |s| && text <= s[k..]
    decreases |s|
  {
    assert s[0..] == s;
    if s != "" {
      MentionsExactly(text, s[1..]);
      if k :| 0 <= k <= |s[1..]| && text <= s[1..][k..] {
        assert s[1..][k..] == s[k + 1..];
      }
      if k :| 0 < k <= |s| && text <= s[k..] {
        assert s[1..][k - 1..] == s[k..];
      }
    }
  }

  ghost predicate ValidIds(ranked: seq<Crag.Ranked>) {
    forall r | r in ranked :: MarkerText.ValidId(r.chunk.id)
  }

  datatype Job = Job(p: Settings, rq: Request, env: Env) {
    /** Chunk ids are drawn from the marker alphabet. */
    ghost predicate Valid() {
      && (env.ranked.Some? ==> ValidIds(env.ranked.value))
      && (env.replies.retrying.Retried? ==> ValidIds(env.replies.retrying.ranked))
    }

    predicate Scoped() { rq.documents != [] }

    predicate SkipsCache() { rq.effective.skipCache || Scoped() }

    function Index(): Option<string> { if p.hasProvider then env.index else Some(p.contentVersion) }

    function Version(): string { if Index().Some? then Index().value else "" }

    function Space(): Namespace {
      Namespace(Version(), rq.effective.model, rq.effective.maxTokens,
                if rq.strategy.Some? && rq.strategy.value != "" then rq.strategy.value else p.strategy, rq.documents, rq.locale)
    }

    function QuestionKey(): Key { Key(Space(), NormalizeQuery(p.fold, rq.query)) }

    /** The ranking after correction, and whether to abstain. */
    function Corrected(ranked: seq<Crag.Ranked>): Crag.CragOutcome {
      if !rq.effective.corrects then
        Crag.CragOutcome(Crag.Disabled, ranked, Crag.TopScore(ranked), None, 0,
                         !Crag.Clears(ranked, rq.effective.crag.threshold) && !(Scoped() && ranked != []))
      else Crag.RunResult(rq.effective.crag, p.fold, rq.query, Scoped(), ranked, env.replies)
    }

    predicate Abstains(out: Crag.CragOutcome)
      requires out.CragOutcome?
    {
      out.abstain && !(Scoped() && out.ranked != [])
    }

    function Contexts(ranked: seq<Crag.Ranked>): seq<Crag.Chunk> {
      var top := Crag.Candidates(ranked, rq.effective.topK);
      Taken(p.cost, p.budget, top, |top|)
    }

    function BufferConfig(contexts: seq<Crag.Chunk>): Runs.Config {
      Runs.Config(Ids(contexts), Buffer.PickDefault(Ids(contexts), Scoped()))
    }
  }

  /** The default chunk of a generation: the first context, if there is only one or the query is scoped. */
  lemma DefaultIs(job: Job, contexts: seq<Crag.Chunk>)
    ensures job.BufferConfig(contexts).fallback ==
      if contexts != [] && (|contexts| == 1 || job.rq.documents != []) then Some(contexts[0].id) else None
    ensures |job.BufferConfig(contexts).order| == |contexts|
    ensures forall i | 0 <= i < |contexts| :: job.BufferConfig(contexts).order[i] == contexts[i].id
  {
  }

  function Refusal(text: string, version: string): Served {
    Served([Text(text), Final(Response(Refused, text, [], Miss, version))], None, None)
  }

  function Replay(hit: Payload, status: CacheStatus, version: string): Served {
    Served([Text(hit.answer), Final(Response(hit.kind, hit.answer, hit.citations, status, version))], None, None)
  }

  function Failure(sent: seq<Event>, stage: Stage): Served { Served(sent, Some(stage), None) }

  function ToWrite(job: Job, answer: string, citations: seq<string>, kind: AnswerKind): Option<Write> {
    if job.SkipsCache() then None else Some(Write(job.QuestionKey(), job.env.vector, Payload(answer, citations, kind)))
  }

  function Unanswered(job: Job, sent: seq<Event>): Served {
    Served(sent + [Text(NO_ANSWER_TEXT), Final(Response(NoAnswer, NO_ANSWER_TEXT, [], Miss, job.Version()))], None,
           ToWrite(job, NO_ANSWER_TEXT, [], NoAnswer))
  }

  /** The end of a generation that raised nothing: an answer if there is one and it cites something. */
  ghost function Conclude(job: Job, sent: seq<Event>, sentences: seq<string>, numbers: Citations.Numbers): Served {
    var answer, citations := Unwords(sentences), Listing(numbers);
    if Citations.Strip(answer) == "" || citations == [] then Unanswered(job, sent)
    else Served(sent + [Final(Response(Answered, answer, citations, Miss, job.Version()))], None,
                ToWrite(job, answer, citations, Answered))
  }

  /** A citation error that nothing rescued. */
  function Uncited(job: Job, sent: seq<Event>, error: Citations.Outcome): Served {
    if error.UnknownMarker? then Failure(sent, CitationValidation) else Unanswered(job, sent)
  }

  lemma ContextsValid(job: Job, ranked: seq<Crag.Ranked>)
    requires ValidIds(ranked)
    ensures job.BufferConfig(job.Contexts(ranked)).Valid()
  {
    hide Total, Taken;
    var top := Crag.Candidates(ranked, job.rq.effective.topK);
    TakenFits(job.p.cost, job.p.budget, top, |top|);
    var contexts := job.Contexts(ranked);
    forall i | 0 <= i < |contexts| ensures MarkerText.ValidId(contexts[i].id) {
      assert contexts[i] in contexts;
      var k :| 0 <= k < |top| && top[k].chunk == contexts[i];
      assert top[k] in ranked;
    }
  }

  /** Generation over the selected contexts. */
  ghost function Compose(job: Job, ranked: seq<Crag.Ranked>): Served
    requires ValidIds(ranked)
  {
    var contexts := job.Contexts(ranked);
    if contexts == [] then Unanswered(job, [])
    else
      ContextsValid(job, ranked);
      ComposeWith(job, job.BufferConfig(contexts))
  }

  ghost function ComposeWith(job: Job, c: Runs.Config): Served
    requires c.Valid()
  {
    var g := Generate(c, Runs.State("", map[]), "", [], job.env.tokens, job.env.breaks);
    var sent := Texts(g.sent);
    match g.end
    case Done => Conclude(job, sent, g.sent, g.state.numbers)
    case Broken => Failure(sent, Generation)
    case Invalid(error) =>
      if g.sent == [] && Mentions(job.p.fold(NO_ANSWER_TEXT), job.p.fold(g.raw)) then Unanswered(job, [])
      else if job.Scoped() && Citations.Strip(g.raw) != "" then
        var e := Runs.Salvage(c, g.state, g.raw);
        if e.outcome.Rendered? then Conclude(job, sent, e.outcome.sentences, e.state.numbers)
        else Uncited(job, sent, error)
      else Uncited(job, sent, error)
  }

  lemma CorrectedValid(job: Job, ranked: seq<Crag.Ranked>)
    requires job.Valid() && ValidIds(ranked) && job.Corrected(ranked).CragOutcome?
    ensures ValidIds(job.Corrected(ranked).ranked)
  {
    hide Crag.RunResult;
    if job.rq.effective.corrects {
      Crag.CorrectionFrom(job.rq.effective.crag, job.p.fold, job.rq.query, job.Scoped(), ranked, job.env.replies);
      CorrectedFrom(job.rq.effective.crag, job.p.fold, job.rq.query, job.Scoped(), ranked, job.env.replies);
    }
  }

  lemma CorrectedFrom(s: Crag.Setting, fold: string -> string, query: string, scoped: bool, ranked: seq<Crag.Ranked>, replies: Crag.Replies)
    requires ValidIds(ranked) && (replies.retrying.Retried? ==> ValidIds(replies.retrying.ranked))
    requires Crag.RunResult(s, fold, query, scoped, ranked, replies).CragOutcome?
    ensures ValidIds(Crag.RunResult(s, fold, query, scoped, ranked, replies).ranked)
  {
    hide Crag.StripsOf, Crag.Refined, Crag.CountKept, Crag.Usable, Crag.KeptFor;
    Crag.CorrectionFrom(s, fold, query, scoped, ranked, replies);
    var out := Crag.RunResult(s, fold, query, scoped, ranked, replies);
    var pool := if out.rewrites == 1 && !out.abstain then replies.retrying.ranked else ranked;
    assert ValidIds(pool);
    forall r | r in out.ranked ensures MarkerText.ValidId(r.chunk.id) {
      assert Crag.From(r, pool);
      var k :| 0 <= k < |pool| && r.chunk.id == pool[k].chunk.id && r.score == pool[k].score;
      assert pool[k] in pool;
    }
  }

  /** Retrieval, reranking, correction and generation: a run that nothing short-circuited. */
  ghost function Answer(job: Job): Served
    requires job.Valid()
  {
    if job.env.retrieved.None? then Failure([], Retrieval)
    else if job.env.retrieved.value == [] then Unanswered(job, [])
    else if job.env.ranked.None? then Failure([], Rerank)
    else
      var out := job.Corrected(job.env.ranked.value);
      if out.CragRaised? then Failure([], Correction)
      else if job.Abstains(out) then Unanswered(job, [])
      else
        CorrectedValid(job, job.env.ranked.value);
        Compose(job, out.ranked)
  }

  /** Everything after the opening event, given what the two cache lookups returned. */
  ghost function ServeBody(job: Job, exact: Option<Payload>, semantic: Option<Payload>): Served
    requires job.Valid()
  {
    if job.env.guard.Blocked? then Refusal(job.env.guard.refusal, job.p.contentVersion)
    else if job.Index().None? then Failure([], IndexRegistry)
    else if !job.SkipsCache() && exact.Some? then Replay(exact.value, Exact, job.Version())
    else if job.env.vector.None? then Failure([], Embedding)
    else if !job.Scoped() && job.env.vectorGuard.Blocked? then Refusal(job.env.vectorGuard.refusal, job.p.contentVersion)
    else if !job.SkipsCache() && semantic.Some? then Replay(semantic.value, Semantic, job.Version())
    else Answer(job)
  }

  ghost function Serve(job: Job, exact: Option<Payload>, semantic: Option<Payload>): Served
    requires job.Valid()
  {
    var s := ServeBody(job, exact, semantic);
    s.(events := [Meta] + s.events)
  }

  /******* Events *******/

  /** Text pieces, then exactly one final event if the run completed and none if it raised. */
  ghost predicate Closed(s: Served) {
    && (forall i | 0 <= i < |s.events| :: !s.events[i].Meta?)
    && (forall i | 0 <= i < |s.events| :: s.events[i].Final? <==> s.raised.None? && i == |s.events| - 1)
    && (s.raised.None? ==> s.events != [])
  }

  lemma ComposeClosed(job: Job, c: Runs.Config)
    requires c.Valid()
    ensures Closed(ComposeWith(job, c))
  {
    hide Generate, Runs.Salvage, Unanswered, Conclude, Closed, Mentions, Citations.Strip;
    var g := Generate(c, Runs.State("", map[]), "", [], job.env.tokens, job.env.breaks);
    TextsClosed(job, g.sent);
    TextsClosed(job, []);
    assert Texts([]) == [];
  }

  /** Every way of ending after some sentences were sent. */
  lemma TextsClosed(job: Job, sent: seq<string>)
    ensures Closed(Unanswered(job, Texts(sent)))
    ensures forall stage :: Closed(Failure(Texts(sent), stage))
    ensures forall sentences, numbers :: Closed(Conclude(job, Texts(sent), sentences, numbers))
  {
    hide Unwords, Citations.Strip, ToWrite, Listing;
  }

  lemma AnswerClosed(job: Job)
    requires job.Valid()
    ensures Closed(Answer(job))
  {
    hide ComposeWith, Crag.RunResult, Taken;
    if job.env.ranked.Some? {
      var out := job.Corrected(job.env.ranked.value);
      if out.CragOutcome? {
        CorrectedValid(job, job.env.ranked.value);
        ContextsValid(job, out.ranked);
        ComposeClosed(job, job.BufferConfig(job.Contexts(out.ranked)));
      }
    }
  }

  /** One meta event first; exactly one final event, last, when the run completes; none when it raises. */
  lemma EventsInOrder(job: Job, exact: Option<Payload>, semantic: Option<Payload>)
    requires job.Valid()
    ensures var s := Serve(job, exact, semantic);
      && s.events != []
      && (forall i | 0 <= i < |s.events| :: s.events[i].Meta? <==> i == 0)
      && (forall i | 0 <= i < |s.events| :: s.events[i].Final? <==> s.raised.None? && i == |s.events| - 1)
      && (s.raised.None? ==> |s.events| > 1)
  {
    hide Answer;
    AnswerClosed(job);
    assert Closed(ServeBody(job, exact, semantic));
  }

  /******* What may be answered *******/

  /** A fresh answer: what it cites and says, and what was sent before it. */
  ghost predicate WellCited(job: Job, contexts: seq<Crag.Chunk>, s: Served, sentences: seq<string>, numbers: Citations.Numbers) {
    && s.raised.None? && |s.events| > 0 && s.events[|s.events| - 1].Final?
    && var r := s.events[|s.events| - 1].response;
    && r.kind == Answered && r.answer == Unwords(sentences) && r.citations == Listing(numbers) && r.citations != []
    && Citations.Numbered(Ids(contexts), numbers) && AllGrounded(Ids(contexts), numbers, sentences)
    && Distinct(r.citations) && (forall id | id in r.citations :: id in Ids(contexts))
    && (!job.Scoped() ==> s.events == Texts(sentences) + [Final(r)])
  }

  ghost predicate FreshAnswer(s: Served) {
    s.raised.None? && |s.events| > 0 && s.events[|s.events| - 1].Final?
    && s.events[|s.events| - 1].response.kind == Answered && s.events[|s.events| - 1].response.status == Miss
  }

  lemma ConcludeCited(job: Job, contexts: seq<Crag.Chunk>, sent: seq<Event>, sentences: seq<string>, numbers: Citations.Numbers)
    requires Citations.Numbered(Ids(contexts), numbers) && AllGrounded(Ids(contexts), numbers, sentences)
    requires job.Scoped() || sent == Texts(sentences)
    requires FreshAnswer(Conclude(job, sent, sentences, numbers))
    ensures WellCited(job, contexts, Conclude(job, sent, sentences, numbers), sentences, numbers)
  {
    hide Listing, Unwords, Citations.Strip, Citations.Numbered, AllGrounded;
    ListingCites(Ids(contexts), numbers);
  }

  ghost predicate Cited(job: Job, contexts: seq<Crag.Chunk>, s: Served) {
    exists sentences, numbers :: WellCited(job, contexts, s, sentences, numbers)
  }

  lemma ComposeCited(job: Job, contexts: seq<Crag.Chunk>)
    requires job.BufferConfig(contexts).Valid() && FreshAnswer(ComposeWith(job, job.BufferConfig(contexts)))
    ensures Cited(job, contexts, ComposeWith(job, job.BufferConfig(contexts)))
  {
    hide Generate, Runs.Salvage, Conclude, Mentions, Citations.Strip, Citations.Numbered, AllGrounded;
    var c := job.BufferConfig(contexts);
    var start := Runs.State("", map[]);
    FreshBuffer(c.order);
    GenerateGrounded(c, start, "", [], job.env.tokens, job.env.breaks);
    var g := Generate(c, start, "", [], job.env.tokens, job.env.breaks);
    if g.end.Done? {
      ConcludeCited(job, contexts, Texts(g.sent), g.sent, g.state.numbers);
      assert WellCited(job, contexts, ComposeWith(job, c), g.sent, g.state.numbers);
    } else {
      CallKeeps(c, g.state, Runs.CallSalvage(g.raw), g.sent);
      var e := Runs.Salvage(c, g.state, g.raw);
      assert e == Runs.Perform(c, g.state, Runs.CallSalvage(g.raw));
      ConcludeCited(job, contexts, Texts(g.sent), e.outcome.sentences, e.state.numbers);
      assert WellCited(job, contexts, ComposeWith(job, c), e.outcome.sentences, e.state.numbers);
    }
  }

  lemma FreshBuffer(order: seq<string>)
    ensures Citations.Numbered(order, map[]) && AllGrounded(order, map[], [])
  {
  }

  /** The ranking a fresh run answers from: the original one, or the retried one. */
  ghost predicate Gated(job: Job) {
    && job.env.ranked.Some?
    && (|| Crag.Clears(job.env.ranked.value, job.rq.effective.crag.threshold)
        || (job.rq.effective.corrects &&
            Crag.RetryClears(job.rq.effective.crag, job.p.fold, job.rq.query, job.env.replies)))
  }

  /** Contexts within the budget, taken in rank order, every skipped one too large for what was left. */
  ghost predicate Packed(job: Job, ranked: seq<Crag.Ranked>, contexts: seq<Crag.Chunk>) {
    var top := Crag.Candidates(ranked, job.rq.effective.topK);
    && contexts == Taken(job.p.cost, job.p.budget, top, |top|) != []
    && Total(job.p.cost, contexts) <= job.p.budget
    && forall i | 0 <= i < |top| :: top[i].chunk in contexts || TooLarge(job.p.cost, job.p.budget, top, i)
  }

  lemma GateBeforeAnswer(job: Job)
    requires job.Valid() && job.env.ranked.Some? && !job.Scoped()
    requires job.Corrected(job.env.ranked.value).CragOutcome?
    ensures !job.Abstains(job.Corrected(job.env.ranked.value)) <==> Gated(job)
  {
    hide Crag.RunResult, Crag.Clears, Crag.RetryClears;
    if job.rq.effective.corrects {
      Crag.GateDecides(job.rq.effective.crag, job.p.fold, job.rq.query, job.env.ranked.value, job.env.replies);
    }
  }

  /** The ranking a run answers from: without correction the one it was given, with correction what that
      makes of it. */
  lemma CorrectedIs(job: Job, ranked: seq<Crag.Ranked>)
    ensures var e := job.rq.effective;
      if e.corrects then job.Corrected(ranked) == Crag.RunResult(e.crag, job.p.fold, job.rq.query, job.rq.documents != [], ranked, job.env.replies)
      else
        var below := ranked == [] || ranked[0].score < e.crag.threshold;
        var top := if ranked == [] then None else Some(ranked[0].score);
        job.Corrected(ranked) == Crag.CragOutcome(Crag.Disabled, ranked, top, None, 0, below && (job.rq.documents == [] || ranked == []))
  {
    hide Crag.RunResult;
  }

  /** The same query with another gate. */
  function AtThreshold(job: Job, threshold: real): Job {
    job.(rq := job.rq.(effective := job.rq.effective.(crag := job.rq.effective.crag.(threshold := threshold))))
  }

  /** The gate is not part of what the cache knows of a query. */
  lemma ThresholdNotInKey(job: Job, threshold: real)
    ensures AtThreshold(job, threshold).QuestionKey() == job.QuestionKey()
    ensures AtThreshold(job, threshold).SkipsCache() == job.SkipsCache()
    ensures AtThreshold(job, job.rq.effective.crag.threshold) == job
  {
  }

  /** The top score of the rewritten retry, if a retry may be made and ranks anything. */
  function RetryTop(job: Job): Option<real> {
    var s, r := job.rq.effective.crag, job.env.replies;
    if job.rq.effective.corrects && s.enabled && s.maxRewrites >= 1 && s.canRewrite
       && r.rewriting.Rewritten? && Crag.Usable(job.p.fold, job.rq.query, r.rewriting.text) && r.retrying.Retried?
    then Crag.TopScore(r.retrying.ranked) else None
  }

  predicate Reached(top: Option<real>, threshold: real) { top.Some? && top.value >= threshold }

  /** Whatever gate a query is put before, it passes exactly when the top score of its ranking or of its
      retry clears it. */
  lemma GateByTop(job: Job, threshold: real)
    requires job.env.ranked.Some?
    ensures Gated(AtThreshold(job, threshold)) <==>
            Reached(Crag.TopScore(job.env.ranked.value), threshold) || Reached(RetryTop(job), threshold)
  {
    hide Crag.Usable;
  }

  ghost predicate Safe(job: Job, s: Served, ranked: seq<Crag.Ranked>, contexts: seq<Crag.Chunk>) {
    && Packed(job, ranked, contexts) && Cited(job, contexts, s)
    && (!job.Scoped() ==> Gated(job))
    && job.env.ranked.Some?
    && job.Corrected(job.env.ranked.value).CragOutcome? && ranked == job.Corrected(job.env.ranked.value).ranked
  }

  /** Every fresh answer: unscoped, the gate was passed; the contexts fit the budget and skip only what
      did not fit; the citations are distinct, at least one, all of them contexts; every sentence is
      grounded in them; and unscoped, exactly those sentences were streamed. */
  lemma FreshAnswersAreSafe(job: Job)
    requires job.Valid() && FreshAnswer(Answer(job))
    ensures exists ranked, contexts :: Safe(job, Answer(job), ranked, contexts)
  {
    hide ComposeWith, Crag.RunResult, Taken, Total, Cited, Gated, Crag.Clears;
    assert job.env.ranked.Some?;
    var out := job.Corrected(job.env.ranked.value);
    assert out.CragOutcome?;
    CorrectedValid(job, job.env.ranked.value);
    var contexts := job.Contexts(out.ranked);
    assert contexts != [];
    ContextsValid(job, out.ranked);
    ComposeCited(job, contexts);
    var top := Crag.Candidates(out.ranked, job.rq.effective.topK);
    TakenFits(job.p.cost, job.p.budget, top, |top|);
    if !job.Scoped() {
      GateBeforeAnswer(job);
    }
    assert Safe(job, Answer(job), out.ranked, contexts);
  }

  /** Miss answers come from fresh runs only. */
  lemma MissIsFresh(job: Job, exact: Option<Payload>, semantic: Option<Payload>)
    requires job.Valid() && FreshAnswer(Serve(job, exact, semantic))
    ensures FreshAnswer(Answer(job)) && Serve(job, exact, semantic) == Answer(job).(events := [Meta] + Answer(job).events)
  {
    hide Answer;
  }

  /** A grounded sentence is visible text: the last guard fires exactly when nothing was rendered. */
  lemma SentenceIsVisible(order: seq<string>, numbers: Citations.Numbers, s: string) returns (k: nat)
    requires Citations.Numbered(order, numbers) && Citations.Grounded(order, numbers, s)
    ensures k < |s| && s[k] == '[' && numbers != map[]
  {
    hide Citations.Numbered, Citations.Grounded, MarkerText.Lex, MarkerText.Find;
    Citations.GroundedMeans(order, numbers, s);
    var t :| t in MarkerText.Lex(s) && t.Num? && Citations.Held(numbers, SentenceSplitter.Value(t.digits));
    k := SentenceSplitter.LexedIsOccurrence(s, t);
  }

  lemma NonSpaceIsNotBlank(s: string, k: nat)
    requires k < |s| && s[k] == '['
    ensures Citations.Strip(s) != ""
  {
    Citations.BlankIsSpace(s);
    assert s[k] in s && !MarkerText.IsSpace('[');
  }

  lemma UnwordsStarts(ws: seq<string>)
    requires ws != []
    ensures ws[0] <= Unwords(ws)
  {
  }

  lemma NothingCitedExactly(order: seq<string>, numbers: Citations.Numbers, sentences: seq<string>)
    requires Citations.Numbered(order, numbers) && AllGrounded(order, numbers, sentences)
    ensures Citations.Strip(Unwords(sentences)) == "" || Listing(numbers) == [] <==> sentences == []
  {
    hide Citations.Numbered, Citations.Grounded, Unwords, Citations.Strip;
    if sentences != [] {
      var k := SentenceIsVisible(order, numbers, sentences[0]);
      UnwordsStarts(sentences);
      NonSpaceIsNotBlank(Unwords(sentences), k);
    } else {
      assert Unwords([]) == "" by { EmptyJoin(); }
      StripNothing();
    }
  }

  lemma EmptyJoin()
    ensures Unwords([]) == ""
  {
  }

  lemma StripNothing()
    ensures Citations.Strip("") == ""
  {
  }

  /** What generation over some contexts left. */
  function Output(job: Job, contexts: seq<Crag.Chunk>): Generated
    requires job.BufferConfig(contexts).Valid()
  {
    Generate(job.BufferConfig(contexts), Runs.State("", map[]), "", [], job.env.tokens, job.env.breaks)
  }

  lemma ConcludeAnswers(job: Job, order: seq<string>, sent: seq<Event>, sentences: seq<string>, numbers: Citations.Numbers)
    requires Citations.Numbered(order, numbers) && AllGrounded(order, numbers, sentences)
    ensures FreshAnswer(Conclude(job, sent, sentences, numbers)) <==> sentences != []
  {
    hide Citations.Numbered, AllGrounded, Unwords, Listing, Citations.Strip;
    NothingCitedExactly(order, numbers, sentences);
  }

  /** An unscoped composition answers exactly when generation ended well and rendered a sentence. */
  lemma ComposeAnswers(job: Job, contexts: seq<Crag.Chunk>)
    requires job.BufferConfig(contexts).Valid() && !job.Scoped()
    ensures FreshAnswer(ComposeWith(job, job.BufferConfig(contexts))) <==>
            Output(job, contexts).end.Done? && Output(job, contexts).sent != []
  {
    hide Generate, Conclude, Mentions, Citations.Strip, Citations.Numbered, AllGrounded;
    var c := job.BufferConfig(contexts);
    FreshBuffer(c.order);
    GenerateGrounded(c, Runs.State("", map[]), "", [], job.env.tokens, job.env.breaks);
    var g := Output(job, contexts);
    ConcludeAnswers(job, c.order, Texts(g.sent), g.sent, g.state.numbers);
  }

  /** The stream ends without failing anywhere before, there is no default chunk, and the text left over
      is not blank and holds no marker but torn ones. */
  ghost predicate EndsUncited(c: Runs.Config, st: Runs.State, tokens: seq<string>, breaks: bool)
    requires c.Valid()
  {
    && !breaks && c.fallback.None? && Answers.FeedsReturn(c, st, tokens)
    && var left := Citations.Strip(Runs.FeedAll(c, st, tokens).state.buffer);
    && left != "" && Answers.Markerless(|c.order|, left)
  }

  /** When generation ends for want of a marker. */
  lemma {:induction false} LacksExactly(c: Runs.Config, st: Runs.State, raw: string, sent: seq<string>, tokens: seq<string>,
                                        breaks: bool)
    requires c.Valid() && Citations.Numbered(c.order, st.numbers)
    ensures var g := Generate(c, st, raw, sent, tokens, breaks);
      && (g.end.Invalid? ==> !g.end.error.Rendered?)
      && (g.end.Invalid? && !g.end.error.UnknownMarker? <==> EndsUncited(c, st, tokens, breaks))
    decreases |tokens|
  {
    hide Runs.Feed, Runs.Finish, Citations.Numbered, Citations.Strip, Answers.Markerless;
    if tokens == [] {
      Answers.FinishLacks(c, st);
    } else {
      Answers.FeedNeverLacks(c, st, tokens[0]);
      var e := Runs.Feed(c, st, tokens[0]);
      if e.outcome.Rendered? {
        Answers.FeedNumbered(c, st, tokens[0]);
        LacksExactly(c, e.state, raw + tokens[0], sent + e.outcome.sentences, tokens[1..], breaks);
      }
    }
  }

  /** An unscoped composition that completes without an answer says so after whatever it had already
      sent. When it had sent sentences, that happens exactly if generation then ended in a batch that
      cited nothing at all: nothing failed before, and what was left over is text without a marker. */
  lemma UnansweredText(job: Job, contexts: seq<Crag.Chunk>)
    requires job.BufferConfig(contexts).Valid() && !job.Scoped()
    ensures var s, g := ComposeWith(job, job.BufferConfig(contexts)), Output(job, contexts);
      && (s.raised.None? && !FreshAnswer(s) ==> s == Unanswered(job, Texts(g.sent)))
      && (g.sent != [] ==>
            (s.raised.None? && !FreshAnswer(s) <==> g.end.Invalid? && !g.end.error.UnknownMarker?))
      && (g.end.Invalid? && !g.end.error.UnknownMarker? <==>
            EndsUncited(job.BufferConfig(contexts), Runs.State("", map[]), job.env.tokens, job.env.breaks))
  {
    hide Generate, Conclude, Unanswered, Mentions, Citations.Strip, Citations.Numbered, AllGrounded, EndsUncited;
    var c, g := job.BufferConfig(contexts), Output(job, contexts);
    FreshBuffer(c.order);
    LacksExactly(c, Runs.State("", map[]), "", [], job.env.tokens, job.env.breaks);
    assert Texts([]) == [];
    UnansweredWrites(job);
    UnansweredIsNotFresh(job, Texts(g.sent));
    if g.end.Done? {
      FreshBuffer(c.order);
      GenerateGrounded(c, Runs.State("", map[]), "", [], job.env.tokens, job.env.breaks);
      ConcludeAnswers(job, c.order, Texts(g.sent), g.sent, g.state.numbers);
      NoneConcludes(job, g.state.numbers);
    }
  }

  lemma UnansweredIsNotFresh(job: Job, sent: seq<Event>)
    ensures !FreshAnswer(Unanswered(job, sent))
  {
  }

  /** It does happen: over two contexts, a cited sentence is sent, then text without a marker follows. */
  lemma SentencesThenNoAnswer(job: Job, contexts: seq<Crag.Chunk>)
    requires job.BufferConfig(contexts).Valid() && !job.Scoped()
    requires |contexts| == 2 && contexts[0].id == "a" && job.env.tokens == [Answers.MIXED] && !job.env.breaks
    ensures var s, g := ComposeWith(job, job.BufferConfig(contexts)), Output(job, contexts);
      && |g.sent| == 1 && s == Unanswered(job, Texts(g.sent))
      && s.events == [Text(g.sent[0]), Text(NO_ANSWER_TEXT), Final(Response(NoAnswer, NO_ANSWER_TEXT, [], Miss, job.Version()))]
  {
    hide Runs.Feed, Runs.Finish, Generate, Unanswered, ComposeWith;
    var c := job.BufferConfig(contexts);
    assert c.order[0] == "a" && c.fallback.None?;
    Answers.SentenceThenNone(c.order);
    var start := Runs.State("", map[]);
    var fed := Runs.Feed(c, start, Answers.MIXED);
    var tokens := job.env.tokens;
    GenerateNext(c, start, "", [], tokens, 0, false);
    assert tokens[0..] == tokens && tokens[1..] == [];
    assert [] + fed.outcome.sentences == fed.outcome.sentences;
    GenerateLast(c, fed.state, "" + Answers.MIXED, fed.outcome.sentences, false);
    UnansweredText(job, contexts);
    OneSentence(job, fed.outcome.sentences);
  }

  lemma OneSentence(job: Job, sent: seq<string>)
    requires |sent| == 1
    ensures Unanswered(job, Texts(sent)).events ==
      [Text(sent[0]), Text(NO_ANSWER_TEXT), Final(Response(NoAnswer, NO_ANSWER_TEXT, [], Miss, job.Version()))]
  {
  }

  lemma NoneConcludes(job: Job, numbers: Citations.Numbers)
    ensures Conclude(job, [], [], numbers) == Unanswered(job, [])
  {
    hide Unwords, Citations.Strip, Unanswered;
    EmptyJoin();
    StripNothing();
  }

  /** The ranking that correction leaves to answer from, if the stages before it all succeeded. */
  ghost predicate Reaches(job: Job, ranked: seq<Crag.Ranked>) {
    && job.env.retrieved.Some? && job.env.retrieved.value != [] && job.env.ranked.Some?
    && job.Corrected(job.env.ranked.value).CragOutcome? && ranked == job.Corrected(job.env.ranked.value).ranked
  }

  /** When an unscoped question is answered afresh: exactly when something is retrieved, the gate is
      passed, some context fits the budget, and generation ends well having rendered a sentence. */
  lemma AnsweredExactly(job: Job)
    requires job.Valid() && !job.Scoped()
    ensures FreshAnswer(Answer(job)) <==>
            exists ranked ::
              && Reaches(job, ranked) && Gated(job) && ValidIds(ranked) && job.Contexts(ranked) != []
              && job.BufferConfig(job.Contexts(ranked)).Valid()
              && Output(job, job.Contexts(ranked)).end.Done? && Output(job, job.Contexts(ranked)).sent != []
  {
    hide ComposeWith, Crag.RunResult, Taken, Generate, Gated;
    if job.env.retrieved.Some? && job.env.retrieved.value != [] && job.env.ranked.Some? {
      var out := job.Corrected(job.env.ranked.value);
      if out.CragOutcome? {
        assert Reaches(job, out.ranked);
        CorrectedValid(job, job.env.ranked.value);
        ContextsValid(job, out.ranked);
        GateBeforeAnswer(job);
        ComposeAnswers(job, job.Contexts(out.ranked));
      }
    }
  }

  /** A citation error in a document-scoped run that salvaging the raw text made good. */
  ghost predicate Rescued(job: Job, contexts: seq<Crag.Chunk>)
    requires job.BufferConfig(contexts).Valid()
  {
    var g := Output(job, contexts);
    && g.end.Invalid?
    && !(g.sent == [] && Mentions(job.p.fold(NO_ANSWER_TEXT), job.p.fold(g.raw)))
    && Citations.Strip(g.raw) != ""
    && Runs.Salvage(job.BufferConfig(contexts), g.state, g.raw).outcome.Rendered?
  }

  lemma ScopedComposeAnswers(job: Job, contexts: seq<Crag.Chunk>)
    requires job.BufferConfig(contexts).Valid() && job.Scoped() && contexts != []
    ensures FreshAnswer(ComposeWith(job, job.BufferConfig(contexts))) <==>
            (Output(job, contexts).end.Done? && Output(job, contexts).sent != []) || Rescued(job, contexts)
  {
    hide Generate, Conclude, Mentions, Citations.Strip, Citations.Numbered, AllGrounded, Runs.Salvage;
    var c := job.BufferConfig(contexts);
    FreshBuffer(c.order);
    GenerateGrounded(c, Runs.State("", map[]), "", [], job.env.tokens, job.env.breaks);
    var g := Output(job, contexts);
    if g.end.Done? {
      ConcludeAnswers(job, c.order, Texts(g.sent), g.sent, g.state.numbers);
    } else if g.end.Invalid? && Citations.Strip(g.raw) != "" {
      SalvageAnswers(job, c, g);
    }
  }

  /** What salvage renders is an answer. */
  lemma SalvageAnswers(job: Job, c: Runs.Config, g: Generated)
    requires c.Valid() && c.order != [] && Citations.Strip(g.raw) != ""
    requires Citations.Numbered(c.order, g.state.numbers) && AllGrounded(c.order, g.state.numbers, g.sent)
    ensures var e := Runs.Salvage(c, g.state, g.raw);
      e.outcome.Rendered? ==> FreshAnswer(Conclude(job, Texts(g.sent), e.outcome.sentences, e.state.numbers))
  {
    hide Conclude, Citations.Strip, Citations.Numbered, AllGrounded, Runs.Salvage;
    var e := Runs.Salvage(c, g.state, g.raw);
    assert e == Runs.Perform(c, g.state, Runs.CallSalvage(g.raw));
    CallKeeps(c, g.state, Runs.CallSalvage(g.raw), g.sent);
    Runs.SalvageExactly(c, g.state, g.raw);
    if e.outcome.Rendered? {
      ConcludeAnswers(job, c.order, Texts(g.sent), e.outcome.sentences, e.state.numbers);
    }
  }

  /** When a document-scoped question is answered: the gate does not matter, and a citation error that
      salvage makes good does not either. */
  lemma ScopedAnsweredExactly(job: Job)
    requires job.Valid() && job.Scoped()
    ensures FreshAnswer(Answer(job)) <==>
            exists ranked ::
              && Reaches(job, ranked) && ValidIds(ranked) && job.Contexts(ranked) != []
              && job.BufferConfig(job.Contexts(ranked)).Valid()
              && ((Output(job, job.Contexts(ranked)).end.Done? && Output(job, job.Contexts(ranked)).sent != [])
                  || Rescued(job, job.Contexts(ranked)))
  {
    hide ComposeWith, Crag.RunResult, Taken, Generate, Rescued;
    if job.env.retrieved.Some? && job.env.retrieved.value != [] && job.env.ranked.Some? {
      var out := job.Corrected(job.env.ranked.value);
      if out.CragOutcome? {
        assert Reaches(job, out.ranked);
        CorrectedValid(job, job.env.ranked.value);
        ContextsValid(job, out.ranked);
        if job.Contexts(out.ranked) != [] {
          ScopedNotAbstained(job, out);
          ScopedComposeAnswers(job, job.Contexts(out.ranked));
        }
      }
    }
  }

  lemma ScopedNotAbstained(job: Job, out: Crag.CragOutcome)
    requires job.Scoped() && out.CragOutcome? && job.Contexts(out.ranked) != []
    ensures !job.Abstains(out)
  {
  }

  /** Retrieval, gate and contexts carry the query as far as generation. */
  ghost predicate Generates(job: Job, ranked: seq<Crag.Ranked>)
    requires job.Valid()
  {
    && Reaches(job, ranked) && (job.Scoped() || Gated(job)) && ValidIds(ranked) && job.Contexts(ranked) != []
    && job.BufferConfig(job.Contexts(ranked)).Valid()
  }

  /** What it takes for generation to be reached and to end in an answer. */
  ghost predicate Answerable(job: Job)
    requires job.Valid()
  {
    exists ranked ::
      Generates(job, ranked) &&
         ((Output(job, job.Contexts(ranked)).end.Done? && Output(job, job.Contexts(ranked)).sent != [])
          || (job.Scoped() && Rescued(job, job.Contexts(ranked))))
  }

  /******* From the question to the answer *******/

  /** Nothing stops the query before retrieval: the text guard allows it, the index is known, no lookup
      hits, there is an embedding, and the vector guard allows it unless it is document-scoped. */
  predicate Admitted(job: Job, exact: Option<Payload>, semantic: Option<Payload>) {
    && job.env.guard.Allowed? && job.Index().Some?
    && (exact.None? || job.rq.effective.skipCache || job.rq.documents != [])
    && job.env.vector.Some?
    && (job.env.vectorGuard.Allowed? || job.rq.documents != [])
    && (semantic.None? || job.rq.effective.skipCache || job.rq.documents != [])
  }

  /** The vector guard is asked, and blocks. */
  predicate BlockedLater(job: Job, exact: Option<Payload>) {
    && job.env.guard.Allowed? && job.Index().Some? && job.rq.documents == []
    && (exact.None? || job.rq.effective.skipCache) && job.env.vector.Some? && job.env.vectorGuard.Blocked?
  }

  ghost predicate Refuses(s: Served) {
    exists i :: 0 <= i < |s.events| && s.events[i].Final? && s.events[i].response.kind == Refused
  }

  /** What a reader of a refusal gets: the refusal once, as text and as the final result, citing nothing;
      the cache gets nothing. */
  ghost predicate IsRefusal(s: Served, text: string, version: string) {
    && s.events == [Meta, Text(text), Final(Response(Refused, text, [], Miss, version))]
    && s.raised.None? && s.write.None?
  }

  lemma AnswerKinds(job: Job)
    requires job.Valid()
    ensures !Refuses(Answer(job))
  {
    hide ComposeWith, Crag.RunResult, Taken;
    NoRefusal(job, []);
    if job.env.ranked.Some? {
      var out := job.Corrected(job.env.ranked.value);
      if out.CragOutcome? {
        CorrectedValid(job, job.env.ranked.value);
        ContextsValid(job, out.ranked);
        ComposeKinds(job, job.BufferConfig(job.Contexts(out.ranked)));
      }
    }
  }

  lemma ComposeKinds(job: Job, c: Runs.Config)
    requires c.Valid()
    ensures !Refuses(ComposeWith(job, c))
  {
    hide Generate, Runs.Salvage, Mentions, Unanswered, Conclude, Citations.Strip, Refuses;
    var g := Generate(c, Runs.State("", map[]), "", [], job.env.tokens, job.env.breaks);
    NoRefusal(job, g.sent);
    NoRefusal(job, []);
    assert Texts([]) == [];
  }

  lemma NoRefusal(job: Job, sent: seq<string>)
    ensures !Refuses(Unanswered(job, Texts(sent))) && !Refuses(Unanswered(job, []))
    ensures forall stage :: !Refuses(Failure(Texts(sent), stage)) && !Refuses(Failure([], stage))
    ensures forall sentences, numbers :: !Refuses(Conclude(job, Texts(sent), sentences, numbers))
  {
    hide Unwords, Citations.Strip, Listing, ToWrite;
  }

  /** A query is refused exactly when the text guard blocks it, or nothing answers it before the vector
      guard does; the reader then gets that refusal and nothing is written. */
  lemma RefusedExactly(job: Job, exact: Option<Payload>, semantic: Option<Payload>)
    requires job.Valid()
    ensures var s := Serve(job, exact, semantic);
      && (Refuses(s) && !IsHit(s) <==> job.env.guard.Blocked? || BlockedLater(job, exact))
      && (job.env.guard.Blocked? ==> IsRefusal(s, job.env.guard.refusal, job.p.contentVersion))
      && (BlockedLater(job, exact) ==> IsRefusal(s, job.env.vectorGuard.refusal, job.p.contentVersion))
  {
    hide Answer;
    AnswerKinds(job);
    var s := Serve(job, exact, semantic);
    if job.env.guard.Blocked? || BlockedLater(job, exact) {
      assert s.events[2].Final?;
    }
  }

  /** The final event says the cache answered. */
  ghost predicate IsHit(s: Served) {
    exists i :: 0 <= i < |s.events| && s.events[i].Final? && s.events[i].response.status != Miss
  }

  /** The whole query: a fresh answer is given exactly when nothing stops the query before retrieval and
      retrieval, gate, contexts and generation all carry it through. */
  lemma ServedExactly(job: Job, exact: Option<Payload>, semantic: Option<Payload>)
    requires job.Valid()
    ensures FreshAnswer(Serve(job, exact, semantic)) <==> Admitted(job, exact, semantic) && Answerable(job)
  {
    hide Answer, Reaches, Gated, Rescued, Generate, Taken, ServeBody;
    if job.Scoped() {
      ScopedAnsweredExactly(job);
    } else {
      AnsweredExactly(job);
    }
    Stopped(job, exact, semantic);
    if Admitted(job, exact, semantic) {
      AdmittedServed(job, exact, semantic);
    }
  }

  /** A query that is not admitted gets no fresh answer. */
  lemma Stopped(job: Job, exact: Option<Payload>, semantic: Option<Payload>)
    requires job.Valid()
    ensures !Admitted(job, exact, semantic) ==> !FreshAnswer(Serve(job, exact, semantic))
    ensures !Admitted(job, exact, semantic) ==> Serve(job, exact, semantic).write.None?
  {
    hide Answer;
  }

  lemma AdmittedServed(job: Job, exact: Option<Payload>, semantic: Option<Payload>)
    requires job.Valid() && Admitted(job, exact, semantic)
    ensures Serve(job, exact, semantic) == Answer(job).(events := [Meta] + Answer(job).events)
    ensures FreshAnswer(Answer(job)) <==> FreshAnswer(Serve(job, exact, semantic))
  {
    hide Answer;
    var s := Answer(job);
    if s.events != [] {
      assert ([Meta] + s.events)[|s.events|] == s.events[|s.events| - 1];
    }
  }

  /** When a query stops before retrieval for another reason than a refusal: it raises exactly when the
      index is unknown or no embedding can be had, and replays a hit exactly when it may use the cache and
      gets that far. */
  lemma StopsExactly(job: Job, exact: Option<Payload>, semantic: Option<Payload>)
    requires job.Valid() && job.env.guard.Allowed?
    ensures var s := Serve(job, exact, semantic); var uses := !job.rq.effective.skipCache && job.rq.documents == [];
      && (job.Index().None? ==> s == Served([Meta], Some(IndexRegistry), None))
      && (job.Index().Some? && uses && exact.Some? ==>
            s.events == [Meta, Text(exact.value.answer),
                         Final(Response(exact.value.kind, exact.value.answer, exact.value.citations, Exact, job.Index().value))]
            && s.raised.None? && s.write.None?)
      && (job.Index().Some? && !(uses && exact.Some?) && job.env.vector.None? ==> s == Served([Meta], Some(Embedding), None))
      && (job.Index().Some? && !(uses && exact.Some?) && job.env.vector.Some? && job.env.vectorGuard.Allowed? && uses && semantic.Some? ==>
            s.events == [Meta, Text(semantic.value.answer),
                         Final(Response(semantic.value.kind, semantic.value.answer, semantic.value.citations, Semantic, job.Index().value))]
            && s.raised.None? && s.write.None?)
  {
    hide Answer;
  }

  /** What is offered to the cache comes from a query both guards let pass. */
  lemma WritersPassed(job: Job, exact: Option<Payload>, semantic: Option<Payload>)
    requires job.Valid() && Serve(job, exact, semantic).write.Some?
    ensures Admitted(job, exact, semantic) && job.env.guard.Allowed? && job.env.vectorGuard.Allowed?
    ensures !job.rq.effective.skipCache && job.rq.documents == []
  {
    hide Serve;
    Stopped(job, exact, semantic);
    WritesAreFinals(job, exact, semantic);
  }

  /** Generation ended at a marker of no context, said nothing like the no-answer text, and was not rescued. */
  ghost predicate EndsUnknown(job: Job, contexts: seq<Crag.Chunk>)
    requires job.BufferConfig(contexts).Valid()
  {
    var g := Output(job, contexts);
    && g.end.Invalid? && g.end.error.UnknownMarker?
    && !(g.sent == [] && Mentions(job.p.fold(NO_ANSWER_TEXT), job.p.fold(g.raw)))
    && !(job.Scoped() && Rescued(job, contexts))
  }

  lemma ComposeRaises(job: Job, contexts: seq<Crag.Chunk>)
    requires job.BufferConfig(contexts).Valid()
    ensures var s := ComposeWith(job, job.BufferConfig(contexts));
      && (s.raised == Some(Generation) <==> Output(job, contexts).end.Broken?)
      && (s.raised == Some(CitationValidation) <==> EndsUnknown(job, contexts))
      && (s.raised.Some? ==> s.raised == Some(Generation) || s.raised == Some(CitationValidation))
      && (s.raised.None? && !FreshAnswer(s) ==> SaysNoAnswer(job, s))
  {
    hide Generate, Runs.Salvage, Mentions, Unanswered, Conclude, Citations.Strip, SaysNoAnswer, FreshAnswer;
    var g := Output(job, contexts);
    NoAnswerEnds(job, Texts(g.sent));
    NoAnswerEnds(job, []);
    forall sentences, numbers
      ensures Conclude(job, Texts(g.sent), sentences, numbers).raised.None?
      ensures FreshAnswer(Conclude(job, Texts(g.sent), sentences, numbers)) || SaysNoAnswer(job, Conclude(job, Texts(g.sent), sentences, numbers))
    {
      Concludes(job, Texts(g.sent), sentences, numbers);
    }
  }

  /** The completed run tells the reader that there is no answer. */
  ghost predicate SaysNoAnswer(job: Job, s: Served) {
    && s.raised.None? && |s.events| >= 2
    && s.events[|s.events| - 2..] ==
         [Text(NO_ANSWER_TEXT), Final(Response(NoAnswer, NO_ANSWER_TEXT, [], Miss, job.Version()))]
  }

  lemma NoAnswerEnds(job: Job, sent: seq<Event>)
    ensures SaysNoAnswer(job, Unanswered(job, sent))
  {
  }

  lemma Concludes(job: Job, sent: seq<Event>, sentences: seq<string>, numbers: Citations.Numbers)
    ensures var s := Conclude(job, sent, sentences, numbers); s.raised.None? && (FreshAnswer(s) || SaysNoAnswer(job, s))
  {
    hide Unwords, Citations.Strip, Listing, Unanswered, SaysNoAnswer;
    NoAnswerEnds(job, sent);
  }

  /** How a query that is admitted fails: each stage raises exactly for its own reason, and a query that
      completes without an answer says so. */
  lemma FailsExactly(job: Job, exact: Option<Payload>, semantic: Option<Payload>)
    requires job.Valid() && Admitted(job, exact, semantic)
    ensures var s, env := Serve(job, exact, semantic), job.env;
      && (s.raised == Some(Retrieval) <==> env.retrieved.None?)
      && (s.raised == Some(Rerank) <==> env.retrieved.Some? && env.retrieved.value != [] && env.ranked.None?)
      && (s.raised == Some(Correction) <==>
            env.retrieved.Some? && env.retrieved.value != [] && env.ranked.Some? && job.Corrected(env.ranked.value).CragRaised?)
      && (s.raised == Some(Generation) <==> exists ranked :: Generates(job, ranked) && Output(job, job.Contexts(ranked)).end.Broken?)
      && (s.raised == Some(CitationValidation) <==> exists ranked :: Generates(job, ranked) && EndsUnknown(job, job.Contexts(ranked)))
      && (s.raised.None? && !FreshAnswer(s) ==> SaysNoAnswer(job, s))
  {
    hide Answer, Generates, EndsUnknown, SaysNoAnswer;
    AdmittedServed(job, exact, semantic);
    AnswerFails(job);
    if SaysNoAnswer(job, Answer(job)) {
      NoAnswerAfter(job, Answer(job));
    }
  }

  lemma NoAnswerAfter(job: Job, s: Served)
    requires SaysNoAnswer(job, s)
    ensures SaysNoAnswer(job, s.(events := [Meta] + s.events))
  {
    assert ([Meta] + s.events)[|s.events| - 1..] == s.events[|s.events| - 2..];
  }

  lemma AnswerFails(job: Job)
    requires job.Valid()
    ensures var s, env := Answer(job), job.env;
      && (s.raised == Some(Retrieval) <==> env.retrieved.None?)
      && (s.raised == Some(Rerank) <==> env.retrieved.Some? && env.retrieved.value != [] && env.ranked.None?)
      && (s.raised == Some(Correction) <==>
            env.retrieved.Some? && env.retrieved.value != [] && env.ranked.Some? && job.Corrected(env.ranked.value).CragRaised?)
      && (s.raised == Some(Generation) <==> exists ranked :: Generates(job, ranked) && Output(job, job.Contexts(ranked)).end.Broken?)
      && (s.raised == Some(CitationValidation) <==> exists ranked :: Generates(job, ranked) && EndsUnknown(job, job.Contexts(ranked)))
      && (s.raised.None? && !FreshAnswer(s) ==> SaysNoAnswer(job, s))
  {
    hide ComposeWith, Crag.RunResult, Taken, Generate, Unanswered, EndsUnknown, SaysNoAnswer, FreshAnswer, Gated, Crag.Clears;
    NoAnswerEnds(job, []);
    if job.env.retrieved.Some? && job.env.retrieved.value != [] && job.env.ranked.Some? {
      var out := job.Corrected(job.env.ranked.value);
      if out.CragOutcome? {
        CorrectedValid(job, job.env.ranked.value);
        ContextsValid(job, out.ranked);
        if job.Scoped() {
          if job.Contexts(out.ranked) != [] {
            ScopedNotAbstained(job, out);
          }
        } else {
          GateBeforeAnswer(job);
        }
        ComposeRaises(job, job.Contexts(out.ranked));
        assert forall ranked :: Reaches(job, ranked) ==> ranked == out.ranked;
        assert job.Contexts(out.ranked) != [] && !job.Abstains(out) ==> Generates(job, out.ranked);
      }
    }
  }

  /******* What the reader of a fresh answer is shown *******/

  /** A generation that ends well is a run of the buffer in which every call returns. */
  lemma {:induction false} GenerateIsRun(c: Runs.Config, st: Runs.State, raw: string, sent: seq<string>, tokens: seq<string>)
    requires c.Valid() && Generate(c, st, raw, sent, tokens, false).end.Done?
    ensures var g, effects := Generate(c, st, raw, sent, tokens, false), Runs.Run(c, st, Answers.Streaming(tokens));
      && Answers.AllReturn(effects) && g.sent == sent + Meaning.Sent(effects) && g.state == Runs.Final(c, st, Answers.Streaming(tokens))
    decreases |tokens|
  {
    hide Runs.Feed, Runs.Finish;
    var calls := Answers.Streaming(tokens);
    var effects := Runs.Run(c, st, calls);
    var e := effects[0];
    if tokens == [] {
      assert calls == [Runs.CallFinish] && calls[1..] == [] && effects == [e];
      assert Meaning.Sent(effects[1..]) == [];
      assert e.outcome.sentences + [] == e.outcome.sentences;
    } else {
      assert calls[1..] == Answers.Streaming(tokens[1..]);
      var rest := Runs.Run(c, e.state, calls[1..]);
      assert effects == [e] + rest && effects[1..] == rest;
      GenerateIsRun(c, e.state, raw + tokens[0], sent + e.outcome.sentences, tokens[1..]);
      assert (sent + e.outcome.sentences) + Meaning.Sent(rest) == sent + (e.outcome.sentences + Meaning.Sent(rest));
    }
  }

  lemma ListingLists(order: seq<string>, numbers: Citations.Numbers)
    requires Citations.Numbered(order, numbers)
    ensures Meaning.Lists(numbers, Listing(numbers))
  {
    var ids := Listing(numbers);
    forall id | id in numbers ensures 1 <= numbers[id] <= |ids| && ids[numbers[id] - 1] == id {
      assert Citations.Held(numbers, numbers[id]);
    }
  }

  /** A fresh answer and its citation list, in terms of what the model wrote: the stream is fed
      piece by piece, every sentence sent shows its piece token by token, every number it shows is the
      position in the citation list of the context that was named, and the numbers come in turn. */
  ghost predicate ReadsAs(c: Runs.Config, tokens: seq<string>, s: Served)
    requires c.Valid()
  {
    var calls := Answers.Streaming(tokens);
    var effects := Runs.Run(c, Runs.State("", map[]), calls);
    var sentences := Meaning.Sent(effects);
    && |s.events| > 0 && s.events[|s.events| - 1].Final?
    && var r := s.events[|s.events| - 1].response;
    && s.events == Texts(sentences) + [Final(r)] && r.answer == Unwords(sentences)
    && (forall k | 0 <= k < |calls| :: Meaning.CallShows(c, calls[k], r.citations, effects[k]))
    && Meaning.InTurn(0, Meaning.ShownIn(|c.order|, sentences))
    && Meaning.After(0, Meaning.ShownIn(|c.order|, sentences)) == |r.citations|
  }

  lemma ComposeReads(job: Job, contexts: seq<Crag.Chunk>)
    requires job.BufferConfig(contexts).Valid() && Output(job, contexts).end.Done?
    requires FreshAnswer(ComposeWith(job, job.BufferConfig(contexts)))
    ensures ReadsAs(job.BufferConfig(contexts), job.env.tokens, ComposeWith(job, job.BufferConfig(contexts)))
  {
    hide Generate, Mentions, Citations.Strip, Citations.Numbered, Unwords, Listing, Runs.Run, Runs.Final, Unanswered,
         Meaning.CallShows, Meaning.InTurn, Meaning.After, Meaning.ShownIn, Meaning.Lists, Meaning.Sent, Answers.Streaming;
    var c, start, tokens := job.BufferConfig(contexts), Runs.State("", map[]), job.env.tokens;
    var g := Output(job, contexts);
    UnansweredIsNotFresh(job, Texts(g.sent));
    BrokenBreaks(c, start, "", [], tokens, job.env.breaks);
    GenerateIsRun(c, start, "", [], tokens);
    FreshBuffer(c.order);
    var calls := Answers.Streaming(tokens);
    Runs.RunGrounded(c, start, calls);
    var effects := Runs.Run(c, start, calls);
    assert [] + Meaning.Sent(effects) == Meaning.Sent(effects);
    ListingLists(c.order, g.state.numbers);
    Meaning.RunShows(c, start, calls, Listing(g.state.numbers));
    Meaning.RunInTurn(c, start, calls);
  }

  /** A rescued answer: its sentences show, piece by piece, the whole text the model wrote, under the first
      context as default, and its citation list is the one those numbers are positions in. */
  ghost predicate RescueReads(c: Runs.Config, g: Generated, s: Served)
    requires c.Valid()
  {
    var e := Runs.Salvage(c, g.state, g.raw);
    && |s.events| > 0 && s.events[|s.events| - 1].Final?
    && var r := s.events[|s.events| - 1].response;
    && s.events == Texts(g.sent) + [Final(r)]
    && Meaning.CallShows(c, Runs.CallSalvage(g.raw), r.citations, e) && r.answer == Unwords(e.outcome.sentences)
  }

  lemma RescuedReads(job: Job, contexts: seq<Crag.Chunk>)
    requires job.BufferConfig(contexts).Valid() && !Output(job, contexts).end.Done?
    requires FreshAnswer(ComposeWith(job, job.BufferConfig(contexts)))
    ensures RescueReads(job.BufferConfig(contexts), Output(job, contexts), ComposeWith(job, job.BufferConfig(contexts)))
  {
    hide Generate, Mentions, Citations.Strip, Citations.Numbered, Unwords, Listing, Unanswered, Runs.Salvage, AllGrounded,
         Meaning.CallShows, Meaning.Lists;
    var c, start := job.BufferConfig(contexts), Runs.State("", map[]);
    var g := Output(job, contexts);
    UnansweredIsNotFresh(job, []);
    UnansweredIsNotFresh(job, Texts(g.sent));
    FreshBuffer(c.order);
    GenerateGrounded(c, start, "", [], job.env.tokens, job.env.breaks);
    var call := Runs.CallSalvage(g.raw);
    var e := Runs.Salvage(c, g.state, g.raw);
    assert e == Runs.Perform(c, g.state, call) && e.outcome.Rendered?;
    CallKeeps(c, g.state, call, g.sent);
    Answers.CallRenders(c, g.state, call);
    ListingLists(c.order, e.state.numbers);
    Meaning.CallIsShown(c, g.state, call, e.state.numbers, Listing(e.state.numbers));
  }

  /** A stream that breaks does not end well. */
  lemma {:induction false} BrokenBreaks(c: Runs.Config, st: Runs.State, raw: string, sent: seq<string>, tokens: seq<string>, breaks: bool)
    requires c.Valid()
    ensures Generate(c, st, raw, sent, tokens, breaks).end.Done? ==> !breaks
    decreases |tokens|
  {
    hide Runs.Feed, Runs.Finish;
    if tokens != [] {
      var e := Runs.Feed(c, st, tokens[0]);
      if e.outcome.Rendered? {
        BrokenBreaks(c, e.state, raw + tokens[0], sent + e.outcome.sentences, tokens[1..], breaks);
      }
    }
  }

  /** Every fresh answer reads as what the model wrote over contexts of the corrected ranking: streamed, or,
      for a document-scoped query, rescued whole. */
  lemma AnswerReads(job: Job)
    requires job.Valid() && FreshAnswer(Answer(job))
    ensures exists ranked ::
      Generates(job, ranked) &&
      var c, g := job.BufferConfig(job.Contexts(ranked)), Output(job, job.Contexts(ranked));
      if g.end.Done? then ReadsAs(c, job.env.tokens, Answer(job)) else job.Scoped() && RescueReads(c, g, Answer(job))
  {
    hide ComposeWith, Crag.RunResult, Taken, ReadsAs, RescueReads, Gated, Unanswered, Generate;
    UnansweredIsNotFresh(job, []);
    var out := job.Corrected(job.env.ranked.value);
    CorrectedValid(job, job.env.ranked.value);
    ContextsValid(job, out.ranked);
    var contexts := job.Contexts(out.ranked);
    if job.Scoped() {
      ScopedNotAbstained(job, out);
    } else {
      GateBeforeAnswer(job);
      ComposeAnswers(job, contexts);
    }
    if Output(job, contexts).end.Done? {
      ComposeReads(job, contexts);
    } else {
      RescuedReads(job, contexts);
    }
    assert Generates(job, out.ranked);
  }

  /******* What a cache key stands for *******/

  /** The strategy a query runs under: the one it asks for, unless that is empty or missing. */
  predicate RunsUnder(job: Job, strategy: string) {
    match job.rq.strategy
    case Some(s) => strategy == if s == "" then job.p.strategy else s
    case None => strategy == job.p.strategy
  }

  /** The content version a query runs on: the active index, or the configured one without a registry. */
  predicate RunsOn(job: Job, version: string) {
    if job.p.hasProvider then job.env.index == Some(version) else version == job.p.contentVersion
  }

  /** Two queries ask under the same conditions: language, model, answer length, strategy, content. */
  ghost predicate AskAlike(a: Job, b: Job) {
    && a.rq.locale == b.rq.locale
    && a.rq.effective.model == b.rq.effective.model
    && a.rq.effective.maxTokens == b.rq.effective.maxTokens
    && (exists strategy :: RunsUnder(a, strategy) && RunsUnder(b, strategy))
    && (exists version :: RunsOn(a, version) && RunsOn(b, version))
  }

  /** Two queries that use the cache share a namespace exactly when they ask under the same conditions, and
      a key exactly when their questions also have the same words. */
  lemma KeysExactly(a: Job, b: Job)
    requires a.p == b.p && !a.SkipsCache() && !b.SkipsCache() && a.Index().Some? && b.Index().Some?
    ensures a.Space() == b.Space() <==> AskAlike(a, b)
    ensures a.QuestionKey() == b.QuestionKey() <==> AskAlike(a, b) && Words(a.p.fold(a.rq.query)) == Words(b.p.fold(b.rq.query))
  {
    hide Words, NormalizeQuery;
    SameKeyExactly(a.p.fold, a.rq.query, b.rq.query);
    ConditionsOf(a);
    ConditionsOf(b);
    assert RunsUnder(a, a.Space().strategy) && RunsOn(a, a.Space().content);
    assert a.rq.documents == b.rq.documents;
  }

  lemma ConditionsOf(job: Job)
    requires job.Index().Some?
    ensures forall strategy :: RunsUnder(job, strategy) <==> strategy == job.Space().strategy
    ensures forall version :: RunsOn(job, version) <==> version == job.Space().content
  {
  }

  /******* What may be cached *******/

  ghost predicate Author(job: Job, s: Served) {
    s.write.Some? ==>
      && !job.Scoped() && !job.rq.effective.skipCache
      && s.raised.None? && |s.events| > 0 && s.events[|s.events| - 1].Final?
      && var r := s.events[|s.events| - 1].response;
      && s.write.value == Write(job.QuestionKey(), job.env.vector, Payload(r.answer, r.citations, r.kind))
      && r.status == Miss && r.version == job.Version()
      && (r.kind == Answered || (r.kind == NoAnswer && r.answer == NO_ANSWER_TEXT && r.citations == []))
      && (r.kind == Answered ==> r.citations != [])
  }

  /** The cache is offered exactly the completed fresh results that are not refusals, unless it is skipped. */
  ghost predicate Offered(job: Job, s: Served) {
    Author(job, s) &&
    (s.write.Some? <==>
      && !job.SkipsCache() && s.raised.None? && |s.events| > 0 && s.events[|s.events| - 1].Final?
      && s.events[|s.events| - 1].response.status == Miss && s.events[|s.events| - 1].response.kind != Refused)
  }

  lemma EndsOffered(job: Job, sent: seq<string>)
    ensures Offered(job, Unanswered(job, Texts(sent)))
    ensures forall stage :: Offered(job, Failure(Texts(sent), stage))
    ensures forall sentences, numbers :: Offered(job, Conclude(job, Texts(sent), sentences, numbers))
  {
    hide Unwords, Citations.Strip, Listing, NormalizeQuery;
  }

  lemma ComposeOffered(job: Job, c: Runs.Config)
    requires c.Valid()
    ensures Offered(job, ComposeWith(job, c))
  {
    hide Generate, Runs.Salvage, Unanswered, Conclude, Offered, Mentions, Citations.Strip;
    var g := Generate(c, Runs.State("", map[]), "", [], job.env.tokens, job.env.breaks);
    EndsOffered(job, g.sent);
    EndsOffered(job, []);
    assert Texts([]) == [];
  }

  lemma AnswerOffered(job: Job)
    requires job.Valid()
    ensures Offered(job, Answer(job))
  {
    hide ComposeWith, Crag.RunResult, Taken, Offered;
    EndsOffered(job, []);
    assert Texts([]) == [];
    if job.env.ranked.Some? {
      var out := job.Corrected(job.env.ranked.value);
      if out.CragOutcome? {
        CorrectedValid(job, job.env.ranked.value);
        ContextsValid(job, out.ranked);
        ComposeOffered(job, job.BufferConfig(job.Contexts(out.ranked)));
      }
    }
  }

  /** What a query offers the cache is what its own final event says, under its own key, and a
      refusal, a failure, a replay, a document-scoped or a cache-skipping query offers nothing. */
  lemma WritesAreFinals(job: Job, exact: Option<Payload>, semantic: Option<Payload>)
    requires job.Valid()
    ensures Offered(job, Serve(job, exact, semantic))
  {
    hide Answer;
    AnswerOffered(job);
    var s := ServeBody(job, exact, semantic);
    assert Offered(job, s);
    var whole := Serve(job, exact, semantic);
    if s.events != [] {
      assert whole.events[|whole.events| - 1] == s.events[|s.events| - 1];
    }
  }

  /** A document-scoped or cache-skipping query never depends on what is in the cache. */
  lemma ScopedIgnoresCache(job: Job, exact: Option<Payload>, semantic: Option<Payload>)
    requires job.Valid() && job.SkipsCache()
    ensures Serve(job, exact, semantic) == Serve(job, None, None) && Serve(job, exact, semantic).write.None?
  {
    hide Answer;
    WritesAreFinals(job, exact, semantic);
  }

  /******* A plain query *******/

  /** A query that nothing stops before generation: no overrides but a threshold, no correction, and as
      many contexts as were ranked. */
  function PlainJob(p: Settings, threshold: real, ranked: seq<Crag.Ranked>, tokens: seq<string>): Job {
    var setting := Crag.Setting(false, threshold, None, false, 0, 0, 0);
    Job(p, Request("q", [], None, "en", Effective(false, false, |ranked|, setting, "m", 0)),
        Env(Allowed, None, true, Some([]), Allowed, true, None, Some([Crag.Chunk("a", [])]), Some(ranked),
            Crag.Replies(Crag.NoScorer, Crag.RewriteFailed, Crag.RetryFailed), tokens, false, AllStored))
  }

  /** Over one context that clears the gate and fits, a plain query is answered. */
  lemma PlainAnswer(p: Settings, threshold: real, top: Crag.Ranked)
    requires !p.hasProvider && p.cost(top.chunk) <= p.budget && MarkerText.ValidId(top.chunk.id) && top.score >= threshold
    ensures var job := PlainJob(p, threshold, [top], ["x"]); job.Valid() && FreshAnswer(Serve(job, None, None))
  {
    hide Runs.Feed, Runs.Finish, Generate, ComposeWith, Citations.Strip;
    var job := PlainJob(p, threshold, [top], ["x"]);
    var contexts := [top.chunk];
    OneTaken(p.cost, p.budget, top);
    assert Crag.Candidates([top], 1) == [top];
    assert job.Contexts([top]) == contexts;
    ContextsValid(job, [top]);
    var c := job.BufferConfig(contexts);
    assert c.order == [top.chunk.id];
    var start := Runs.State("", map[]);
    assert "" + "x" == "x";
    Answers.OneLetter("x");
    Answers.FeedKeepsWhole(c, start, "x");
    var fed := Runs.Feed(c, start, "x");
    GenerateNext(c, start, "", [], ["x"], 0, false);
    var tokens := ["x"];
    assert tokens[0..] == tokens && tokens[1..] == [];
    GenerateLast(c, fed.state, "" + "x", [], false);
    FreshBuffer(c.order);
    LetterIsText();
    Answers.SingleContextFinishes(c, fed.state);
    assert [] + fed.outcome.sentences == [];
    var ended := Runs.Finish(c, fed.state);
    assert [] + ended.outcome.sentences == ended.outcome.sentences;
    assert Output(job, contexts) == Generate(c, start, "", [], tokens, false);
    assert Output(job, contexts).end.Done? && Output(job, contexts).sent == ended.outcome.sentences;
    ComposeAnswers(job, contexts);
    assert Answer(job) == ComposeWith(job, c);
    ServedAnswer(job);
  }

  lemma LetterIsText()
    ensures Citations.Strip("x") != ""
  {
    Citations.BlankIsSpace("x");
  }

  lemma OneTaken(cost: Crag.Chunk -> nat, budget: int, top: Crag.Ranked)
    requires cost(top.chunk) <= budget
    ensures Taken(cost, budget, [top], 1) == [top.chunk]
  {
    assert Total(cost, []) == 0;
  }

  lemma ServedAnswer(job: Job)
    requires job.Valid() && job.env.guard.Allowed? && job.env.vectorGuard.Allowed? && job.Index().Some? && job.env.vector.Some?
    ensures Serve(job, None, None) == Answer(job).(events := [Meta] + Answer(job).events)
    ensures FreshAnswer(Answer(job)) ==> FreshAnswer(Serve(job, None, None))
  {
    hide Answer;
    var s := Answer(job);
    if FreshAnswer(s) {
      assert ([Meta] + s.events)[|s.events|] == s.events[|s.events| - 1];
    }
  }

  /******* The pipeline object *******/

  class QueryPipeline {
    const p: Settings
    const cache: RedisAnswerCache

    ghost predicate Valid() { cache.fold == p.fold }

    constructor (p: Settings, cache: RedisAnswerCache)
      requires cache.fold == p.fold
      ensures Valid() && this.p == p && this.cache == cache
    {
      this.p := p;
      this.cache := cache;
    }

    /** What the exact and the semantic lookup of a job return. */
    ghost function ExactFound(job: Job): Option<Payload>
      reads cache
    {
      if cache.available && job.env.exactAnswers then ExactHit(cache.store, job.QuestionKey()) else None
    }

    ghost function SemanticFound(job: Job): Option<Payload>
      reads cache
    {
      if cache.available && cache.SemanticOn() && job.env.semanticAnswers && job.env.vector.Some?
      then SemanticHit(cache.store, cache.threshold.value, cache.distance, job.Space(), job.env.vector.value, job.env.found)
      else None
    }

    /** The store after a job offered `s.write`. */
    ghost function Recorded(job: Job, s: Served): Store
      reads cache
    {
      if s.write.Some? && cache.available then Stored(cache.store, cache.SemanticOn(), s.write.value, job.env.progress) else cache.store
    }

    method CacheWrite(job: Job, answer: string, citations: seq<string>, semantic: bool)
      requires Valid() && job.p == p
      modifies cache`store
      ensures var w := ToWrite(job, answer, citations, if semantic then Answered else NoAnswer);
        cache.store == if w.Some? && cache.available
                       then Stored(old(cache.store), old(cache.SemanticOn()), w.value, job.env.progress) else old(cache.store)
    {
      hide NormalizeQuery;
      if job.SkipsCache() {
        return;
      }
      cache.Put(job.Space(), job.rq.query, job.env.vector, answer, citations, semantic, job.env.progress);
    }

    method GiveUp(job: Job, sent: seq<Event>) returns (events: seq<Event>)
      requires Valid() && job.p == p
      modifies cache`store
      ensures var s := Unanswered(job, sent); events == s.events && cache.store == old(Recorded(job, s))
    {
      events := sent + [Text(NO_ANSWER_TEXT)];
      CacheWrite(job, NO_ANSWER_TEXT, [], false);
      events := events + [Final(Response(NoAnswer, NO_ANSWER_TEXT, [], Miss, job.Version()))];
      assert events == Unanswered(job, sent).events;
    }

    method Finish(job: Job, sent: seq<Event>, sentences: seq<string>, buffer: Buffer.SentenceCitationBuffer) returns (events: seq<Event>)
      requires Valid() && job.p == p && buffer.Valid()
      modifies cache`store
      ensures var s := Conclude(job, sent, sentences, buffer.numbers); events == s.events && cache.store == old(Recorded(job, s))
    {
      hide Unwords, Citations.Strip;
      var answer := Unwords(sentences);
      var citations := buffer.CitedChunks();
      ListingIs(buffer.contextOrder, buffer.numbers, citations);
      if Citations.Strip(answer) == "" || citations == [] {
        events := GiveUp(job, sent);
        return;
      }
      CacheWrite(job, answer, citations, true);
      events := sent + [Final(Response(Answered, answer, citations, Miss, job.Version()))];
    }

    /** Feeds the buffer token by token as the model produces them. */
    method Produce(job: Job, contexts: seq<Crag.Chunk>)
      returns (buffer: Buffer.SentenceCitationBuffer, raw: string, sent: seq<string>, end: End)
      requires job.BufferConfig(contexts).Valid()
      ensures fresh(buffer) && buffer.Valid() && buffer.Settings() == job.BufferConfig(contexts)
      ensures Generated(buffer.Current(), raw, sent, end) == Output(job, contexts)
    {
      hide Citations.Numbered, Runs.Feed, Runs.Finish, Generate;
      buffer := new Buffer.SentenceCitationBuffer(Ids(contexts), job.Scoped());
      ghost var c := job.BufferConfig(contexts);
      raw, sent := "", [];
      var tokens, breaks := job.env.tokens, job.env.breaks;
      assert tokens[0..] == tokens;
      for i := 0 to |tokens|
        invariant fresh(buffer) && buffer.Valid() && buffer.Settings() == c
        invariant Generate(c, buffer.Current(), raw, sent, tokens[i..], breaks) == Output(job, contexts)
      {
        GenerateNext(c, buffer.Current(), raw, sent, tokens, i, breaks);
        raw := raw + tokens[i];
        var validated := buffer.Feed(tokens[i]);
        if !validated.Rendered? {
          end := Invalid(validated);
          return;
        }
        sent := sent + validated.sentences;
      }
      assert tokens[|tokens|..] == [];
      GenerateLast(c, buffer.Current(), raw, sent, breaks);
      if breaks {
        end := Broken;
        return;
      }
      var validated := buffer.Finish();
      if validated.Rendered? {
        sent := sent + validated.sentences;
        end := Done;
      } else {
        end := Invalid(validated);
      }
    }

    /** Selection, generation and everything after it. */
    method ComposeAnswer(job: Job, ranked: seq<Crag.Ranked>) returns (events: seq<Event>, raised: Option<Stage>)
      requires Valid() && job.p == p && ValidIds(ranked)
      modifies cache`store
      ensures var s := Compose(job, ranked);
        events == s.events && raised == s.raised && cache.store == old(Recorded(job, s))
    {
      hide Citations.Numbered, Runs.Salvage, Unanswered, Conclude, Generate, Mentions, Citations.Strip, Taken;
      raised := None;
      var contexts := SelectContexts(p.cost, p.budget, Crag.Candidates(ranked, job.rq.effective.topK));
      assert contexts == job.Contexts(ranked);
      UnansweredWrites(job);
      if contexts == [] {
        events := GiveUp(job, []);
        return;
      }
      ContextsValid(job, ranked);
      var buffer, raw, sent, end := Produce(job, contexts);
      ghost var c := job.BufferConfig(contexts);
      assert Compose(job, ranked) == ComposeWith(job, c);
      match end
      case Done =>
        ConcludeRaises(job, Texts(sent), sent, buffer.numbers);
        events := Finish(job, Texts(sent), sent, buffer);
      case Broken =>
        events, raised := Texts(sent), Some(Generation);
      case Invalid(error) =>
        if sent == [] && Mentions(p.fold(NO_ANSWER_TEXT), p.fold(raw)) {
          events := GiveUp(job, []);
          return;
        }
        var failed := true;
        if job.Scoped() && Citations.Strip(raw) != "" {
          var rescued := buffer.Salvage(raw);
          if rescued.Rendered? {
            ConcludeRaises(job, Texts(sent), rescued.sentences, buffer.numbers);
            failed := false;
            events := Finish(job, Texts(sent), rescued.sentences, buffer);
          }
        }
        if failed {
          if error.UnknownMarker? {
            events, raised := Texts(sent), Some(CitationValidation);
          } else {
            events := GiveUp(job, Texts(sent));
          }
        }
    }

    /** Retrieval, reranking, correction, and the answer. */
    method AnswerQuery(job: Job) returns (events: seq<Event>, raised: Option<Stage>)
      requires Valid() && job.p == p && job.Valid()
      modifies cache`store
      ensures var s := Answer(job);
        events == s.events && raised == s.raised && cache.store == old(Recorded(job, s))
    {
      hide Crag.RunResult, Compose, Unanswered;
      raised := None;
      UnansweredWrites(job);
      if job.env.retrieved.None? {
        return [], Some(Retrieval);
      }
      if job.env.retrieved.value == [] {
        events := GiveUp(job, []);
        return;
      }
      if job.env.ranked.None? {
        return [], Some(Rerank);
      }
      var ranked := job.env.ranked.value;
      var out := Correct(job, ranked);
      if out.CragRaised? {
        return [], Some(Correction);
      }
      CorrectedValid(job, ranked);
      var abstain := out.abstain;
      if job.Scoped() && out.ranked != [] {
        abstain := false;
      }
      if abstain {
        events := GiveUp(job, []);
        return;
      }
      events, raised := ComposeAnswer(job, out.ranked);
    }

    method Correct(job: Job, ranked: seq<Crag.Ranked>) returns (out: Crag.CragOutcome)
      requires job.p == p
      ensures out == job.Corrected(ranked)
    {
      hide Crag.RunResult;
      if !job.rq.effective.corrects {
        var below := !Crag.Clears(ranked, job.rq.effective.crag.threshold);
        if job.Scoped() && ranked != [] {
          below := false;
        }
        return Crag.CragOutcome(Crag.Disabled, ranked, Crag.TopScore(ranked), None, 0, below);
      }
      out := Crag.Run(job.rq.effective.crag, p.fold, job.rq.query, job.Scoped(), ranked, job.env.replies);
    }

    /** One query, from its opening event to its final one or the stage that raised. */
    method Stream(rq: Request, env: Env) returns (events: seq<Event>, raised: Option<Stage>)
      requires Valid() && Job(p, rq, env).Valid()
      modifies cache`store
      ensures var job := Job(p, rq, env); var s := Serve(job, old(ExactFound(job)), old(SemanticFound(job)));
        events == s.events && raised == s.raised && cache.store == old(Recorded(job, s))
    {
      hide Answer, NormalizeQuery, ExactHit, SemanticHit;
      var job := Job(p, rq, env);
      events := [Meta];
      raised := None;
      if env.guard.Blocked? {
        events := events + Refusal(env.guard.refusal, p.contentVersion).events;
        return;
      }
      if job.Index().None? {
        raised := Some(IndexRegistry);
        return;
      }
      var skip := rq.effective.skipCache || rq.documents != [];
      if !skip {
        var hit := cache.GetExact(job.Space(), rq.query, env.exactAnswers);
        if hit.Some? {
          events := events + Replay(hit.value, Exact, job.Version()).events;
          return;
        }
      }
      if env.vector.None? {
        raised := Some(Embedding);
        return;
      }
      if rq.documents == [] && env.vectorGuard.Blocked? {
        events := events + Refusal(env.vectorGuard.refusal, p.contentVersion).events;
        return;
      }
      if !skip {
        var hit := cache.GetSemantic(job.Space(), env.vector.value, env.found, env.semanticAnswers);
        if hit.Some? {
          events := events + Replay(hit.value, Semantic, job.Version()).events;
          return;
        }
      }
      var answer: seq<Event>;
      answer, raised := AnswerQuery(job);
      events := events + answer;
    }
  }

  lemma GenerateNext(c: Runs.Config, st: Runs.State, raw: string, sent: seq<string>, tokens: seq<string>, i: nat, breaks: bool)
    requires c.Valid() && i < |tokens|
    ensures var e := Runs.Feed(c, st, tokens[i]);
      Generate(c, st, raw, sent, tokens[i..], breaks) ==
      if e.outcome.Rendered? then Generate(c, e.state, raw + tokens[i], sent + e.outcome.sentences, tokens[i + 1..], breaks)
      else Generated(e.state, raw + tokens[i], sent, Invalid(e.outcome))
  {
    hide Runs.Feed;
    assert tokens[i..][1..] == tokens[i + 1..];
  }

  lemma GenerateLast(c: Runs.Config, st: Runs.State, raw: string, sent: seq<string>, breaks: bool)
    requires c.Valid()
    ensures var e := Runs.Finish(c, st);
      Generate(c, st, raw, sent, [], breaks) ==
      if breaks then Generated(st, raw, sent, Broken)
      else if e.outcome.Rendered? then Generated(e.state, raw, sent + e.outcome.sentences, Done)
      else Generated(e.state, raw, sent, Invalid(e.outcome))
  {
    hide Runs.Finish;
  }

  lemma UnansweredWrites(job: Job)
    ensures forall sent :: Unanswered(job, sent).raised.None?
  {
  }

  lemma ConcludeRaises(job: Job, sent: seq<Event>, sentences: seq<string>, numbers: Citations.Numbers)
    ensures Conclude(job, sent, sentences, numbers).raised.None?
  {
    hide Unwords, Citations.Strip, Listing;
  }
}
