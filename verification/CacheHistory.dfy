/**
 Histories of the answer cache: any number of queries, their lookups, generations and writes
 interleaved step by step with each other, with expiries and with index switches. A query that stops
 halfway simply takes no more steps.
 */
module CacheHistory {
  import opened Common
  import opened AnswerCache
  import opened QueryPipeline

  /** What is fixed when the service starts. */
  datatype Deployment = Deployment(p: Settings, up: bool, semanticOn: bool, limit: real, distance: (Vector, Vector) -> real)

  /** How far a query has got: its lookups, its result, and its write, exact entry first. */
  datatype Pc = Asked | LookedUp | Searched | Writing | HalfWritten | Over

  /** `exact` and `semantic` are what its lookups found; `asked`, `exactAt` and `semanticAt` are how many
      writes there had been when the query came in and when it looked. */
  datatype Query = Query(job: Job, asked: nat, exact: Option<Payload>, exactAt: nat, semantic: Option<Payload>, semanticAt: nat,
                         pc: Pc) {
    /** What the query served, once its lookups are done. */
    ghost function Result(): Served
      requires job.Valid()
    {
      Serve(job, exact, semantic)
    }

    /** It has served its result. */
    predicate Settled() { pc.Writing? || pc.HalfWritten? || pc.Over? }
  }

  /** An exact write, and the query that made it. */
  datatype Entry = Entry(author: nat, write: Write)

  /** A query answered from the cache, with the number of writes when it came in and when it looked. */
  datatype Replayed = Replayed(job: Job, asked: nat, looked: nat, response: Response)

  function ReplayOf(query: Query, r: Response): Replayed {
    Replayed(query.job, query.asked, if r.status == Exact then query.exactAt else query.semanticAt, r)
  }

  /** The store, the active content version, the exact writes so far, the queries, and the replays so far. */
  datatype World = World(store: Store, version: string, log: seq<Entry>, queries: map<nat, Query>, replays: seq<Replayed>)

  datatype Happening =
    | Ask(q: nat, job: Job)
    | LookUp(q: nat)
    | Search(q: nat)
    | Settle(q: nat)
    | StoreExact(q: nat)
    | StoreSemantic(q: nat)
    | ExpireExact(key: Key)
    | ExpireSemantic(i: nat)
    | Activate(version: string)

  function Start(version: string): World { World(EMPTY, version, [], map[], []) }

  ghost predicate Admits(d: Deployment, w: World, job: Job) {
    job.p == d.p && job.Valid() && (job.Index().Some? ==> job.Version() == w.version)
  }

  function ExactRead(d: Deployment, store: Store, job: Job): Option<Payload> {
    if d.up && job.env.exactAnswers then ExactHit(store, job.QuestionKey()) else None
  }

  function SemanticRead(d: Deployment, store: Store, job: Job): Option<Payload> {
    if d.up && d.semanticOn && job.env.semanticAnswers && job.env.vector.Some?
    then SemanticHit(store, d.limit, d.distance, job.Space(), job.env.vector.value, job.env.found)
    else None
  }

  /** The response of a run that was answered from the cache. */
  ghost predicate IsReplay(s: Served) {
    s.raised.None? && |s.events| > 0 && s.events[|s.events| - 1].Final? && s.events[|s.events| - 1].response.status != Miss
  }

  function Put(w: World, q: nat, query: Query): World { w.(queries := w.queries[q := query]) }

  /** A query whose lookups are done gets its result. */
  ghost function Concluded(d: Deployment, w: World, q: nat): World
    requires q in w.queries && w.queries[q].job.Valid()
  {
    var query := w.queries[q];
    var s := query.Result();
    if IsReplay(s) then
      Put(w, q, query.(pc := Over)).(replays := w.replays + [ReplayOf(query, s.events[|s.events| - 1].response)])
    else if s.write.Some? && d.up then Put(w, q, query.(pc := Writing))
    else Put(w, q, query.(pc := Over))
  }

  /** A settled query's exact entry arrives at the store. */
  ghost function Recorded(d: Deployment, w: World, q: nat): World
    requires q in w.queries && w.queries[q].job.Valid() && w.queries[q].Result().write.Some?
  {
    var write := w.queries[q].Result().write.value;
    Put(w, q, w.queries[q].(pc := HalfWritten)).(store := Stored(w.store, d.semanticOn, write, ExactStored), log := w.log + [Entry(q, write)])
  }

  /** One step; a step that is not enabled changes nothing. */
  ghost function Advance(d: Deployment, w: World, h: Happening): World {
    match h
    case Ask(q, job) =>
      if q !in w.queries && Admits(d, w, job) then Put(w, q, Query(job, |w.log|, None, 0, None, 0, Asked)) else w
    case LookUp(q) =>
      if q in w.queries && w.queries[q].pc.Asked?
      then Put(w, q, w.queries[q].(exact := ExactRead(d, w.store, w.queries[q].job), exactAt := |w.log|, pc := LookedUp)) else w
    case Search(q) =>
      if q in w.queries && w.queries[q].pc.LookedUp?
      then Put(w, q, w.queries[q].(semantic := SemanticRead(d, w.store, w.queries[q].job), semanticAt := |w.log|, pc := Searched)) else w
    case Settle(q) =>
      if q in w.queries && w.queries[q].pc.Searched? && w.queries[q].job.Valid() then Concluded(d, w, q) else w
    case StoreExact(q) =>
      if q in w.queries && w.queries[q].pc.Writing? && w.queries[q].job.Valid() && w.queries[q].Result().write.Some?
      then Recorded(d, w, q) else w
    case StoreSemantic(q) =>
      if q in w.queries && w.queries[q].pc.HalfWritten? && w.queries[q].job.Valid() && w.queries[q].Result().write.Some? then
        Put(w, q, w.queries[q].(pc := Over)).(store := WithNeighbour(w.store, d.semanticOn, w.queries[q].Result().write.value))
      else w
    case ExpireExact(key) => w.(store := w.store.(exact := w.store.exact - {key}))
    case ExpireSemantic(i) =>
      if i < |w.store.semantic|
      then w.(store := w.store.(semantic := w.store.semantic[..i] + w.store.semantic[i + 1..])) else w
    case Activate(version) => w.(version := version)
  }

  /** The second half of a write. */
  function WithNeighbour(store: Store, semanticOn: bool, w: Write): Store {
    if w.payload.kind.Answered? && w.vector.Some? && semanticOn
    then store.(semantic := store.semantic + [Neighbour(w.key.space, w.vector.value, w.payload)]) else store
  }

  /** An undisturbed write is its two halves. */
  lemma StoredInHalves(store: Store, semanticOn: bool, w: Write)
    ensures Stored(store, semanticOn, w, AllStored) == WithNeighbour(Stored(store, semanticOn, w, ExactStored), semanticOn, w)
  {
  }

  ghost function Run(d: Deployment, w: World, hs: seq<Happening>): World
    decreases |hs|
  {
    if hs == [] then w else Run(d, Advance(d, w, hs[0]), hs[1..])
  }

  /******* What a hit is *******/

  /** The last write under a key. */
  function Latest(log: seq<Entry>, key: Key): Option<Entry> {
    if log == [] then None
    else if log[|log| - 1].write.key == key then Some(log[|log| - 1])
    else Latest(log[..|log| - 1], key)
  }

  /** At that moment of the log the entry was the latest write under the key. */
  ghost predicate WasLatest(log: seq<Entry>, at: nat, key: Key, e: Entry) {
    at <= |log| && Latest(log[..at], key) == Some(e)
  }

  /** A write of an answered question of the namespace, near enough. */
  ghost predicate Near(d: Deployment, w: Write, space: Namespace, vector: Vector) {
    w.payload.kind.Answered? && w.key.space == space && w.vector.Some? && d.distance(w.vector.value, vector) <= d.limit
  }

  ghost predicate Found(log: seq<Entry>, query: Query) {
    query.asked <= query.exactAt <= |log| &&
    (query.exact.Some? ==>
      exists e :: WasLatest(log, query.exactAt, query.job.QuestionKey(), e) && e.write.payload == query.exact.value)
  }

  ghost predicate FoundNear(d: Deployment, log: seq<Entry>, query: Query) {
    query.asked <= query.semanticAt <= |log| &&
    (query.semantic.Some? ==>
      query.job.env.vector.Some? && exists e :: e in log[..query.semanticAt] && Finds(d, e, query))
  }

  ghost predicate Finds(d: Deployment, e: Entry, query: Query)
    requires query.semantic.Some? && query.job.env.vector.Some?
  {
    Near(d, e.write, query.job.Space(), query.job.env.vector.value) && e.write.payload == query.semantic.value
  }

  function PayloadOf(r: Response): Payload { Payload(r.answer, r.citations, r.kind) }

  /** The write a replay goes back to: one made before the lookup, and for an exact hit the latest then. */
  ghost predicate Source(d: Deployment, log: seq<Entry>, r: Replayed, e: Entry) {
    && r.asked <= r.looked <= |log| && e in log[..r.looked]
    && e.write.payload == PayloadOf(r.response) && e.write.key.space == r.job.Space()
    && (r.response.status == Exact ==> WasLatest(log, r.looked, r.job.QuestionKey(), e) && e.write.key == r.job.QuestionKey())
    && (r.response.status == Semantic ==> r.job.env.vector.Some? && Near(d, e.write, r.job.Space(), r.job.env.vector.value))
  }

  ghost predicate Justified(d: Deployment, log: seq<Entry>, r: Replayed) {
    && !r.job.SkipsCache() && r.job.Index().Some? && r.job.env.guard.Allowed? && r.job.p == d.p
    && r.response.status != Miss && r.response.version == r.job.Version()
    && d.up && (r.response.status == Exact ==> r.job.env.exactAnswers)
    && (r.response.status == Semantic ==> d.semanticOn && r.job.env.semanticAnswers)
    && exists e :: Source(d, log, r, e)
  }

  /******* The invariant *******/

  ghost predicate StoreInv(d: Deployment, store: Store, log: seq<Entry>) {
    && (forall key | key in store.exact ::
          Latest(log, key).Some? && Latest(log, key).value.write.payload == store.exact[key])
    && (forall n | n in store.semantic :: Kept(log, n))
  }

  ghost predicate Kept(log: seq<Entry>, n: Neighbour) {
    exists e :: e in log && e.write.payload.kind.Answered? && e.write.key.space == n.space
             && e.write.vector == Some(n.vector) && e.write.payload == n.payload
  }

  /** The entry's author is a query of this history that has served its result, and this is its write. */
  ghost predicate Authored(d: Deployment, queries: map<nat, Query>, e: Entry) {
    && d.up && e.author in queries
    && var a := queries[e.author];
    && a.Settled() && a.job.p == d.p && a.job.Valid() && a.Result().write == Some(e.write)
  }

  ghost predicate QueryInv(d: Deployment, log: seq<Entry>, q: nat, query: Query) {
    && query.job.p == d.p && query.job.Valid() && query.asked <= |log|
    && (query.pc.LookedUp? || query.pc.Searched? ==> Found(log, query))
    && (query.pc.Searched? ==> FoundNear(d, log, query))
    && (query.pc.LookedUp? || query.pc.Searched? ==> (query.exact.Some? ==> d.up && query.job.env.exactAnswers))
    && (query.pc.Searched? ==> (query.semantic.Some? ==> d.up && d.semanticOn && query.job.env.semanticAnswers))
    && (query.pc.Writing? || query.pc.HalfWritten? ==> d.up)
    && (query.pc.HalfWritten? ==> query.Result().write.Some? && Entry(q, query.Result().write.value) in log)
  }

  ghost predicate Inv(d: Deployment, w: World) {
    && StoreInv(d, w.store, w.log)
    && (forall e | e in w.log :: Authored(d, w.queries, e))
    && (forall q | q in w.queries :: QueryInv(d, w.log, q, w.queries[q]))
    && (forall r | r in w.replays :: Justified(d, w.log, r))
  }

  lemma LatestSnoc(log: seq<Entry>, e: Entry, key: Key)
    ensures Latest(log + [e], key) == if e.write.key == key then Some(e) else Latest(log, key)
  {
    assert (log + [e])[..|log|] == log;
  }

  lemma {:induction false} LatestIsWrite(log: seq<Entry>, key: Key)
    ensures Latest(log, key).Some? ==> Latest(log, key).value in log && Latest(log, key).value.write.key == key
    decreases |log|
  {
    if log != [] && log[|log| - 1].write.key != key {
      LatestIsWrite(log[..|log| - 1], key);
    }
  }

  lemma PrefixKept(log: seq<Entry>, more: Entry, at: nat)
    requires at <= |log|
    ensures (log + [more])[..at] == log[..at]
  {
  }

  lemma SourceGrows(d: Deployment, log: seq<Entry>, more: Entry, r: Replayed)
    requires Justified(d, log, r)
    ensures Justified(d, log + [more], r)
  {
    hide Near, NormalizeQuery, Latest;
    var e :| Source(d, log, r, e);
    PrefixKept(log, more, r.looked);
    assert Source(d, log + [more], r, e);
  }

  lemma FoundGrows(d: Deployment, log: seq<Entry>, more: Entry, query: Query)
    ensures Found(log, query) ==> Found(log + [more], query)
    ensures FoundNear(d, log, query) ==> FoundNear(d, log + [more], query)
  {
    hide Finds, NormalizeQuery, Latest;
    if Found(log, query) {
      PrefixKept(log, more, query.exactAt);
      if query.exact.Some? {
        var e :| WasLatest(log, query.exactAt, query.job.QuestionKey(), e) && e.write.payload == query.exact.value;
        assert WasLatest(log + [more], query.exactAt, query.job.QuestionKey(), e);
      }
    }
    if FoundNear(d, log, query) {
      PrefixKept(log, more, query.semanticAt);
    }
  }

  lemma StoreExactKeeps(d: Deployment, store: Store, log: seq<Entry>, e: Entry)
    requires StoreInv(d, store, log)
    ensures StoreInv(d, Stored(store, d.semanticOn, e.write, ExactStored), log + [e])
  {
    hide Latest;
    var next := Stored(store, d.semanticOn, e.write, ExactStored);
    forall key | key in next.exact
      ensures Latest(log + [e], key).Some? && Latest(log + [e], key).value.write.payload == next.exact[key]
    {
      LatestSnoc(log, e, key);
    }
    forall n | n in next.semantic ensures Kept(log + [e], n) {
      assert Kept(log, n);
      var x :| x in log && x.write.payload.kind.Answered? && x.write.key.space == n.space
            && x.write.vector == Some(n.vector) && x.write.payload == n.payload;
      assert x in log + [e];
    }
  }

  lemma StoreSemanticKeeps(d: Deployment, store: Store, log: seq<Entry>, e: Entry)
    requires StoreInv(d, store, log) && e in log
    ensures StoreInv(d, WithNeighbour(store, d.semanticOn, e.write), log)
  {
    hide Latest;
    var next := WithNeighbour(store, d.semanticOn, e.write);
    forall n | n in next.semantic ensures Kept(log, n) {
      if n !in store.semantic {
        assert e in log && n == Neighbour(e.write.key.space, e.write.vector.value, e.write.payload);
      }
    }
  }

  lemma ExpiryKeeps(d: Deployment, store: Store, log: seq<Entry>, key: Key)
    requires StoreInv(d, store, log)
    ensures StoreInv(d, store.(exact := store.exact - {key}), log)
  {
    hide Latest, Kept;
  }

  lemma SemanticExpiryKeeps(d: Deployment, store: Store, log: seq<Entry>, i: nat)
    requires StoreInv(d, store, log) && i < |store.semantic|
    ensures StoreInv(d, store.(semantic := store.semantic[..i] + store.semantic[i + 1..]), log)
  {
    hide Latest, Kept;
  }

  lemma ExactReadFound(d: Deployment, store: Store, log: seq<Entry>, query: Query)
    requires StoreInv(d, store, log) && query.asked <= |log|
    ensures Found(log, query.(exact := ExactRead(d, store, query.job), exactAt := |log|, pc := LookedUp))
  {
    hide Latest, NormalizeQuery;
    assert log[..|log|] == log;
    if ExactRead(d, store, query.job).Some? {
      assert WasLatest(log, |log|, query.job.QuestionKey(), Latest(log, query.job.QuestionKey()).value);
    }
  }

  lemma SemanticReadFound(d: Deployment, store: Store, log: seq<Entry>, query: Query)
    requires StoreInv(d, store, log) && query.asked <= |log|
    ensures FoundNear(d, log, query.(semantic := SemanticRead(d, store, query.job), semanticAt := |log|, pc := Searched))
  {
    hide Latest, NormalizeQuery;
    assert log[..|log|] == log;
    var job := query.job;
    if SemanticRead(d, store, job).Some? {
      var n := store.semantic[job.env.found.value];
      assert Kept(log, n);
      var e :| e in log && e.write.payload.kind.Answered? && e.write.key.space == n.space
            && e.write.vector == Some(n.vector) && e.write.payload == n.payload;
      assert Finds(d, e, query.(semantic := SemanticRead(d, store, query.job), semanticAt := |log|, pc := Searched));
    }
  }

  /** A replay hands on what its lookup found, untouched. */
  lemma ReplayIsHit(job: Job, exact: Option<Payload>, semantic: Option<Payload>)
    requires job.Valid() && IsReplay(Serve(job, exact, semantic))
    ensures var s := Serve(job, exact, semantic); var r := s.events[|s.events| - 1].response;
      && !job.SkipsCache() && job.Index().Some? && job.env.guard.Allowed?
      && r.version == job.Version() && (r.status == Exact || r.status == Semantic)
      && (if r.status == Exact then exact == Some(PayloadOf(r)) else semantic == Some(PayloadOf(r)))
  {
    hide Answer, NormalizeQuery;
    AnswerIsMiss(job);
    var s := ServeBody(job, exact, semantic);
    var whole := Serve(job, exact, semantic);
    if s.events != [] {
      assert whole.events[|whole.events| - 1] == s.events[|s.events| - 1];
    }
  }

  lemma AnswerIsMiss(job: Job)
    requires job.Valid()
    ensures !IsReplay(Answer(job))
  {
    hide ComposeWith, Taken;
    if job.env.ranked.Some? && job.Corrected(job.env.ranked.value).CragOutcome? {
      var out := job.Corrected(job.env.ranked.value);
      CorrectedValid(job, job.env.ranked.value);
      ContextsValid(job, out.ranked);
      ComposeIsMiss(job, job.BufferConfig(job.Contexts(out.ranked)));
    }
  }

  lemma ComposeIsMiss(job: Job, c: Runs.Config)
    requires c.Valid()
    ensures !IsReplay(ComposeWith(job, c))
  {
    hide Generate, Runs.Salvage, Mentions, Unanswered, Conclude, IsReplay, Citations.Strip;
    var g := Generate(c, Runs.State("", map[]), "", [], job.env.tokens, job.env.breaks);
    EndsAreMisses(job, Texts(g.sent));
    EndsAreMisses(job, []);
  }

  lemma EndsAreMisses(job: Job, sent: seq<Event>)
    ensures !IsReplay(Unanswered(job, sent))
    ensures forall stage :: !IsReplay(Failure(sent, stage))
    ensures forall sentences, numbers :: !IsReplay(Conclude(job, sent, sentences, numbers))
  {
    hide Unwords, Citations.Strip, Listing, ToWrite;
  }

  lemma ReplayJustified(d: Deployment, log: seq<Entry>, q: nat, query: Query)
    requires QueryInv(d, log, q, query) && query.pc.Searched? && IsReplay(query.Result())
    ensures var s := query.Result(); Justified(d, log, ReplayOf(query, s.events[|s.events| - 1].response))
  {
    hide Serve, Latest, NormalizeQuery, Near;
    var s := query.Result();
    ReplayIsHit(query.job, query.exact, query.semantic);
    var r := ReplayOf(query, s.events[|s.events| - 1].response);
    if r.response.status == Exact {
      var e :| WasLatest(log, query.exactAt, query.job.QuestionKey(), e) && e.write.payload == query.exact.value;
      LatestIsWrite(log[..query.exactAt], query.job.QuestionKey());
      assert Source(d, log, r, e);
    } else {
      var e :| e in log[..query.semanticAt] && Finds(d, e, query);
      NearSpace(d, e.write, query.job.Space(), query.job.env.vector.value);
      assert Source(d, log, r, e);
    }
  }

  lemma NearSpace(d: Deployment, w: Write, space: Namespace, vector: Vector)
    requires Near(d, w, space, vector)
    ensures w.key.space == space
  {
  }

  /** A query that moves on keeps the authors: one that has settled keeps what it served. */
  lemma AuthorsKept(d: Deployment, w: World, q: nat, query: Query)
    requires forall e | e in w.log :: Authored(d, w.queries, e)
    requires q in w.queries ==>
      w.queries[q].Settled() ==> query.Settled() && query.(pc := Over) == w.queries[q].(pc := Over)
    ensures forall e | e in w.log :: Authored(d, w.queries[q := query], e)
  {
    hide Serve;
  }

  lemma PutKeeps(d: Deployment, w: World, q: nat, query: Query)
    requires Inv(d, w) && QueryInv(d, w.log, q, query)
    requires q in w.queries ==>
      w.queries[q].Settled() ==> query.Settled() && query.(pc := Over) == w.queries[q].(pc := Over)
    ensures Inv(d, Put(w, q, query))
  {
    hide StoreInv, QueryInv, Authored, Justified;
    AuthorsKept(d, w, q, query);
  }

  lemma ConcludeKeeps(d: Deployment, w: World, q: nat)
    requires Inv(d, w) && q in w.queries && w.queries[q].pc.Searched?
    ensures Inv(d, Concluded(d, w, q))
  {
    hide StoreInv, Authored, Justified, Serve, Found, FoundNear;
    var query := w.queries[q];
    assert QueryInv(d, w.log, q, query);
    if IsReplay(query.Result()) {
      ReplayJustified(d, w.log, q, query);
      PutKeeps(d, w, q, query.(pc := Over));
    } else {
      if d.up {
        PutKeeps(d, w, q, query.(pc := Writing));
      }
      PutKeeps(d, w, q, query.(pc := Over));
    }
  }

  lemma RecordKeeps(d: Deployment, w: World, q: nat)
    requires Inv(d, w) && q in w.queries && w.queries[q].pc.Writing?
    requires w.queries[q].job.Valid() && w.queries[q].Result().write.Some?
    ensures Inv(d, Recorded(d, w, q))
  {
    hide Stored, Latest, StoreInv, Serve, NormalizeQuery, Found, FoundNear, Justified;
    var query, next := w.queries[q], Recorded(d, w, q);
    var e := Entry(q, query.Result().write.value);
    assert QueryInv(d, w.log, q, query);
    StoreExactKeeps(d, w.store, w.log, e);
    AuthorsKept(d, w, q, query.(pc := HalfWritten));
    assert Authored(d, next.queries, e);
    forall k | k in next.queries ensures QueryInv(d, next.log, k, next.queries[k]) {
      assert QueryInv(d, w.log, k, w.queries[k]);
      FoundGrows(d, w.log, e, w.queries[k]);
    }
    forall r | r in next.replays ensures Justified(d, next.log, r) {
      SourceGrows(d, w.log, e, r);
    }
  }

  lemma NeighbourKeeps(d: Deployment, w: World, q: nat)
    requires Inv(d, w) && q in w.queries && w.queries[q].pc.HalfWritten?
    ensures Inv(d, Advance(d, w, StoreSemantic(q)))
  {
    hide StoreInv, Authored, Justified, Serve, Found, FoundNear, WithNeighbour;
    var query := w.queries[q];
    assert QueryInv(d, w.log, q, query);
    StoreSemanticKeeps(d, w.store, w.log, Entry(q, query.Result().write.value));
    PutKeeps(d, w, q, query.(pc := Over));
  }

  /** What the two lookups of a query find: the entry of its key, and the entry the index returned if that is
      of the same conditions and near enough; nothing if the cache is down or the lookup fails. */
  lemma LookupsFind(d: Deployment, w: World, q: nat, found: Payload)
    requires q in w.queries
    ensures var query := w.queries[q]; var job := query.job; var key, v := job.QuestionKey(), job.env.vector;
      && (query.pc.Asked? ==>
            (Advance(d, w, LookUp(q)).queries[q].exact == Some(found) <==>
               d.up && job.env.exactAnswers && key in w.store.exact && w.store.exact[key] == found))
      && (query.pc.LookedUp? ==>
            (Advance(d, w, Search(q)).queries[q].semantic == Some(found) <==>
               d.up && d.semanticOn && job.env.semanticAnswers && v.Some? && job.env.found.Some?
               && job.env.found.value < |w.store.semantic|
               && var n := w.store.semantic[job.env.found.value];
                  n.space == key.space && d.distance(n.vector, v.value) <= d.limit && n.payload == found))
  {
    hide NormalizeQuery;
  }

  /** A lookup finds something only in a cache that can be reached and answers. */
  lemma ReadsNeedAnswers(d: Deployment, store: Store, job: Job)
    ensures ExactRead(d, store, job).Some? ==> d.up && job.env.exactAnswers
    ensures SemanticRead(d, store, job).Some? ==> d.up && d.semanticOn && job.env.semanticAnswers
  {
    hide NormalizeQuery;
  }

  lemma LookupsKeep(d: Deployment, w: World, q: nat)
    requires Inv(d, w) && q in w.queries
    ensures Inv(d, Advance(d, w, LookUp(q))) && Inv(d, Advance(d, w, Search(q)))
  {
    hide Serve, StoreInv, Authored, Justified, Found, FoundNear, ExactRead, SemanticRead;
    var query := w.queries[q];
    assert QueryInv(d, w.log, q, query);
    ReadsNeedAnswers(d, w.store, query.job);
    if query.pc.Asked? {
      ExactReadFound(d, w.store, w.log, query);
      PutKeeps(d, w, q, query.(exact := ExactRead(d, w.store, query.job), exactAt := |w.log|, pc := LookedUp));
    } else if query.pc.LookedUp? {
      SemanticReadFound(d, w.store, w.log, query);
      FoundIgnoresSemantic(w.log, query, SemanticRead(d, w.store, query.job), |w.log|);
      PutKeeps(d, w, q, query.(semantic := SemanticRead(d, w.store, query.job), semanticAt := |w.log|, pc := Searched));
    }
  }

  lemma FoundIgnoresSemantic(log: seq<Entry>, query: Query, semantic: Option<Payload>, at: nat)
    requires Found(log, query)
    ensures Found(log, query.(semantic := semantic, semanticAt := at, pc := Searched))
  {
    hide WasLatest, NormalizeQuery;
  }

  /** Every step keeps the cache accounted for by the writes of the history's own queries. */
  lemma StepKeepsInv(d: Deployment, w: World, h: Happening)
    requires Inv(d, w)
    ensures Inv(d, Advance(d, w, h))
  {
    hide Serve, Authored, Justified, StoreInv, Concluded, Recorded, WithNeighbour, ExactRead, SemanticRead, Found, FoundNear;
    match h
    case Ask(q, job) =>
      if q !in w.queries && Admits(d, w, job) {
        PutKeeps(d, w, q, Query(job, |w.log|, None, 0, None, 0, Asked));
      }
    case LookUp(q) =>
      if q in w.queries {
        LookupsKeep(d, w, q);
      }
    case Search(q) =>
      if q in w.queries {
        LookupsKeep(d, w, q);
      }
    case Settle(q) =>
      if q in w.queries && w.queries[q].pc.Searched? {
        ConcludeKeeps(d, w, q);
      }
    case StoreExact(q) =>
      if q in w.queries && w.queries[q].pc.Writing? && w.queries[q].job.Valid() && w.queries[q].Result().write.Some? {
        RecordKeeps(d, w, q);
      }
    case StoreSemantic(q) =>
      if q in w.queries && w.queries[q].pc.HalfWritten? {
        NeighbourKeeps(d, w, q);
      }
    case ExpireExact(key) =>
      ExpiryKeeps(d, w.store, w.log, key);
    case ExpireSemantic(i) =>
      if i < |w.store.semantic| {
        SemanticExpiryKeeps(d, w.store, w.log, i);
      }
    case Activate(version) =>
  }

  lemma {:induction false} RunKeepsInv(d: Deployment, w: World, hs: seq<Happening>)
    requires Inv(d, w)
    ensures Inv(d, Run(d, w, hs))
    decreases |hs|
  {
    hide Inv, Advance;
    if hs != [] {
      StepKeepsInv(d, w, hs[0]);
      RunKeepsInv(d, Advance(d, w, hs[0]), hs[1..]);
    }
  }

  lemma StartInv(d: Deployment, version: string)
    ensures Inv(d, Start(version))
  {
  }

  /******* The theorems *******/

  /** The fresh run behind a replay: a query of this history that has served its result, used no cache
      entry, neither was document-scoped nor skipped the cache, ran in the same namespace and content
      version, and finished with just this answer. */
  ghost predicate Behind(d: Deployment, author: Query, r: Replayed) {
    && author.Settled() && author.job.Valid() && author.job.p == d.p && !author.job.SkipsCache()
    && author.job.Space() == r.job.Space() && author.job.Version() == r.job.Version()
    && var s := author.Result();
    && s.raised.None? && |s.events| > 0 && s.events[|s.events| - 1].Final?
    && s.events[|s.events| - 1].response.status == Miss
    && PayloadOf(s.events[|s.events| - 1].response) == PayloadOf(r.response)
    && (r.response.status == Exact ==> author.job.QuestionKey() == r.job.QuestionKey())
    && (r.response.status == Semantic ==> r.response.kind == Answered && r.response.citations != [])
  }

  /** A replay, its write, and the query that made the write. */
  ghost predicate Traced(d: Deployment, w: World, r: Replayed, e: Entry) {
    Source(d, w.log, r, e) && e.author in w.queries && Behind(d, w.queries[e.author], r)
  }

  lemma AuthorIsBehind(d: Deployment, w: World, r: Replayed, e: Entry)
    requires Authored(d, w.queries, e) && Source(d, w.log, r, e)
    ensures Traced(d, w, r, e)
  {
    hide Serve, Latest, NormalizeQuery, WasLatest;
    var a := w.queries[e.author];
    WritesAreFinals(a.job, a.exact, a.semantic);
  }

  lemma ReplayTraced(d: Deployment, w: World, r: Replayed)
    requires Inv(d, w) && r in w.replays
    ensures exists e :: Traced(d, w, r, e)
  {
    hide Serve, StoreInv, Source, Authored;
    var e :| Source(d, w.log, r, e);
    SourceInLog(d, w.log, r, e);
    AuthorIsBehind(d, w, r, e);
  }

  lemma SourceInLog(d: Deployment, log: seq<Entry>, r: Replayed, e: Entry)
    requires Source(d, log, r, e)
    ensures e in log
  {
  }

  /** The author's question as against the reader's: both guards let it pass, it asked under the same
      conditions, and for an exact hit with the same words, for a semantic one with a vector near enough. */
  ghost predicate Matches(d: Deployment, author: Job, r: Replayed) {
    && author.env.guard.Allowed? && author.env.vectorGuard.Allowed?
    && author.rq.documents == [] && !author.rq.effective.skipCache
    && AskAlike(author, r.job)
    && (r.response.status == Exact ==> Words(d.p.fold(author.rq.query)) == Words(d.p.fold(r.job.rq.query)))
    && (r.response.status == Semantic ==>
          author.env.vector.Some? && r.job.env.vector.Some? && d.distance(author.env.vector.value, r.job.env.vector.value) <= d.limit)
  }

  ghost predicate AuthorMatched(d: Deployment, w: World, r: Replayed, e: Entry) {
    e.author in w.queries && Matches(d, w.queries[e.author].job, r)
  }

  lemma AuthorMatches(d: Deployment, w: World, r: Replayed, e: Entry)
    requires Authored(d, w.queries, e) && Justified(d, w.log, r) && Source(d, w.log, r, e)
    ensures Matches(d, w.queries[e.author].job, r)
  {
    hide Serve, Latest, NormalizeQuery, WasLatest, Words, AskAlike;
    var a := w.queries[e.author];
    WritesAreFinals(a.job, a.exact, a.semantic);
    WritersPassed(a.job, a.exact, a.semantic);
    assert e.write.key == a.job.QuestionKey();
    KeysExactly(a.job, r.job);
  }

  /** Over every history from an empty cache, each replay is traced to a query of that history. An exact
      hit returns what was, when it looked, the latest write for that normalised question in that
      namespace; a semantic hit an answered and cited write of the namespace, near enough and made before
      it looked. Either way the write's author is a fresh run with the same content version that had
      served just that answer; it had passed both guards and agreed with the reader in language, model,
      answer length, strategy and content, and for an exact hit in the words of the question. */
  lemma ReplaysAreFaithful(d: Deployment, version: string, hs: seq<Happening>)
    ensures var w := Run(d, Start(version), hs);
      forall r | r in w.replays ::
        Justified(d, w.log, r) && exists e :: Traced(d, w, r, e) && AuthorMatched(d, w, r, e)
  {
    hide Run, Advance, Justified, Traced, Authored, StoreInv, QueryInv, AuthorMatched;
    var w := Run(d, Start(version), hs);
    StartInv(d, version);
    RunKeepsInv(d, Start(version), hs);
    forall r | r in w.replays
      ensures Justified(d, w.log, r) && exists e :: Traced(d, w, r, e) && AuthorMatched(d, w, r, e)
    {
      ReplayMatched(d, w, r);
    }
  }

  lemma ReplayMatched(d: Deployment, w: World, r: Replayed)
    requires Inv(d, w) && r in w.replays
    ensures exists e :: Traced(d, w, r, e) && AuthorMatched(d, w, r, e)
  {
    hide Serve, StoreInv, Source, Authored, Matches, Behind;
    var e :| Source(d, w.log, r, e);
    SourceInLog(d, w.log, r, e);
    AuthorIsBehind(d, w, r, e);
    AuthorMatches(d, w, r, e);
  }

  /** While the cache cannot be reached nothing is written and nothing replayed. */
  lemma DownIsSilent(d: Deployment, version: string, hs: seq<Happening>)
    requires !d.up
    ensures var w := Run(d, Start(version), hs); w.log == [] && w.replays == []
  {
    hide Run, Advance, StoreInv, QueryInv, Source, Serve;
    var w := Run(d, Start(version), hs);
    StartInv(d, version);
    RunKeepsInv(d, Start(version), hs);
    if w.log != [] {
      assert Authored(d, w.queries, w.log[0]) by { assert w.log[0] in w.log; }
    }
    if w.replays != [] {
      assert Justified(d, w.log, w.replays[0]) by { assert w.replays[0] in w.replays; }
    }
  }

  /** The author of every write of a history had passed both guards and offered just its final answer. */
  lemma AuthorsPassed(d: Deployment, version: string, hs: seq<Happening>)
    ensures var w := Run(d, Start(version), hs);
      forall e | e in w.log ::
        e.author in w.queries
        && var job := w.queries[e.author].job;
           job.env.guard.Allowed? && job.env.vectorGuard.Allowed? && job.rq.documents == [] && !job.rq.effective.skipCache
  {
    hide Run, Advance, StoreInv, QueryInv, Justified, Serve;
    var w := Run(d, Start(version), hs);
    StartInv(d, version);
    RunKeepsInv(d, Start(version), hs);
    forall e | e in w.log
      ensures e.author in w.queries
        && var job := w.queries[e.author].job;
           job.env.guard.Allowed? && job.env.vectorGuard.Allowed? && job.rq.documents == [] && !job.rq.effective.skipCache
    {
      assert Authored(d, w.queries, e);
      var a := w.queries[e.author];
      WritersPassed(a.job, a.exact, a.semantic);
    }
  }

  /** What a reader of a replayed answer can rely on: its author's own answer was safe, and so passed the
      author's gate. The reader's gate it passes exactly when a top score of the author clears that. */
  ghost predicate SafeFor(author: Job, reader: Job)
    requires author.Valid()
  {
    && (exists ranked, contexts :: Safe(author, Answer(author), ranked, contexts))
    && Gated(author) && author.env.ranked.Some?
    && var t := reader.rq.effective.crag.threshold;
    && (Gated(AtThreshold(author, t)) <==>
          Reached(Crag.TopScore(author.env.ranked.value), t) || Reached(RetryTop(author), t))
    && (t <= author.rq.effective.crag.threshold ==> Gated(AtThreshold(author, t)))
  }

  lemma AuthorIsSafe(d: Deployment, author: Query, r: Replayed)
    requires Behind(d, author, r) && r.response.kind == Answered
    ensures SafeFor(author.job, r.job)
  {
    hide Serve, Answer, Safe, Gated, NormalizeQuery, AtThreshold, RetryTop;
    MissIsFresh(author.job, author.exact, author.semantic);
    FreshAnswersAreSafe(author.job);
    var ranked, contexts :| Safe(author.job, Answer(author.job), ranked, contexts);
    SafeIsGated(author.job, ranked, contexts);
    var own, t := author.job.rq.effective.crag.threshold, r.job.rq.effective.crag.threshold;
    GateByTop(author.job, t);
    GateByTop(author.job, own);
    ThresholdNotInKey(author.job, own);
  }

  lemma SafeIsGated(job: Job, ranked: seq<Crag.Ranked>, contexts: seq<Crag.Chunk>)
    requires job.Valid() && !job.SkipsCache() && Safe(job, Answer(job), ranked, contexts)
    ensures Gated(job) && job.env.ranked.Some?
  {
    hide Answer, Cited, Packed, Gated;
  }

  /** A replayed answer goes back to a query of the history that made it safely. */
  ghost predicate SafelyTraced(d: Deployment, w: World, r: Replayed, e: Entry) {
    Traced(d, w, r, e) && w.queries[e.author].job.Valid() && SafeFor(w.queries[e.author].job, r.job)
  }

  lemma AnswerTraced(d: Deployment, w: World, r: Replayed)
    requires Inv(d, w) && r in w.replays && r.response.kind == Answered
    ensures exists e :: SafelyTraced(d, w, r, e)
  {
    hide Inv, Source, SafeFor, Behind;
    ReplayTraced(d, w, r);
    var e :| Traced(d, w, r, e);
    BehindValid(d, w.queries[e.author], r);
    AuthorIsSafe(d, w.queries[e.author], r);
    assert SafelyTraced(d, w, r, e);
  }

  /** Over every history: a replayed answer is one whose author passed its own gate and was safe in every
      other respect; whether it passes the reader's gate depends on the author's top scores alone. */
  lemma ReplayedAnswersAreSafe(d: Deployment, version: string, hs: seq<Happening>)
    ensures var w := Run(d, Start(version), hs);
      forall r | r in w.replays && r.response.kind == Answered :: exists e :: SafelyTraced(d, w, r, e)
  {
    hide Run, Inv, SafelyTraced;
    var w := Run(d, Start(version), hs);
    StartInv(d, version);
    RunKeepsInv(d, Start(version), hs);
    forall r | r in w.replays && r.response.kind == Answered ensures exists e :: SafelyTraced(d, w, r, e) {
      AnswerTraced(d, w, r);
    }
  }

  lemma BehindValid(d: Deployment, author: Query, r: Replayed)
    requires Behind(d, author, r)
    ensures author.job.Valid()
  {
    hide Serve, NormalizeQuery;
  }

  /******* A reader with a higher gate *******/

  /** What the run of one query looks like: `a` asks, finds nothing, and its exact entry is stored. */
  function First(a: Job): seq<Happening> { [Ask(0, a), LookUp(0), Search(0), Settle(0), StoreExact(0)] }

  /** And of a second one that is answered from it. */
  function Second(b: Job): seq<Happening> { [Ask(1, b), LookUp(1), Search(1), Settle(1)] }

  lemma RunOne(d: Deployment, w: World, h: Happening, rest: seq<Happening>)
    ensures Run(d, w, [h] + rest) == Run(d, Advance(d, w, h), rest)
  {
    hide Advance;
    assert ([h] + rest)[1..] == rest;
  }

  lemma {:induction false} RunAppend(d: Deployment, w: World, a: seq<Happening>, b: seq<Happening>)
    ensures Run(d, w, a + b) == Run(d, Run(d, w, a), b)
    decreases |a|
  {
    hide Advance;
    if a == [] {
      assert a + b == b;
    } else {
      RunAppend(d, Advance(d, w, a[0]), a[1..], b);
      assert (a + b)[1..] == a[1..] + b;
    }
  }

  lemma RunFive(d: Deployment, w: World, a: Happening, b: Happening, c: Happening, e: Happening, f: Happening)
    ensures Run(d, w, [a, b, c, e]) == Advance(d, Advance(d, Advance(d, Advance(d, w, a), b), c), e)
    ensures Run(d, w, [a, b, c, e, f]) == Advance(d, Advance(d, Advance(d, Advance(d, Advance(d, w, a), b), c), e), f)
  {
    hide Advance, Run;
    assert [a, b, c, e, f] == [a] + ([b] + ([c] + ([e] + ([f] + []))));
    assert [a, b, c, e] == [a] + ([b] + ([c] + ([e] + [])));
    RunOne(d, w, a, [b] + ([c] + ([e] + ([f] + []))));
    RunOne(d, w, a, [b] + ([c] + ([e] + [])));
    var w1 := Advance(d, w, a);
    RunOne(d, w1, b, [c] + ([e] + ([f] + [])));
    RunOne(d, w1, b, [c] + ([e] + []));
    var w2 := Advance(d, w1, b);
    RunOne(d, w2, c, [e] + ([f] + []));
    RunOne(d, w2, c, [e] + []);
    var w3 := Advance(d, w2, c);
    RunOne(d, w3, e, [f] + []);
    RunOne(d, w3, e, []);
    var w4 := Advance(d, w3, e);
    RunOne(d, w4, f, []);
    RunStops(d, w4);
    RunStops(d, Advance(d, w4, f));
  }

  lemma RunStops(d: Deployment, w: World)
    ensures Run(d, w, []) == w
  {
  }

  /** The write of a fresh result arrives whole, if nothing comes in between. */
  lemma WriteArrives(d: Deployment, w: World, q: nat)
    requires d.up && q in w.queries && w.queries[q].pc.Searched? && w.queries[q].job.Valid()
    requires w.queries[q].Result().write.Some?
    ensures var write := w.queries[q].Result().write.value; var u := Run(d, w, [Settle(q), StoreExact(q), StoreSemantic(q)]);
      u.store == Stored(w.store, d.semanticOn, write, AllStored) && u.log == w.log + [Entry(q, write)] && u.replays == w.replays
  {
    hide Serve, Stored, Run, WithNeighbour;
    var query := w.queries[q];
    WritesAreFinals(query.job, query.exact, query.semantic);
    StoredInHalves(w.store, d.semanticOn, query.Result().write.value);
    var w1 := Advance(d, w, Settle(q));
    assert w1.queries[q] == query.(pc := Writing) && w1.store == w.store;
    var w2 := Advance(d, w1, StoreExact(q));
    assert w2.queries[q] == query.(pc := HalfWritten);
    var w3 := Advance(d, w2, StoreSemantic(q));
    assert [Settle(q), StoreExact(q), StoreSemantic(q)] == [Settle(q)] + ([StoreExact(q)] + ([StoreSemantic(q)] + []));
    RunOne(d, w, Settle(q), [StoreExact(q)] + ([StoreSemantic(q)] + []));
    RunOne(d, w1, StoreExact(q), [StoreSemantic(q)] + []);
    RunOne(d, w2, StoreSemantic(q), []);
    RunStops(d, w3);
  }

  lemma FirstRun(d: Deployment, version: string, a: Job)
    requires d.up && Admits(d, Start(version), a) && !a.SkipsCache() && FreshAnswer(Serve(a, None, None))
    ensures var s, w := Serve(a, None, None), Run(d, Start(version), First(a));
      && s.write.Some? && s.write.value.key == a.QuestionKey()
      && s.write.value.payload == PayloadOf(s.events[|s.events| - 1].response)
      && w.store.exact == map[a.QuestionKey() := s.write.value.payload] && w.version == version
      && w.log == [Entry(0, s.write.value)] && w.queries == map[0 := Query(a, 0, None, 0, None, 0, HalfWritten)] && w.replays == []
  {
    hide Serve, NormalizeQuery, Run;
    WritesAreFinals(a, None, None);
    RunFive(d, Start(version), Ask(0, a), LookUp(0), Search(0), Settle(0), StoreExact(0));
    var w0 := Start(version);
    var w1 := Advance(d, w0, Ask(0, a));
    assert w1.queries == map[0 := Query(a, 0, None, 0, None, 0, Asked)];
    var w2 := Advance(d, w1, LookUp(0));
    assert w2.queries == map[0 := Query(a, 0, None, 0, None, 0, LookedUp)];
    var w3 := Advance(d, w2, Search(0));
    assert w3.queries == map[0 := Query(a, 0, None, 0, None, 0, Searched)];
    var w4 := Advance(d, w3, Settle(0));
    assert w4.queries == map[0 := Query(a, 0, None, 0, None, 0, Writing)];
    var w5 := Advance(d, w4, StoreExact(0));
    assert w5.queries == map[0 := Query(a, 0, None, 0, None, 0, HalfWritten)];
    assert w5.store.exact == map[a.QuestionKey() := Serve(a, None, None).write.value.payload];
  }

  lemma SecondRun(d: Deployment, w: World, b: Job, payload: Payload)
    requires d.up && Admits(d, w, b) && 1 !in w.queries && !b.SkipsCache()
    requires b.env.guard.Allowed? && b.Index().Some? && b.env.exactAnswers
    requires b.QuestionKey() in w.store.exact && w.store.exact[b.QuestionKey()] == payload
    ensures var u := Run(d, w, Second(b));
      && u.log == w.log && (forall q | q in w.queries :: q in u.queries && u.queries[q] == w.queries[q])
      && u.replays == w.replays +
           [Replayed(b, |w.log|, |w.log|, Response(payload.kind, payload.answer, payload.citations, Exact, b.Version()))]
  {
    hide Serve, NormalizeQuery, Run;
    RunFive(d, w, Ask(1, b), LookUp(1), Search(1), Settle(1), Settle(1));
    var w1 := Advance(d, w, Ask(1, b));
    var w2 := Advance(d, w1, LookUp(1));
    assert w2.queries[1] == Query(b, |w.log|, Some(payload), |w.log|, None, 0, LookedUp);
    var w3 := Advance(d, w2, Search(1));
    ExactServed(b, payload, w3.queries[1].semantic);
  }

  lemma ExactServed(b: Job, payload: Payload, semantic: Option<Payload>)
    requires b.Valid() && !b.SkipsCache() && b.env.guard.Allowed? && b.Index().Some?
    ensures Serve(b, Some(payload), semantic) ==
      Served([Meta, Text(payload.answer), Final(Response(payload.kind, payload.answer, payload.citations, Exact, b.Version()))], None, None)
    ensures IsReplay(Serve(b, Some(payload), semantic))
  {
    hide Answer, NormalizeQuery;
  }

  /** So a hit need not be what its reader's own settings would have answered: a query lowers its gate, is
      answered and cached; the next one asks the same without the override and is handed that answer,
      though nothing its author ranked clears the gate of the reader. */
  lemma ReplayBelowTheGate()
    ensures exists d, hs, r, e ::
      var w := Run(d, Start("v"), hs);
      && r in w.replays && r.response.kind == Answered && Traced(d, w, r, e)
      && !Gated(AtThreshold(w.queries[e.author].job, r.job.rq.effective.crag.threshold))
  {
    hide Serve, Traced, Advance, Run, First, Second, Gated, PlainJob, Inv;
    var p := Settings(false, "v", "sentence", 0, (c: Crag.Chunk) => 0, (x: string) => x);
    var d := Deployment(p, true, false, 0.0, (x: Vector, y: Vector) => 0.0);
    var top := Crag.Ranked(Crag.Chunk("a", []), 0.2);
    var a, b := PlainJob(p, 0.1, [top], ["x"]), PlainJob(p, 0.9, [top], ["x"]);
    LetterId();
    PlainAnswer(p, 0.1, top);
    PlainReader(p, top);
    FirstRun(d, "v", a);
    var w := Run(d, Start("v"), First(a));
    var payload := Serve(a, None, None).write.value.payload;
    SecondRun(d, w, b, payload);
    RunAppend(d, Start("v"), First(a), Second(b));
    var hs := First(a) + Second(b);
    var u := Run(d, Start("v"), hs);
    var r := u.replays[0];
    assert r in u.replays;
    StartInv(d, "v");
    RunKeepsInv(d, Start("v"), hs);
    ReplayTraced(d, u, r);
    var e :| Traced(d, u, r, e);
    TracedIn(d, u, r, e);
    assert u.queries[e.author] == w.queries[0];
  }

  lemma LetterId()
    ensures MarkerText.ValidId("a")
  {
  }

  lemma TracedIn(d: Deployment, w: World, r: Replayed, e: Entry)
    requires Traced(d, w, r, e)
    ensures e in w.log && e.author in w.queries
  {
    hide Behind, WasLatest, Near, NormalizeQuery;
  }

  lemma PlainReader(p: Settings, top: Crag.Ranked)
    requires !p.hasProvider && p.contentVersion == "v" && top == Crag.Ranked(Crag.Chunk("a", []), 0.2) && MarkerText.ValidId("a")
    ensures var a, b := PlainJob(p, 0.1, [top], ["x"]), PlainJob(p, 0.9, [top], ["x"]);
      && a.p == p && b.p == p && a.Valid() && b.Valid() && a.Version() == b.Version() == "v"
      && a.QuestionKey() == b.QuestionKey() && !a.SkipsCache() && !b.SkipsCache()
      && b.env.guard.Allowed? && b.Index().Some? && b.env.exactAnswers
      && b.rq.effective.crag.threshold == 0.9 && !Gated(AtThreshold(a, 0.9))
  {
    hide NormalizeQuery;
    var a := PlainJob(p, 0.1, [top], ["x"]);
    GateByTop(a, 0.9);
  }
}
