/**
 The answer cache, src/fastrag/adapters/cache.py: exact entries by normalised question and semantic
 entries by embedding, both under a namespace. Expiry is removal at any moment, and the vector index
 may return any entry of the namespace.
 */
module AnswerCache {
  import opened Common
  import opened MarkerText

  /** What src/fastrag/fingerprint.py hashes into a namespace; the hash is taken as injective. */
  datatype Namespace = Namespace(content: string, model: string, maxTokens: int, strategy: string, scope: seq<string>, locale: string)

  datatype AnswerKind = Answered | NoAnswer | Refused

  datatype Payload = Payload(answer: string, citations: seq<string>, kind: AnswerKind)

  type Vector = seq<real>

  datatype Key = Key(space: Namespace, question: string)
  datatype Neighbour = Neighbour(space: Namespace, vector: Vector, payload: Payload)
  datatype Store = Store(exact: map<Key, Payload>, semantic: seq<Neighbour>)

  const EMPTY := Store(map[], [])

  /******* The normalised question *******/

  function WordLength(s: string): (n: nat)
    ensures n <= |s| && (s != "" && !IsSpace(s[0]) ==> n > 0)
    ensures forall c | c in s[..n] :: !IsSpace(c)
    ensures n < |s| ==> IsSpace(s[n])
  {
    if s == "" || IsSpace(s[0]) then 0 else 1 + WordLength(s[1..])
  }

  predicate IsWord(w: string) { w != "" && forall c | c in w :: !IsSpace(c) }

  /** str.split() without arguments. */
  function Words(s: string): (ws: seq<string>)
    ensures forall w | w in ws :: IsWord(w)
    decreases |s|
  {
    if s == "" then []
    else if IsSpace(s[0]) then Words(s[1..])
    else [s[..WordLength(s)]] + Words(s[WordLength(s)..])
  }

  function Unwords(ws: seq<string>): string {
    if ws == [] then "" else if |ws| == 1 then ws[0] else ws[0] + [' '] + Unwords(ws[1..])
  }

  /** Joining puts one space between neighbours and nothing else. */
  lemma {:induction false} UnwordsAppend(a: seq<string>, b: seq<string>)
    ensures |a| == 1 ==> Unwords(a) == a[0]
    ensures a != [] && b != [] ==> Unwords(a + b) == Unwords(a) + " " + Unwords(b)
    decreases |a|
  {
    if |a| == 1 {
      assert (a + b)[1..] == b;
    } else if |a| > 1 {
      assert (a + b)[1..] == a[1..] + b;
      UnwordsAppend(a[1..], b);
    }
  }

  /** The question a cache key holds; `fold` is case folding. */
  function NormalizeQuery(fold: string -> string, query: string): string {
    Unwords(Words(fold(query)))
  }

  lemma {:induction false} WordLengthOf(w: string, rest: string)
    requires IsWord(w) && (rest == "" || IsSpace(rest[0]))
    ensures WordLength(w + rest) == |w|
    decreases |w|
  {
    hide IsSpace;
    assert w[0] in w;
    assert (w + rest)[1..] == w[1..] + rest;
    if |w| > 1 {
      WordLengthOf(w[1..], rest);
    } else {
      assert w[1..] + rest == rest;
    }
  }

  /** Words and Unwords are inverse, so two questions share a key exactly when they have the same
      words after folding: spacing does not matter and nothing else is lost. */
  lemma {:induction false} WordsUnwords(ws: seq<string>)
    requires forall w | w in ws :: IsWord(w)
    ensures Words(Unwords(ws)) == ws
    decreases |ws|
  {
    hide WordLength, IsSpace;
    if ws != [] {
      var w, rest := ws[0], if |ws| == 1 then "" else [' '] + Unwords(ws[1..]);
      SpaceSeparates();
      var s := w + rest;
      WordLengthOf(w, rest);
      assert Unwords(ws) == s;
      assert s[0] == w[0] && w[0] in w;
      assert s[..|w|] == w && s[|w|..] == rest;
      if |ws| == 1 {
        assert ws == [w];
      } else {
        WordsUnwords(ws[1..]);
        assert rest[1..] == Unwords(ws[1..]);
        assert ws == [w] + ws[1..];
      }
    }
  }

  /** Whitespace of any kind and length, at either end or between words, does not matter. */
  lemma {:induction false} WordsSpaced(gap: string, rest: string)
    requires AllSpace(gap)
    ensures Words(gap + rest) == Words(rest)
    decreases |gap|
  {
    hide IsSpace, WordLength;
    if gap == "" {
      assert gap + rest == rest;
    } else {
      assert gap[0] in gap && (gap + rest)[0] == gap[0] && (gap + rest)[1..] == gap[1..] + rest;
      WordsSpaced(gap[1..], rest);
    }
  }

  /** A word is read whole when whitespace or nothing follows. */
  lemma WordsNext(w: string, rest: string)
    requires IsWord(w) && (rest == "" || IsSpace(rest[0]))
    ensures Words(w + rest) == [w] + Words(rest)
  {
    hide IsSpace, WordLength;
    WordLengthOf(w, rest);
    assert (w + rest)[0] == w[0] && w[0] in w;
    assert (w + rest)[..|w|] == w && (w + rest)[|w|..] == rest;
  }

  lemma SpaceSeparates()
    ensures IsSpace(' ')
  {
  }

  lemma SameKeyExactly(fold: string -> string, a: string, b: string)
    ensures NormalizeQuery(fold, a) == NormalizeQuery(fold, b) <==> Words(fold(a)) == Words(fold(b))
  {
    hide Words, Unwords;
    WordsUnwords(Words(fold(a)));
    WordsUnwords(Words(fold(b)));
  }

  /******* Reads and writes *******/

  function ExactHit(store: Store, key: Key): Option<Payload> {
    if key in store.exact then Some(store.exact[key]) else None
  }

  /** The entry the vector index returned, if it is one of the namespace and near enough. */
  function SemanticHit(store: Store, limit: real, distance: (Vector, Vector) -> real, space: Namespace, vector: Vector,
                       found: Option<nat>): Option<Payload>
  {
    if found.Some? && found.value < |store.semantic| && store.semantic[found.value].space == space &&
       distance(store.semantic[found.value].vector, vector) <= limit
    then Some(store.semantic[found.value].payload) else None
  }

  predicate InSpace(store: Store, space: Namespace, i: nat) { i < |store.semantic| && store.semantic[i].space == space }

  /** What the query asks the index for: an entry of the namespace nearest to the vector, if it has any. */
  ghost predicate Nearest(store: Store, distance: (Vector, Vector) -> real, space: Namespace, vector: Vector, found: Option<nat>) {
    match found
    case None => forall i: nat :: !InSpace(store, space, i)
    case Some(n) =>
      InSpace(store, space, n) && forall i: nat | InSpace(store, space, i) ::
        distance(store.semantic[n].vector, vector) <= distance(store.semantic[i].vector, vector)
  }

  /** With an index that returns what it is asked for, there is a hit exactly when some entry of the
      namespace is within the distance, and the hit is then a nearest one. */
  lemma NearestHitExactly(store: Store, limit: real, distance: (Vector, Vector) -> real, space: Namespace, vector: Vector,
                          found: Option<nat>)
    requires Nearest(store, distance, space, vector, found)
    ensures var hit := SemanticHit(store, limit, distance, space, vector, found);
      && (hit.Some? <==> exists i: nat :: InSpace(store, space, i) && distance(store.semantic[i].vector, vector) <= limit)
      && (hit.Some? ==> found.Some? && hit.value == store.semantic[found.value].payload)
  {
    if i: nat :| InSpace(store, space, i) && distance(store.semantic[i].vector, vector) <= limit {
      assert found.Some?;
    }
  }

  /** How far a write got before the server stopped answering: an acknowledgement can be lost after
      the command took effect, so this counts effects. */
  datatype Progress = NothingStored | ExactStored | AllStored

  /** A write of one answer; only answered questions are offered to the semantic tier. */
  datatype Write = Write(key: Key, vector: Option<Vector>, payload: Payload)

  function Stored(store: Store, semanticOn: bool, w: Write, progress: Progress): Store {
    if progress.NothingStored? then store
    else
      var exact := store.exact[w.key := w.payload];
      if progress.AllStored? && w.payload.kind.Answered? && w.vector.Some? && semanticOn then
        Store(exact, store.semantic + [Neighbour(w.key.space, w.vector.value, w.payload)])
      else Store(exact, store.semantic)
  }

  /** What a write that got this far changes: the entry of its key and, whole and for an answered question
      with a vector, one more entry of its namespace. */
  lemma StoredExactly(store: Store, semanticOn: bool, w: Write, progress: Progress, key: Key)
    ensures var next := Stored(store, semanticOn, w, progress);
      && ExactHit(next, key) == (if progress != NothingStored && key == w.key then Some(w.payload) else ExactHit(store, key))
      && next.semantic == store.semantic +
           if progress == AllStored && semanticOn && w.payload.kind == Answered && w.vector.Some?
           then [Neighbour(w.key.space, w.vector.value, w.payload)] else []
  {
    assert store.semantic + [] == store.semantic;
  }

  datatype Reply = Fine | ModuleMissing | IndexMissing | Rejected

  class RedisAnswerCache {
    const threshold: Option<real>
    const distance: (Vector, Vector) -> real
    const fold: string -> string
    var semanticEnabled: bool
    var available: bool
    var store: Store

    constructor (threshold: Option<real>, semanticEnabled: bool, distance: (Vector, Vector) -> real, fold: string -> string)
      ensures this.threshold == threshold && this.semanticEnabled == semanticEnabled && available && store == EMPTY
      ensures this.distance == distance && this.fold == fold
    {
      this.threshold := threshold;
      this.semanticEnabled := semanticEnabled;
      this.distance := distance;
      this.fold := fold;
      available := true;
      store := EMPTY;
    }

    /** Whether put writes, and get_semantic reads, the semantic tier. */
    predicate SemanticOn()
      reads this
    {
      semanticEnabled && threshold.Some?
    }

    /** Degrades instead of failing: an unreachable server switches the cache off, a missing search
        module the semantic tier only. Any other rejection is raised. */
    method Initialize(reachable: bool, info: Reply, create: Reply) returns (raised: bool)
      modifies this`available, this`semanticEnabled
      ensures available == (old(available) && reachable)
      ensures semanticEnabled ==> old(semanticEnabled) && reachable
      ensures raised == (reachable && old(semanticEnabled) &&
                         (info.Rejected? || (info.IndexMissing? && (create.Rejected? || create.IndexMissing?))))
      ensures raised ==> semanticEnabled
      ensures reachable && old(semanticEnabled) && !raised ==> (semanticEnabled <==> info.Fine? || (info.IndexMissing? && create.Fine?))
    {
      if !reachable {
        available, semanticEnabled := false, false;
        return false;
      }
      if !semanticEnabled {
        return false;
      }
      if info.Fine? {
        return false;
      }
      if info.ModuleMissing? {
        semanticEnabled := false;
        return false;
      }
      if !info.IndexMissing? {
        return true;
      }
      if !create.Fine? {
        if !create.ModuleMissing? {
          return true;
        }
        semanticEnabled := false;
      }
      return false;
    }

    /** A failing read counts as a miss, which is how the pipeline treats it. */
    method GetExact(space: Namespace, query: string, answers: bool) returns (hit: Option<Payload>)
      ensures hit == if available && answers then ExactHit(store, Key(space, NormalizeQuery(fold, query))) else None
    {
      if !available || !answers {
        return None;
      }
      var key := Key(space, NormalizeQuery(fold, query));
      if key in store.exact {
        return Some(store.exact[key]);
      }
      return None;
    }

    method GetSemantic(space: Namespace, vector: Vector, found: Option<nat>, answers: bool) returns (hit: Option<Payload>)
      ensures hit == if available && SemanticOn() && answers
                     then SemanticHit(store, threshold.value, distance, space, vector, found) else None
      ensures available && SemanticOn() && answers && Nearest(store, distance, space, vector, found) ==>
                (hit.Some? <==> exists i: nat :: InSpace(store, space, i) && distance(store.semantic[i].vector, vector) <= threshold.value)
    {
      if threshold.Some? && Nearest(store, distance, space, vector, found) {
        NearestHitExactly(store, threshold.value, distance, space, vector, found);
      }
      if threshold.None? || !semanticEnabled || !available || !answers {
        return None;
      }
      if found.None? || found.value >= |store.semantic| {
        return None;
      }
      var entry := store.semantic[found.value];
      if entry.space != space || distance(entry.vector, vector) > threshold.value {
        return None;
      }
      return Some(entry.payload);
    }

    method Put(space: Namespace, query: string, vector: Option<Vector>, answer: string, citations: seq<string>, semantic: bool,
               progress: Progress)
      modifies this`store
      ensures var w := Write(Key(space, NormalizeQuery(fold, query)), vector,
                             Payload(answer, citations, if semantic then Answered else NoAnswer));
        store == if available then Stored(old(store), SemanticOn(), w, progress) else old(store)
    {
      if !available {
        return;
      }
      var payload := Payload(answer, citations, if semantic then Answered else NoAnswer);
      if progress.NothingStored? {
        return;
      }
      store := store.(exact := store.exact[Key(space, NormalizeQuery(fold, query)) := payload]);
      var writesSemantic := semanticEnabled && threshold.Some?;
      if semantic && vector.Some? && writesSemantic && progress.AllStored? {
        store := store.(semantic := store.semantic + [Neighbour(space, vector.value, payload)]);
      }
    }
  }
}
