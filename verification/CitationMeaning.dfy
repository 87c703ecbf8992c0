/**
 What the reader of an answer is shown, in terms of the text the model wrote: which context each
 bracketed token names, which number it becomes, and how that number indexes the citation list.
 */
module CitationMeaning {
  import opened Common
  import opened MarkerText
  import opened SentenceSplitter
  import opened Citations
  import opened CitationRuns
  import opened CitationAnswers

  /******* Which context a token names *******/

  /** A number in range names a context by position; a marker names its id, or, with a single context,
      that context. */
  function Names(order: seq<string>, t: Token): Option<string>
    requires WellFormed(t)
  {
    match t
    case Ch(_) => None
    case Num(d) => if 1 <= Value(d) <= |order| then Some(order[Value(d) - 1]) else None
    case Mark(id) => Some(if |order| == 1 then order[0] else id)
  }

  /** Normalising rewrites every token that names a context to a marker of it and leaves the others. */
  lemma NormalizedToken(order: seq<string>, s: string, i: nat)
    requires ValidOrder(order) && i < |Lex(s)|
    ensures var us, named := Lex(NormalizeText(order, s)), Names(order, Lex(s)[i]);
      |us| == |Lex(s)| && us[i] == if named.Some? then Mark(named.value) else Lex(s)[i]
  {
    hide Lex, NormalizeText, IsIdChar;
    NormalizeIsTokenwise(order, s);
    assert NormalTokens(order, s)[i] == MapUnknown(order, MapNumbered(order, Lex(s)[i]));
  }

  predicate IsNumber(t: Token, k: nat) { t.Num? && WellFormed(t) && Value(t.digits) == k }

  /** A bracketed number k in range means the k-th context. */
  lemma NumberNamesContext(order: seq<string>, s: string, i: nat, k: nat)
    requires ValidOrder(order) && i < |Lex(s)| && 1 <= k <= |order|
    requires IsNumber(Lex(s)[i], k)
    ensures i < |Lex(NormalizeText(order, s))| && Lex(NormalizeText(order, s))[i] == Mark(order[k - 1])
  {
    hide Lex, NormalizeText;
    NormalizedToken(order, s, i);
  }

  /** The contexts a sequence of tokens names, in order. */
  function NamedIn(order: seq<string>, ts: seq<Token>): (ids: seq<string>)
    requires AllWellFormed(ts)
  {
    if ts == [] then []
    else (if Names(order, ts[0]).Some? then [Names(order, ts[0]).value] else []) + NamedIn(order, ts[1..])
  }

  lemma {:induction false} MarksAreNamed(order: seq<string>, ts: seq<Token>, us: seq<Token>)
    requires AllWellFormed(ts) && |us| == |ts|
    requires forall i | 0 <= i < |ts| ::
      us[i] == var named := Names(order, ts[i]); if named.Some? then Mark(named.value) else ts[i]
    ensures Marks(us) == NamedIn(order, ts)
    decreases |ts|
  {
    if ts != [] {
      MarksAreNamed(order, ts[1..], us[1..]);
    }
  }

  /** The markers found in a text are the contexts its tokens name, in order. */
  lemma CitedAreNamed(order: seq<string>, s: string)
    requires ValidOrder(order)
    ensures CitedIds(order, s) == NamedIn(order, Lex(s))
    ensures CitedIds(order, s) != [] <==> HasMarker(|order|, s)
  {
    hide Lex, NormalizeText, Names, HasMarker;
    NormalizeIsTokenwise(order, s);
    forall i | 0 <= i < |Lex(s)|
      ensures NormalTokens(order, s)[i] == var named := Names(order, Lex(s)[i]); if named.Some? then Mark(named.value) else Lex(s)[i]
    {
      NormalizedToken(order, s, i);
    }
    MarksAreNamed(order, Lex(s), NormalTokens(order, s));
    SearchFindsMarkers(order, s);
  }

  /******* What a sentence shows *******/

  /** `list` is the citation list of a numbering: position i holds the id numbered i + 1. */
  ghost predicate Lists(numbers: Numbers, list: seq<string>) {
    && |list| == |numbers|
    && forall id | id in numbers :: 1 <= numbers[id] <= |list| && list[numbers[id] - 1] == id
  }

  /** A bracketed number that is the position of `id` in the citation list. */
  ghost predicate Cites(list: seq<string>, id: string, u: Token)
    requires WellFormed(u)
  {
    u.Num? && 1 <= Value(u.digits) <= |list| && list[Value(u.digits) - 1] == id
  }

  /** What a token of the model's text shows as. */
  ghost predicate Shows(order: seq<string>, list: seq<string>, t: Token, u: Token)
    requires WellFormed(t) && WellFormed(u)
  {
    match Names(order, t)
    case Some(id) => Cites(list, id, u)
    case None => u == t
  }

  /** A sentence shows its part token by token; a part that names no context is followed by the fill. */
  ghost predicate PartShows(order: seq<string>, list: seq<string>, fill: seq<string>, part: string, text: string) {
    var ts, us := Lex(Strip(part)), Lex(text);
    && |us| == |ts| + (if HasMarker(|order|, Strip(part)) then 0 else 2 * |fill|)
    && (forall i | 0 <= i < |ts| :: Shows(order, list, ts[i], us[i]))
    && (!HasMarker(|order|, Strip(part)) ==>
          forall j | 0 <= j < |fill| :: us[|ts| + 2 * j] == Ch(' ') && Cites(list, fill[j], us[|ts| + 2 * j + 1]))
  }

  lemma {:induction false} SuffixAt(ids: seq<string>, j: nat)
    ensures |Suffix(ids)| == 2 * |ids|
    ensures j < |ids| ==> Suffix(ids)[2 * j] == Ch(' ') && Suffix(ids)[2 * j + 1] == Mark(ids[j])
    decreases |ids|
  {
    if ids != [] {
      SuffixAt(ids[1..], if j == 0 then 0 else j - 1);
    }
  }

  /** A marker that is rendered becomes the position of its id in the citation list. */
  lemma MarkRendered(numbers: Numbers, list: seq<string>, id: string, u: Token)
    requires WellFormed(u) && Lists(numbers, list) && id in numbers && u == RenderToken(numbers, Mark(id))
    ensures Cites(list, id, u)
  {
    ValueShow(numbers[id]);
  }

  lemma PartIsShown(order: seq<string>, numbers: Numbers, list: seq<string>, fill: seq<string>, part: string, text: string)
    requires ValidOrder(order) && GoodFill(order, fill) && RendersPart(order, fill, numbers, part, text) && Lists(numbers, list)
    ensures PartShows(order, list, fill, part, text)
  {
    hide Lex, IsIdChar, Strip, IsSpace, SentenceTokens, Marks, NormalizeText, HasMarker, Lists, Names, Counts, RendersPart, Suffix;
    var ts, us, vs := Lex(Strip(part)), Lex(text), SentenceTokens(order, fill, part);
    PartTokens(order, fill, numbers, part, text);
    SentenceIs(order, fill, part);
    SuffixAt(fill, 0);
    NormalizedLength(order, Strip(part));
    assert |us| == |ts| + (if HasMarker(|order|, Strip(part)) then 0 else 2 * |fill|);
    forall i | 0 <= i < |ts| ensures Shows(order, list, ts[i], us[i]) {
      NormalizedToken(order, Strip(part), i);
      assert us[i] == RenderToken(numbers, vs[i]);
      TokenShown(order, numbers, list, vs, i, ts[i], us[i]);
    }
    if !HasMarker(|order|, Strip(part)) {
      forall j | 0 <= j < |fill| ensures us[|ts| + 2 * j] == Ch(' ') && Cites(list, fill[j], us[|ts| + 2 * j + 1]) {
        SuffixAt(fill, j);
        assert vs[|ts| + 2 * j] == Ch(' ') && vs[|ts| + 2 * j + 1] == Mark(fill[j]);
        MarksContain(vs, vs[|ts| + 2 * j + 1]);
        MarkRendered(numbers, list, fill[j], us[|ts| + 2 * j + 1]);
      }
    }
  }

  /** A rendered part reads back as its tokens with the markers numbered. */
  lemma PartTokens(order: seq<string>, fill: seq<string>, numbers: Numbers, part: string, text: string)
    requires ValidOrder(order) && GoodFill(order, fill) && RendersPart(order, fill, numbers, part, text)
    ensures Lex(text) == RenderTokens(numbers, SentenceTokens(order, fill, part))
    ensures forall id | id in Marks(SentenceTokens(order, fill, part)) :: id in numbers
  {
    hide Lex, IsIdChar, Strip, IsSpace, SentenceIds, SentenceTokens, Unlex, Marks, NormalizeText, RenderTokens;
    SentenceReadsBack(order, fill, part);
    SentenceMarks(order, fill, part);
    RenderKeepsShape(numbers, SentenceTokens(order, fill, part));
    Relex(SentenceText(order, fill, part), RenderTokens(numbers, SentenceTokens(order, fill, part)));
  }

  lemma NormalizedLength(order: seq<string>, s: string)
    requires ValidOrder(order)
    ensures |Lex(NormalizeText(order, s))| == |Lex(s)|
  {
    hide Lex, NormalizeText;
    NormalizeIsTokenwise(order, s);
  }

  lemma TokenShown(order: seq<string>, numbers: Numbers, list: seq<string>, vs: seq<Token>, i: nat, t: Token, u: Token)
    requires i < |vs| && WellFormed(t) && WellFormed(u) && Lists(numbers, list)
    requires vs[i] == var named := Names(order, t); if named.Some? then Mark(named.value) else t
    requires u == RenderToken(numbers, vs[i]) && forall id | id in Marks(vs) :: id in numbers
    ensures Shows(order, list, t, u)
  {
    hide Lists, Marks;
    if Names(order, t).Some? {
      MarksContain(vs, vs[i]);
      MarkRendered(numbers, list, Names(order, t).value, u);
    }
  }

  /** The tokens of a sentence before numbering: those of the part, then the fill if it cites nothing. */
  lemma SentenceIs(order: seq<string>, fill: seq<string>, part: string)
    requires ValidOrder(order)
    ensures var ns := Lex(NormalizeText(order, Strip(part)));
      SentenceTokens(order, fill, part) == if HasMarker(|order|, Strip(part)) then ns else ns + Suffix(fill)
  {
    hide Lex, NormalizeText, HasMarker, Strip, Suffix;
    NormalizeIsTokenwise(order, Strip(part));
    SearchFindsMarkers(order, Strip(part));
  }

  /******* What a part without a citation is filled with *******/

  /** The fill is what the last part that names a context names; if none does, the default chunk. */
  ghost predicate Fills(order: seq<string>, fallback: Option<string>, parts: seq<string>, fill: seq<string>) {
    if exists p :: p in parts && HasMarker(|order|, p) then
      exists i :: 0 <= i < |parts| && LastCiting(|order|, parts, i) && fill == NamedIn(order, Lex(parts[i]))
    else fill == if fallback.Some? then [fallback.value] else []
  }

  ghost predicate LastCiting(m: nat, parts: seq<string>, i: nat)
    requires i < |parts|
  {
    HasMarker(m, parts[i]) && forall j | i < j < |parts| :: !HasMarker(m, parts[j])
  }

  lemma {:induction false} LastTrails(order: seq<string>, parts: seq<string>) returns (i: nat)
    requires ValidOrder(order)
    ensures forall p | p in parts :: CitedIds(order, p) != [] <==> HasMarker(|order|, p)
    ensures TrailingMarkers(order, parts) != [] ==>
      i < |parts| && LastCiting(|order|, parts, i) && TrailingMarkers(order, parts) == NamedIn(order, Lex(parts[i]))
    decreases |parts|
  {
    hide CitedIds, HasMarker, Lex, NamedIn;
    if parts == [] {
      return 0;
    }
    var m := |parts| - 1;
    CitedAreNamed(order, parts[m]);
    i := LastTrails(order, parts[..m]);
    assert parts == parts[..m] + [parts[m]];
    if CitedIds(order, parts[m]) != [] {
      i := m;
    }
  }

  lemma BackFillIs(order: seq<string>, fallback: Option<string>, parts: seq<string>)
    requires ValidOrder(order)
    ensures Fills(order, fallback, parts, BackFill(order, fallback, parts))
  {
    hide CitedIds, HasMarker, Lex, NamedIn, LastCiting, TrailingMarkers;
    var i := LastTrails(order, parts);
    TrailingFrom(order, parts);
    if exists p :: p in parts && HasMarker(|order|, p) {
      assert TrailingMarkers(order, parts) != [];
    }
  }

  /******* What a call hands over, and when *******/

  /** Stripping leaves a part whole. */
  lemma StripIsWhole(s: string)
    requires Split(s) == [s]
    ensures Split(Strip(s)) == [Strip(s)]
  {
    hide IsBoundary, Strip, IsSpace;
    var left, right := StripWeaves(s);
    var t, a := Strip(s), |left|;
    assert s[a..a + |t|] == t;
    SplitOnce(s);
    assert NextCut(s, 0) == |s|;
    WholeAt(s, a, a + |t|);
  }

  /** When feed hands anything over, and what: it waits until its text holds a marker and can be cut; then
      it hands over every sentence but the last, and the last too, stripped, if it names a context. What
      it keeps names none. If no sentence names any and there is no default chunk, it discards them. */
  lemma FeedHands(c: Config, st: State, text: string)
    requires c.Valid()
    ensures var s, m, e := st.buffer + text, |c.order|, Feed(c, st, text); var n := |Split(s)| - 1;
      if !HasMarker(m, s) || n == 0 then e == Effect(State(s, st.numbers), Rendered([]), [], false)
      else
        && !HasMarker(m, e.state.buffer)
        && e.state.buffer == (if HasMarker(m, Split(s)[n]) then "" else Split(s)[n])
        && (e.dropped <==> c.fallback.None? && forall p | p in Split(s) :: !HasMarker(m, p))
        && (e.dropped ==> e.handed == [] && e.outcome == Rendered([]) && e.state.numbers == st.numbers)
        && (!e.dropped ==> e.handed == Split(s)[..n] + if HasMarker(m, Split(s)[n]) then [Strip(Split(s)[n])] else [])
    ensures forall p | p in Feed(c, st, text).handed :: Split(p) == [p]
  {
    hide CitedIds, Split, Strip, NonBlank, Blank, ValidateBatch, TrailingMarkers, HasMarker, Lex;
    var s, m, e := st.buffer + text, |c.order|, Feed(c, st, text);
    var parts := Split(s);
    var last := parts[|parts| - 1];
    SearchFindsMarkers(c.order, s);
    PartsAreWhole(s);
    assert last in parts;
    StripIsWhole(last);
    if HasMarker(m, s) && |parts| > 1 {
      FeedBatch(c, s);
      forall p | p in parts ensures CitedIds(c.order, p) != [] <==> HasMarker(m, p) {
        SearchFindsMarkers(c.order, p);
      }
      EmptyHasNone(m);
      FeedDrops(c, parts);
      var takes := HasMarker(m, last);
      assert takes <==> CitedIds(c.order, last) != [];
      var complete := parts[..|parts| - 1];
      assert complete + [] == complete;
      var batch := complete + if takes then [Strip(last)] else [];
      assert e.dropped <==> TrailingMarkers(c.order, batch) == [] && c.fallback.None?;
    }
  }

  lemma EmptyHasNone(m: nat)
    ensures !HasMarker(m, "")
  {
  }

  /** The batch of a feed cites nothing exactly when no part does. */
  lemma FeedDrops(c: Config, parts: seq<string>)
    requires c.Valid() && parts != []
    requires forall p | p in parts :: CitedIds(c.order, p) != [] <==> HasMarker(|c.order|, p)
    ensures var n := |parts| - 1; var takes := HasMarker(|c.order|, parts[n]);
      TrailingMarkers(c.order, parts[..n] + if takes then [Strip(parts[n])] else []) == [] <==>
      forall p | p in parts :: !HasMarker(|c.order|, p)
  {
    hide CitedIds, Strip, TrailingMarkers, HasMarker, Lex;
    var n := |parts| - 1;
    var takes := HasMarker(|c.order|, parts[n]);
    var batch := parts[..n] + if takes then [Strip(parts[n])] else [];
    TrailingFrom(c.order, batch);
    assert parts == parts[..n] + [parts[n]];
    assert forall p :: p in parts <==> p in parts[..n] || p == parts[n];
    if takes {
      StripKeepsMarker(|c.order|, parts[n]);
      SearchFindsMarkers(c.order, Strip(parts[n]));
      assert Strip(parts[n]) in batch;
    }
  }

  /** Finish hands over the sentences of the stripped buffer, with a marker of the default chunk behind it
      exactly when there is one and the buffer names no context. */
  lemma FinishHands(c: Config, st: State)
    requires c.Valid()
    ensures var left, e := Strip(st.buffer), Finish(c, st);
      && e.state.buffer == "" && !e.dropped
      && (left == "" ==> e.handed == [] && e.outcome == Rendered([]) && e.state.numbers == st.numbers)
      && (left != "" ==>
            e.handed == Split(left + if c.fallback.Some? && !HasMarker(|c.order|, left) then " [C:" + c.fallback.value + "]" else ""))
    ensures forall p | p in Finish(c, st).handed :: Split(p) == [p]
  {
    hide CitedIds, Split, Strip, NonBlank, Blank, ValidateBatch, HasMarker, Lex;
    var left := Strip(st.buffer);
    if left != "" {
      var text := left + ClosingMarker(c, left);
      LeftoverNotBlank(left, ClosingMarker(c, left));
      SplitPartsNotBlank(text);
      NonBlankAll(Split(text));
      SearchFindsMarkers(c.order, left);
      PartsAreWhole(text);
      if c.fallback.Some? {
        assert SuffixText([c.fallback.value]) == " [C:" + c.fallback.value + "]";
      }
    }
  }

  /******* A whole run *******/

  /** A call that returned shows each piece it handed over, filled from its own batch. */
  ghost predicate CallShows(c: Config, call: Call, list: seq<string>, e: Effect) {
    && e.outcome.Rendered? && |e.outcome.sentences| == |e.handed|
    && exists fill :: Fills(c.order, Used(c, call).fallback, e.handed, fill) &&
         forall i | 0 <= i < |e.handed| :: PartShows(c.order, list, fill, e.handed[i], e.outcome.sentences[i])
  }

  lemma CallIsShown(c: Config, st: State, call: Call, numbers: Numbers, list: seq<string>)
    requires c.Valid() && Lists(numbers, list) && Renders(c, call, numbers, Perform(c, st, call))
    ensures CallShows(c, call, list, Perform(c, st, call))
  {
    hide Feed, Finish, RendersPart, PartShows, Lists, BackFill, Fills, GoodFill;
    var e := Perform(c, st, call);
    var fill := BackFill(c.order, Used(c, call).fallback, e.handed);
    BackFillIs(c.order, Used(c, call).fallback, e.handed);
    if e.handed != [] {
      HandedFill(c, st, call);
      FillGood(Used(c, call), e.handed);
    }
    forall i | 0 <= i < |e.handed| ensures PartShows(c.order, list, fill, e.handed[i], e.outcome.sentences[i]) {
      assert RendersPart(c.order, fill, numbers, e.handed[i], e.outcome.sentences[i]);
      PartIsShown(c.order, numbers, list, fill, e.handed[i], e.outcome.sentences[i]);
    }
  }

  /** A batch that returned had something to fill with. */
  lemma HandedFill(c: Config, st: State, call: Call)
    requires c.Valid() && Perform(c, st, call).outcome.Rendered? && Perform(c, st, call).handed != []
    ensures BackFill(c.order, Used(c, call).fallback, Perform(c, st, call).handed) != []
  {
    hide Split, CitedIds, NonBlank, TrailingMarkers, Strip, SuffixText, BackFill, RenderParts;
  }

  /** Over any sequence of calls that all return: every sentence shows its piece token by token. A number
      k in range and a marker become the position, in the final citation list, of the context they name;
      everything else is unchanged; a piece that names nothing is followed by the citations of the last
      piece of its batch that does, else by the default chunk. */
  lemma RunShows(c: Config, st: State, calls: seq<Call>, list: seq<string>)
    requires c.Valid() && Numbered(c.order, st.numbers) && AllReturn(Run(c, st, calls))
    requires Lists(Final(c, st, calls).numbers, list)
    ensures forall k | 0 <= k < |calls| :: CallShows(c, calls[k], list, Run(c, st, calls)[k])
  {
    hide Numbered, Renders, CallShows, Lists, AllReturn;
    RunRenders(c, st, calls);
    forall k | 0 <= k < |calls| ensures CallShows(c, calls[k], list, Run(c, st, calls)[k]) {
      var before := StateBefore(c, st, calls, k);
      CallIsShown(c, before, calls[k], Final(c, st, calls).numbers, list);
    }
  }

  /** The state a call of a run starts from. */
  lemma {:induction false} StateBefore(c: Config, st: State, calls: seq<Call>, k: nat) returns (before: State)
    requires c.Valid() && k < |calls|
    ensures Run(c, st, calls)[k] == Perform(c, before, calls[k])
    decreases k
  {
    hide Perform;
    if k == 0 {
      before := st;
    } else {
      before := StateBefore(c, Perform(c, st, calls[0]).state, calls[1..], k - 1);
    }
  }

  /******* The order of the numbers *******/

  /** The bracketed numbers in 1..m a text shows, in order. */
  function Shown(m: nat, ts: seq<Token>): (ns: seq<nat>)
    requires AllWellFormed(ts)
  {
    if ts == [] then []
    else
      var t := ts[0];
      assert t in ts;
      (if t.Num? && 1 <= Value(t.digits) <= m then [Value(t.digits)] else []) + Shown(m, ts[1..])
  }

  function ShownIn(m: nat, sentences: seq<string>): (ns: seq<nat>) {
    if sentences == [] then [] else Shown(m, Lex(sentences[0])) + ShownIn(m, sentences[1..])
  }

  /** After n numbers, each of `ns` is one of them or the next one. */
  predicate InTurn(n: nat, ns: seq<nat>)
    decreases |ns|
  {
    ns == [] || (1 <= ns[0] <= n + 1 && InTurn(Max(n, ns[0]), ns[1..]))
  }

  /** The largest of n and `ns`. */
  function After(n: nat, ns: seq<nat>): nat
    decreases |ns|
  {
    if ns == [] then n else After(Max(n, ns[0]), ns[1..])
  }

  lemma {:induction false} InTurnAppend(n: nat, a: seq<nat>, b: seq<nat>)
    ensures InTurn(n, a + b) <==> InTurn(n, a) && InTurn(After(n, a), b)
    ensures After(n, a + b) == After(After(n, a), b)
    decreases |a|
  {
    if a == [] {
      assert a + b == b;
    } else {
      assert (a + b)[1..] == a[1..] + b;
      InTurnAppend(Max(n, a[0]), a[1..], b);
    }
  }

  function NumbersOf(numbers: Numbers, ids: seq<string>): (ns: seq<nat>)
    requires forall id | id in ids :: id in numbers
  {
    if ids == [] then [] else [numbers[ids[0]]] + NumbersOf(numbers, ids[1..])
  }

  /** Ids are numbered in the order they are first cited. */
  lemma {:induction false} AssignInTurn(order: seq<string>, numbers: Numbers, ids: seq<string>)
    requires Numbered(order, numbers) && forall id | id in ids :: id in order
    ensures var a := Assign(order, numbers, ids);
      && (forall id | id in ids :: id in a.numbers)
      && InTurn(|numbers|, NumbersOf(a.numbers, ids)) && After(|numbers|, NumbersOf(a.numbers, ids)) == |a.numbers|
    decreases |ids|
  {
    hide Numbered, SetDefault, Assign, InTurn, After;
    AssignNumbers(order, numbers, ids);
    AssignUnfolds(order, numbers, ids);
    NothingShown(|numbers|);
    if ids != [] {
      assert ids[0] in ids && forall id | id in ids[1..] :: id in ids;
      var next := SetDefault(numbers, ids[0]);
      SetDefaultNumbered(order, numbers, ids[0]);
      AssignInTurn(order, next, ids[1..]);
      AssignNumbers(order, next, ids[1..]);
      var a := Assign(order, next, ids[1..]);
      NumberInRange(order, numbers, ids[0]);
      InTurnCons(|numbers|, next[ids[0]], NumbersOf(a.numbers, ids[1..]));
      assert NumbersOf(a.numbers, ids) == [next[ids[0]]] + NumbersOf(a.numbers, ids[1..]);
    }
  }

  lemma AssignUnfolds(order: seq<string>, numbers: Numbers, ids: seq<string>)
    requires forall id | id in ids :: id in order
    ensures Assign(order, numbers, ids) ==
      if ids == [] then Assigned(numbers, None) else Assign(order, SetDefault(numbers, ids[0]), ids[1..])
  {
    if ids != [] {
      assert ids[0] in ids;
    }
  }

  lemma InTurnCons(n: nat, k: nat, ns: seq<nat>)
    requires 1 <= k <= n + 1 && InTurn(Max(n, k), ns)
    ensures InTurn(n, [k] + ns) && After(n, [k] + ns) == After(Max(n, k), ns)
  {
    assert ([k] + ns)[1..] == ns;
  }

  lemma NumberInRange(order: seq<string>, numbers: Numbers, id: string)
    requires Numbered(order, numbers)
    ensures id in numbers ==> 1 <= numbers[id] <= |numbers| && SetDefault(numbers, id) == numbers
    ensures id !in numbers ==>
      var next := SetDefault(numbers, id); |next| == |numbers| + 1 && id in next && next[id] == |next|
  {
    if id !in numbers {
      assert SetDefault(numbers, id).Keys == numbers.Keys + {id};
    }
  }

  /** A rendered sentence shows the numbers of the ids it cites, in order. */
  lemma {:induction false} RenderedShown(order: seq<string>, numbers: Numbers, ts: seq<Token>)
    requires AllWellFormed(ts) && AllWellFormed(RenderTokens(numbers, ts)) && Numbered(order, numbers)
    requires forall id | id in Marks(ts) :: id in numbers
    requires forall t | t in ts && t.Num? :: !(1 <= Value(t.digits) <= |order|)
    ensures Shown(|order|, RenderTokens(numbers, ts)) == NumbersOf(numbers, Marks(ts))
    decreases |ts|
  {
    hide Numbered, RenderTokens;
    if ts != [] {
      var us, t := RenderTokens(numbers, ts), ts[0];
      RenderUnfolds(numbers, ts);
      RenderedShown(order, numbers, ts[1..]);
      assert t in ts && us[0] in us;
      MarksContain(ts, t);
      NumbersFit(order, numbers);
      if t.Mark? {
        ValueShow(numbers[t.id]);
        NumberInRange(order, numbers, t.id);
        assert Marks(ts) == [t.id] + Marks(ts[1..]);
        assert Marks(ts)[1..] == Marks(ts[1..]);
      } else {
        assert Marks(ts) == [] + Marks(ts[1..]) == Marks(ts[1..]);
      }
    }
  }

  lemma RenderUnfolds(numbers: Numbers, ts: seq<Token>)
    requires ts != []
    ensures var us := RenderTokens(numbers, ts); us[0] == RenderToken(numbers, ts[0]) && us[1..] == RenderTokens(numbers, ts[1..])
  {
  }

  lemma PartShown(order: seq<string>, fill: seq<string>, numbers: Numbers, part: string, text: string)
    requires ValidOrder(order) && GoodFill(order, fill) && Numbered(order, numbers) && RendersPart(order, fill, numbers, part, text)
    ensures forall id | id in SentenceIds(order, fill, part) :: id in numbers
    ensures Shown(|order|, Lex(text)) == NumbersOf(numbers, SentenceIds(order, fill, part))
  {
    hide Lex, IsIdChar, Strip, SentenceTokens, SentenceIds, Marks, NormalizeText, Numbered, Unlex, RenderTokens, Shown, NumbersOf;
    PartTokens(order, fill, numbers, part, text);
    SentenceReadsBack(order, fill, part);
    SentenceMarks(order, fill, part);
    NoLiteralInRange(order, Lex(SentenceText(order, fill, part)));
    RenderedShown(order, numbers, SentenceTokens(order, fill, part));
  }

  lemma {:induction false} BatchInTurn(order: seq<string>, fill: seq<string>, numbers: Numbers, parts: seq<string>)
    requires ValidOrder(order) && GoodFill(order, fill) && Numbered(order, numbers)
    ensures var r := RenderParts(order, fill, numbers, parts);
      r.outcome.Rendered? ==>
        var ns := ShownIn(|order|, r.outcome.sentences); InTurn(|numbers|, ns) && After(|numbers|, ns) == |r.numbers|
    decreases |parts|
  {
    hide Lex, Numbered, SentenceIds, SentenceTokens, Unlex, RenderTokens, Shown, NumbersOf, Assign, Blank, GoodFill, InTurn, After;
    var r := RenderParts(order, fill, numbers, parts);
    if !r.outcome.Rendered? {
    } else if parts == [] {
      NothingShown(|numbers|);
    } else if Blank(parts[0]) {
      BatchInTurn(order, fill, numbers, parts[1..]);
    } else {
      var ids := SentenceIds(order, fill, parts[0]);
      var a := Assign(order, numbers, ids);
      AssignNumbers(order, numbers, ids);
      AssignInTurn(order, numbers, ids);
      BatchInTurn(order, fill, a.numbers, parts[1..]);
      var text := Unlex(RenderTokens(a.numbers, SentenceTokens(order, fill, parts[0])));
      PartShown(order, fill, a.numbers, parts[0], text);
      var rest := RenderParts(order, fill, a.numbers, parts[1..]).outcome.sentences;
      assert r.outcome.sentences == [text] + rest && r.outcome.sentences[1..] == rest;
      InTurnAppend(|numbers|, Shown(|order|, Lex(text)), ShownIn(|order|, rest));
    }
  }

  lemma NothingShown(n: nat)
    ensures InTurn(n, []) && After(n, []) == n
  {
  }

  lemma CallInTurn(c: Config, st: State, call: Call)
    requires c.Valid() && Numbered(c.order, st.numbers) && Perform(c, st, call).outcome.Rendered?
    ensures var e := Perform(c, st, call); var ns := ShownIn(|c.order|, e.outcome.sentences);
      InTurn(|st.numbers|, ns) && After(|st.numbers|, ns) == |e.state.numbers|
  {
    hide Split, CitedIds, NonBlank, TrailingMarkers, Strip, SuffixText, BackFill, RenderParts, Numbered, ShownIn, GoodFill, InTurn, After;
    var e := Perform(c, st, call);
    NoneShown(|c.order|);
    NothingShown(|st.numbers|);
    if e.handed != [] {
      var used := Used(c, call);
      HandedFill(c, st, call);
      FillGood(used, e.handed);
      BatchInTurn(c.order, BackFill(c.order, used.fallback, e.handed), st.numbers, e.handed);
    }
  }

  lemma NoneShown(m: nat)
    ensures ShownIn(m, []) == []
  {
  }

  /** What the reader is sent, call after call. */
  function Sent(effects: seq<Effect>): (sentences: seq<string>) {
    if effects == [] then []
    else (if effects[0].outcome.Rendered? then effects[0].outcome.sentences else []) + Sent(effects[1..])
  }

  lemma {:induction false} ShownAppend(m: nat, a: seq<string>, b: seq<string>)
    ensures ShownIn(m, a + b) == ShownIn(m, a) + ShownIn(m, b)
    decreases |a|
  {
    hide Shown, Lex;
    if a == [] {
      assert a + b == b;
    } else {
      ShownAppend(m, a[1..], b);
      assert (a + b)[1..] == a[1..] + b;
    }
  }

  /** Over any sequence of calls that all return, the citation numbers a reader meets come in turn: each is
      one already seen or the next one, and in the end they are as many as the citations. */
  lemma {:induction false} RunInTurn(c: Config, st: State, calls: seq<Call>)
    requires c.Valid() && Numbered(c.order, st.numbers) && AllReturn(Run(c, st, calls))
    ensures var ns := ShownIn(|c.order|, Sent(Run(c, st, calls)));
      InTurn(|st.numbers|, ns) && After(|st.numbers|, ns) == |Final(c, st, calls).numbers|
    decreases |calls|
  {
    hide Numbered, Perform, Extends, Grounded, ShownIn, InTurn, After;
    if calls == [] {
      NoneShown(|c.order|);
      NothingShown(|st.numbers|);
    } else {
      var e := Perform(c, st, calls[0]);
      var rest := Run(c, e.state, calls[1..]);
      assert e in Run(c, st, calls) && forall x :: x in rest ==> x in Run(c, st, calls);
      CallGrounded(c, st, calls[0]);
      CallInTurn(c, st, calls[0]);
      RunInTurn(c, e.state, calls[1..]);
      assert Run(c, st, calls)[1..] == rest;
      ShownAppend(|c.order|, e.outcome.sentences, Sent(rest));
      InTurnAppend(|st.numbers|, ShownIn(|c.order|, e.outcome.sentences), ShownIn(|c.order|, Sent(rest)));
    }
  }
}
