/**
 Whole runs of the citation buffer: feed, finish and salvage as transitions, and what any sequence
 of them guarantees: numbering, grounding, conservation of text, and exactly when text is discarded.
 */
module CitationRuns {
  import opened Common
  import opened MarkerText
  import opened SentenceSplitter
  import opened Citations

  datatype Config = Config(order: seq<string>, fallback: Option<string>) {
    ghost predicate Valid() {
      ValidOrder(order) && (fallback.Some? ==> fallback.value in order)
    }

    /** The configuration salvage runs under: the first context becomes the fallback. */
    function Forced(): Config {
      if order == [] then this else Config(order, Some(order[0]))
    }
  }

  datatype State = State(buffer: string, numbers: Numbers)

  /** One call: the new state, what it returned or raised, the raw pieces it handed to validation,
      and whether it discarded complete sentences without handing them over. */
  datatype Effect = Effect(state: State, outcome: Outcome, handed: seq<string>, dropped: bool)

  function Feed(c: Config, st: State, text: string): Effect
    requires c.Valid()
  {
    var s := st.buffer + text;
    if CitedIds(c.order, s) == [] || |Split(s)| == 1 then
      Effect(State(s, st.numbers), Rendered([]), [], false)
    else
      var parts := Split(s);
      var last := parts[|parts| - 1];
      var complete := NonBlank(parts[..|parts| - 1]);
      if complete == [] then Effect(State(last, st.numbers), Rendered([]), [], false)
      else
        var takeAll := !Blank(last) && CitedIds(c.order, last) != [];
        var batch := if takeAll then complete + [Strip(last)] else complete;
        var buffer := if takeAll then "" else last;
        if TrailingMarkers(c.order, batch) == [] && c.fallback.None? then
          Effect(State(buffer, st.numbers), Rendered([]), [], true)
        else
          var r := ValidateBatch(c.order, c.fallback, st.numbers, batch);
          Effect(State(buffer, r.numbers), r.outcome, batch, false)
  }

  /** The default marker finish appends to leftover text that cites nothing. */
  function ClosingMarker(c: Config, leftover: string): string
    requires c.Valid()
  {
    if CitedIds(c.order, leftover) == [] && c.fallback.Some? then SuffixText([c.fallback.value]) else ""
  }

  function Finish(c: Config, st: State): Effect
    requires c.Valid()
  {
    var leftover := Strip(st.buffer);
    if leftover == "" then Effect(State("", st.numbers), Rendered([]), [], false)
    else
      var parts := NonBlank(Split(leftover + ClosingMarker(c, leftover)));
      if parts == [] then Effect(State("", st.numbers), Rendered([]), [], false)
      else
        var r := ValidateBatch(c.order, c.fallback, st.numbers, parts);
        Effect(State("", r.numbers), r.outcome, parts, false)
  }

  function Salvage(c: Config, st: State, raw: string): Effect
    requires c.Valid()
  {
    Finish(c.Forced(), State(Strip(raw), st.numbers))
  }

  datatype Call = CallFeed(text: string) | CallFinish | CallSalvage(raw: string)

  function Perform(c: Config, st: State, call: Call): Effect
    requires c.Valid()
  {
    match call
    case CallFeed(text) => Feed(c, st, text)
    case CallFinish => Finish(c, st)
    case CallSalvage(raw) => Salvage(c, st, raw)
  }

  /** The effects of a sequence of calls, each starting from the state the one before left, whether
      that one returned or raised. */
  function Run(c: Config, st: State, calls: seq<Call>): (effects: seq<Effect>)
    requires c.Valid()
    ensures |effects| == |calls|
    decreases |calls|
  {
    if calls == [] then []
    else
      var e := Perform(c, st, calls[0]);
      [e] + Run(c, e.state, calls[1..])
  }

  function Final(c: Config, st: State, calls: seq<Call>): State
    requires c.Valid()
    decreases |calls|
  {
    if calls == [] then st else Final(c, Perform(c, st, calls[0]).state, calls[1..])
  }

  /******* Batches *******/

  lemma CitedIdsValid(order: seq<string>, s: string)
    requires ValidOrder(order)
    ensures forall id | id in CitedIds(order, s) :: ValidId(id)
  {
    hide IsIdChar;
    var ts := Lex(NormalizeText(order, s));
    MarksFrom(ts);
    forall id | id in Marks(ts) ensures ValidId(id) {
      assert WellFormed(Mark(id));
    }
  }

  lemma {:induction false} TrailingFrom(order: seq<string>, parts: seq<string>)
    requires ValidOrder(order)
    ensures TrailingMarkers(order, parts) == [] <==> forall p | p in parts :: CitedIds(order, p) == []
    ensures TrailingMarkers(order, parts) != [] ==>
              exists p | p in parts :: TrailingMarkers(order, parts) == CitedIds(order, p)
    decreases |parts|
  {
    hide CitedIds;
    if parts != [] {
      var last := parts[|parts| - 1];
      assert last in parts;
      var init := parts[..|parts| - 1];
      TrailingFrom(order, init);
      assert parts == init + [last];
      assert forall p :: p in parts <==> p in init || p == last;
    }
  }

  lemma FillGood(c: Config, parts: seq<string>)
    requires c.Valid() && BackFill(c.order, c.fallback, parts) != []
    ensures GoodFill(c.order, BackFill(c.order, c.fallback, parts))
  {
    hide CitedIds, IsIdChar;
    TrailingFrom(c.order, parts);
    if TrailingMarkers(c.order, parts) != [] {
      var p :| p in parts && TrailingMarkers(c.order, parts) == CitedIds(c.order, p);
      CitedIdsValid(c.order, p);
      if |c.order| == 1 {
        SingleContextIds(c.order, p);
      }
    }
  }

  /** A batch keeps the numbering bijective and extends it, also when it raises, and every sentence
      it returns is grounded. */
  lemma BatchGrounded(c: Config, numbers: Numbers, parts: seq<string>)
    requires c.Valid() && Numbered(c.order, numbers)
    ensures var r := ValidateBatch(c.order, c.fallback, numbers, parts);
      && Numbered(c.order, r.numbers) && Extends(numbers, r.numbers)
      && (r.outcome.Rendered? ==> forall s | s in r.outcome.sentences :: Grounded(c.order, r.numbers, s))
  {
    hide Numbered, Extends, RenderParts, RendersPart, Grounded, GoodFill;
    var fill := BackFill(c.order, c.fallback, parts);
    if fill == [] {
      ExtendsReflexive(numbers);
    } else {
      FillGood(c, parts);
      RenderPartsNumbers(c.order, fill, numbers, parts);
      RenderPartsRenders(c.order, fill, numbers, parts);
      var r := RenderParts(c.order, fill, numbers, parts);
      if r.outcome.Rendered? {
        var kept := NonBlank(parts);
        forall i | 0 <= i < |kept| ensures Grounded(c.order, r.numbers, r.outcome.sentences[i]) {
          PartGrounded(c.order, fill, r.numbers, kept[i], r.outcome.sentences[i]);
        }
      }
    }
  }

  /** Exactly when validating a batch raises, and for which of its two reasons. */
  lemma BatchRaises(c: Config, numbers: Numbers, parts: seq<string>)
    requires c.Valid() && Numbered(c.order, numbers)
    ensures var r := ValidateBatch(c.order, c.fallback, numbers, parts);
      && (r.outcome.NoMarker? <==> c.fallback.None? && forall p | p in parts :: CitedIds(c.order, p) == [])
      && (r.outcome.Rendered? <==>
            !r.outcome.NoMarker? &&
            forall p | p in NonBlank(parts) ::
              KnownIds(c.order, SentenceIds(c.order, BackFill(c.order, c.fallback, parts), p)))
  {
    hide CitedIds, Numbered, SentenceIds, RenderParts, KnownIds;
    TrailingFrom(c.order, parts);
    var fill := BackFill(c.order, c.fallback, parts);
    if fill != [] {
      RenderPartsNumbers(c.order, fill, numbers, parts);
      RenderPartsSucceeds(c.order, fill, numbers, parts);
    }
  }

  /******* Grounding and numbering over whole runs *******/

  ghost predicate EffectGrounded(c: Config, st: State, e: Effect) {
    && Numbered(c.order, e.state.numbers) && Extends(st.numbers, e.state.numbers)
    && (e.outcome.Rendered? ==> forall s | s in e.outcome.sentences :: Grounded(c.order, e.state.numbers, s))
  }

  lemma FeedGrounded(c: Config, st: State, text: string)
    requires c.Valid() && Numbered(c.order, st.numbers)
    ensures EffectGrounded(c, st, Feed(c, st, text))
  {
    hide Numbered, Extends, Grounded, ValidateBatch, CitedIds, Split, NonBlank, TrailingMarkers;
    ExtendsReflexive(st.numbers);
    var e := Feed(c, st, text);
    if e.handed != [] {
      BatchGrounded(c, st.numbers, e.handed);
    }
  }

  lemma FinishGrounded(c: Config, st: State)
    requires c.Valid() && Numbered(c.order, st.numbers)
    ensures EffectGrounded(c, st, Finish(c, st))
  {
    hide Numbered, Extends, Grounded, ValidateBatch, CitedIds, Split, NonBlank, TrailingMarkers;
    ExtendsReflexive(st.numbers);
    var e := Finish(c, st);
    if e.handed != [] {
      BatchGrounded(c, st.numbers, e.handed);
    }
  }

  lemma CallGrounded(c: Config, st: State, call: Call)
    requires c.Valid() && Numbered(c.order, st.numbers)
    ensures EffectGrounded(c, st, Perform(c, st, call))
  {
    hide Numbered, Extends, Grounded, Feed, Finish;
    match call
    case CallFeed(text) => FeedGrounded(c, st, text);
    case CallFinish => FinishGrounded(c, st);
    case CallSalvage(raw) => FinishGrounded(c.Forced(), State(Strip(raw), st.numbers));
  }

  /** Over any sequence of feed, finish and salvage calls, raising ones included: the numbers stay a
      bijection from supplied chunk ids onto 1..n, are only ever extended, and every sentence any
      call returned is grounded under the final numbering. */
  lemma {:induction false} RunGrounded(c: Config, st: State, calls: seq<Call>)
    requires c.Valid() && Numbered(c.order, st.numbers)
    ensures Numbered(c.order, Final(c, st, calls).numbers)
    ensures Extends(st.numbers, Final(c, st, calls).numbers)
    ensures forall e, s | e in Run(c, st, calls) && e.outcome.Rendered? && s in e.outcome.sentences ::
              Grounded(c.order, Final(c, st, calls).numbers, s)
    decreases |calls|
  {
    hide Numbered, Extends, Grounded, Perform;
    if calls == [] {
      ExtendsReflexive(st.numbers);
    } else {
      CallGrounded(c, st, calls[0]);
      var e := Perform(c, st, calls[0]);
      RunGrounded(c, e.state, calls[1..]);
      var final := Final(c, st, calls).numbers;
      ExtendsTransitive(st.numbers, e.state.numbers, final);
      if e.outcome.Rendered? {
        forall s | s in e.outcome.sentences ensures Grounded(c.order, final, s) {
          GroundedStable(c.order, e.state.numbers, final, s);
        }
      }
    }
  }

  /******* When feed discards text *******/

  lemma TextIsInside(left: string, mid: string, right: string, i: nat)
    requires AllSpace(left) && AllSpace(right) && i < |left + mid + right|
    ensures !IsSpace((left + mid + right)[i]) ==> |left| <= i < |left| + |mid|
  {
    hide IsSpace;
    if i < |left| {
      assert left[i] in left;
    } else if i >= |left| + |mid| {
      assert right[i - |left| - |mid|] in right;
    }
  }

  /** Stripping keeps every marker: a match starts and ends with a bracket. */
  lemma StripKeepsMarker(m: nat, s: string)
    requires HasMarker(m, s)
    ensures HasMarker(m, Strip(s))
  {
    hide Lex, Strip, IsSpace;
    var t :| t in Lex(s) && Counts(m, t);
    assert !t.Ch?;
    hide Counts;
    BracketsAreText();
    var k := LexedIsOccurrence(s, t);
    var left, right := StripWeaves(s);
    var mid := Strip(s);
    var h := Find(Opened, s[k + 1..]);
    assert s[k + h.len] == s[k + 1..][h.len - 1] == ']';
    TextIsInside(left, mid, right, k);
    TextIsInside(left, mid, right, k + h.len);
    var k' := k - |left|;
    assert s[k + 1..] == mid[k' + 1..] + right;
    FindTake(Opened, mid[k' + 1..], right);
    assert CountsAt(m, mid, k');
    OccurrenceIsLexed(m, mid, k');
  }

  lemma BracketsAreText()
    ensures !IsSpace('[') && !IsSpace(']')
  {
  }

  lemma {:induction false} NonBlankAll(parts: seq<string>)
    requires forall p | p in parts :: !Blank(p)
    ensures NonBlank(parts) == parts
    decreases |parts|
  {
    hide Blank;
    if parts != [] {
      NonBlankAll(parts[1..]);
      assert parts == [parts[0]] + parts[1..];
    }
  }

  lemma NotBlank(p: string, i: nat)
    requires i < |p| && !IsSpace(p[i])
    ensures !Blank(p)
  {
    BlankIsSpace(p);
    assert p[i] in p;
  }

  lemma StopIsNotSpace(c: char)
    requires IsStop(c)
    ensures !IsSpace(c)
  {
  }

  /** No part the splitter yields is blank, so the filters in feed and finish keep every part. */
  lemma SplitPartsNotBlank(s: string)
    requires !Blank(s) || |Split(s)| > 1
    ensures forall p | p in Split(s) :: !Blank(p)
  {
    hide IsSpace, IsTerminator, Blank;
    SplitEdges(s);
    var parts := Split(s);
    forall i | 0 <= i < |parts| ensures !Blank(parts[i]) {
      if i < |parts| - 1 {
        StopIsNotSpace(parts[i][|parts[i]| - 1]);
        NotBlank(parts[i], |parts[i]| - 1);
      } else if |parts| > 1 {
        NotBlank(parts[i], 0);
      } else {
        assert parts == [s];
      }
    }
  }

  lemma FeedBatch(c: Config, s: string)
    requires c.Valid() && |Split(s)| > 1
    ensures var parts := Split(s); NonBlank(parts[..|parts| - 1]) == parts[..|parts| - 1] != []
    ensures !Blank(Split(s)[|Split(s)| - 1])
  {
    hide Blank, Split;
    SplitPartsNotBlank(s);
    NonBlankAll(Split(s)[..|Split(s)| - 1]);
  }

  /** Finishing text that is not blank with a default chunk hands all of it to validation, so it fails
      only for a marker that names no context, and otherwise renders every piece. */
  lemma FinishCites(c: Config, st: State)
    requires c.Valid() && c.fallback.Some? && Numbered(c.order, st.numbers) && Strip(st.buffer) != ""
    ensures var e := Finish(c, st);
      && e.handed != [] && !e.outcome.NoMarker?
      && (e.outcome.Rendered? <==> forall p | p in e.handed ::
            KnownIds(c.order, SentenceIds(c.order, BackFill(c.order, c.fallback, e.handed), p)))
      && (e.outcome.Rendered? ==> |e.outcome.sentences| == |e.handed|)
  {
    hide CitedIds, Split, NonBlank, ValidateBatch, SentenceIds, BackFill, Blank, KnownIds, Strip, SuffixText, Numbered;
    var leftover := Strip(st.buffer);
    var text := leftover + ClosingMarker(c, leftover);
    LeftoverNotBlank(leftover, ClosingMarker(c, leftover));
    SplitPartsNotBlank(text);
    var parts := NonBlank(Split(text));
    NonBlankAll(Split(text));
    assert parts == Split(text);
    BatchRaises(c, st.numbers, parts);
    BatchRenders(c, st.numbers, parts);
    NonBlankAll(parts);
  }

  /** Salvaging text that is not blank hands all of it to validation under the first context as
      fallback, so it fails only for a marker that names no context, and otherwise renders something. */
  lemma SalvageExactly(c: Config, st: State, raw: string)
    requires c.Valid() && c.order != [] && Numbered(c.order, st.numbers) && Strip(raw) != ""
    ensures var e := Salvage(c, st, raw);
      && e.handed != [] && !e.outcome.NoMarker?
      && (e.outcome.Rendered? <==> forall p | p in e.handed ::
            KnownIds(c.order, SentenceIds(c.order, BackFill(c.order, Some(c.order[0]), e.handed), p)))
      && (e.outcome.Rendered? ==> |e.outcome.sentences| == |e.handed|)
  {
    hide SentenceIds, BackFill, KnownIds, Strip, Numbered, Finish;
    StripStripped(raw);
    FinishCites(c.Forced(), State(Strip(raw), st.numbers));
  }

  lemma StripStripped(s: string)
    ensures Strip(Strip(s)) == Strip(s)
  {
    StripTrimmed(Strip(s));
  }

  lemma LeftoverNotBlank(s: string, closing: string)
    requires s != "" && Trimmed(s)
    ensures !Blank(s + closing)
  {
    BlankIsSpace(s + closing);
    assert (s + closing)[0] == s[0] && (s + closing)[0] in s + closing;
  }

  lemma BatchRenders(c: Config, numbers: Numbers, parts: seq<string>)
    requires c.Valid() && Numbered(c.order, numbers)
    ensures var r := ValidateBatch(c.order, c.fallback, numbers, parts);
      r.outcome.Rendered? ==> |r.outcome.sentences| == |NonBlank(parts)|
  {
    hide CitedIds, Numbered, SentenceIds, RenderParts, RendersPart, NonBlank, GoodFill;
    var fill := BackFill(c.order, c.fallback, parts);
    if fill != [] {
      FillGood(c, parts);
      RenderPartsRenders(c.order, fill, numbers, parts);
    }
  }

  /** Feed discards complete sentences exactly when there is no fallback and the text it has
      buffered holds markers, every one of them a spaced marker whose id ends in a full stop, which
      the splitter tears in two. */
  lemma FeedDropsExactly(c: Config, st: State, text: string)
    requires c.Valid()
    ensures var s := st.buffer + text; var m := |c.order|;
      Feed(c, st, text).dropped <==>
        c.fallback.None? && HasMarker(m, s) && forall k :: CountsAt(m, s, k) ==> Torn(s, k)
  {
    hide CitedIds, Split, HasMarker, Strip, Torn, CountsAt, NonBlank;
    var s := st.buffer + text;
    var m := |c.order|;
    var parts := Split(s);
    SearchFindsMarkers(c.order, s);
    SplitKeepsMarkers(m, s);
    if |parts| == 1 {
      SingletonSplit(s);
      assert HasMarker(m, s) ==> s in parts;
    } else {
      var last := parts[|parts| - 1];
      var complete := parts[..|parts| - 1];
      FeedBatch(c, s);
      var takeAll := CitedIds(c.order, last) != [];
      var batch := if takeAll then complete + [Strip(last)] else complete;
      TrailingFrom(c.order, batch);
      forall p | p in parts ensures CitedIds(c.order, p) != [] <==> HasMarker(m, p) {
        SearchFindsMarkers(c.order, p);
      }
      SearchFindsMarkers(c.order, Strip(last));
      if takeAll {
        assert last in parts;
        StripKeepsMarker(m, last);
        assert Strip(last) in batch;
      } else {
        assert forall p :: p in parts <==> p in complete || p == last;
      }
    }
  }

  lemma SingletonSplit(s: string)
    requires |Split(s)| == 1
    ensures Split(s) == [s]
  {
  }

  const TORN := "[C:a. ]"

  /** The discard does happen: with two contexts, "[C:a. ]" is cut into "[C:a." and "]", and the
      first is lost. */
  lemma FeedCanDrop()
    ensures var c := Config(["a.", "b"], None);
      c.Valid() && Feed(c, State("", map[]), TORN).dropped
  {
    hide Feed, IsIdChar, Find, Lex, Torn;
    var c := Config(["a.", "b"], None);
    TornExampleIds();
    TornExample();
    assert "" + TORN == TORN;
    OccurrenceIsLexed(2, TORN, 0);
    FeedDropsExactly(c, State("", map[]), TORN);
  }

  lemma TornExampleIds()
    ensures ValidOrder(["a.", "b"])
  {
    assert forall id | id in ["a.", "b"] :: id == "a." || id == "b";
    assert forall c | c in "a." :: c == 'a' || c == '.';
  }

  lemma TornExample()
    ensures CountsAt(2, TORN, 0) && Torn(TORN, 0) && forall k :: CountsAt(2, TORN, k) ==> k == 0
  {
    hide Find, Step, IsIdChar;
    TornExampleScan();
    assert TORN[1..] == ['C'] + ([':'] + "a. ]");
    FindAfterTag(Opened, "a. ]");
  }

  lemma TornExampleScan()
    ensures Find(SawColon, "a. ]") == Hit(4, "a.", false)
  {
    hide Find;
    assert forall c | c in "a." :: c == 'a' || c == '.';
    assert AllSpace(" ");
    FindId(SawColon, "a.", " ", "");
    assert "a." + (" " + ("]" + "")) == "a. ]";
  }

  /******* Conservation *******/

  /** `before` is the pieces laid end to end with only whitespace between them, then only
      whitespace, then `after`. */
  ghost predicate Conserved(before: string, pieces: seq<string>, after: string) {
    exists ps: seq<Piece>, gap: string ::
      Texts(ps) == pieces && OnlySpaceBetween(ps) && AllSpace(gap) && before == Weave(ps) + gap + after
  }

  lemma ConservedBy(ps: seq<Piece>, gap: string, before: string, pieces: seq<string>, after: string)
    requires Texts(ps) == pieces && OnlySpaceBetween(ps) && AllSpace(gap) && before == Weave(ps) + gap + after
    ensures Conserved(before, pieces, after)
  {
  }

  lemma NothingHanded(s: string)
    ensures Conserved(s, [], s)
  {
    assert Weave([]) + "" + s == s;
    ConservedBy([], "", s, [], s);
  }

  /** Conservation composes over appended input. */
  lemma ConservedThen(a: string, h1: seq<string>, b: string, t: string, h2: seq<string>, c: string)
    requires Conserved(a, h1, b) && Conserved(b + t, h2, c)
    ensures Conserved(a + t, h1 + h2, c)
  {
    hide AllSpace, OnlySpaceBetween, Texts;
    var ps: seq<Piece>, g: string :|
      Texts(ps) == h1 && OnlySpaceBetween(ps) && AllSpace(g) && a == Weave(ps) + g + b;
    var qs: seq<Piece>, k: string :|
      Texts(qs) == h2 && OnlySpaceBetween(qs) && AllSpace(k) && b + t == Weave(qs) + k + c;
    ThreeThenOne(Weave(ps), g, b, t);
    if qs == [] {
      assert Weave(qs) + k + c == k + c;
      FourToThree(Weave(ps), g, k, c);
      SpacesJoin(g, k);
      assert Texts(qs) == [];
      assert h1 + h2 == h1;
      ConservedBy(ps, g + k, a + t, h1 + h2, c);
    } else {
      var widened := WidenFirst(g, qs);
      PiecesJoin(ps, widened);
      FiveToThree(Weave(ps), g, Weave(qs), k, c);
      ConservedBy(ps + widened, k, a + t, h1 + h2, c);
    }
  }

  lemma ThreeThenOne(w: string, g: string, b: string, t: string)
    ensures (w + g + b) + t == w + (g + (b + t))
  {
  }

  lemma FourToThree(w: string, g: string, k: string, c: string)
    ensures w + (g + (k + c)) == w + (g + k) + c
  {
  }

  lemma FiveToThree(w: string, g: string, v: string, k: string, c: string)
    ensures w + (g + (v + k + c)) == (w + (g + v)) + k + c
  {
  }

  lemma SpacesJoin(g: string, k: string)
    requires AllSpace(g) && AllSpace(k)
    ensures AllSpace(g + k)
  {
    hide IsSpace;
  }

  lemma PiecesJoin(ps: seq<Piece>, qs: seq<Piece>)
    requires OnlySpaceBetween(ps) && OnlySpaceBetween(qs)
    ensures OnlySpaceBetween(ps + qs)
    ensures Texts(ps + qs) == Texts(ps) + Texts(qs)
    ensures Weave(ps + qs) == Weave(ps) + Weave(qs)
  {
    hide AllSpace;
    WeaveAppend(ps, qs);
  }

  lemma WidenFirst(g: string, qs: seq<Piece>) returns (widened: seq<Piece>)
    requires qs != [] && AllSpace(g) && OnlySpaceBetween(qs)
    ensures Weave(widened) == g + Weave(qs) && Texts(widened) == Texts(qs) && OnlySpaceBetween(widened)
  {
    hide AllSpace, Weave;
    var first := Piece(g + qs[0].gap, qs[0].text);
    widened := [first] + qs[1..];
    SpacesJoin(g, qs[0].gap);
    WeaveCons(first, qs[1..]);
    assert qs == [qs[0]] + qs[1..];
    WeaveCons(qs[0], qs[1..]);
    FourJoin(g, qs[0].gap, qs[0].text, Weave(qs[1..]));
  }

  lemma FourJoin(g: string, h: string, t: string, w: string)
    ensures (g + h + t) + w == g + ((h + t) + w)
  {
  }

  lemma WeaveOne(p: Piece)
    ensures Weave([p]) == p.gap + p.text
  {
    assert [p] == [p] + [];
    WeaveCons(p, []);
    assert p.gap + p.text + "" == p.gap + p.text;
  }

  /** All parts but the last, then the last as what remains. */
  lemma ThreeJoin(w: string, g: string, t: string)
    ensures w + (g + t) == w + g + t
  {
  }

  lemma TextsInit(ps: seq<Piece>)
    requires ps != []
    ensures var n := |ps| - 1; Texts(ps[..n]) == Texts(ps)[..n] && Texts(ps)[n] == ps[n].text
  {
  }

  lemma SplitConserved(s: string)
    ensures var parts := Split(s); Conserved(s, parts[..|parts| - 1], parts[|parts| - 1])
  {
    hide AllSpace, Split, Pieces, Conserved, Texts, Weave;
    NoSpaceNeeded();
    SplitWeaves("", s);
    var ps := Pieces("", s);
    var n := |ps| - 1;
    assert ps == ps[..n] + [ps[n]];
    WeaveAppend(ps[..n], [ps[n]]);
    WeaveOne(ps[n]);
    assert "" + s == s;
    ThreeJoin(Weave(ps[..n]), ps[n].gap, ps[n].text);
    TextsInit(ps);
    ConservedBy(ps[..n], ps[n].gap, s, Split(s)[..n], ps[n].text);
  }

  lemma StripConserved(s: string)
    ensures Conserved(s, [Strip(s)], "")
  {
    hide AllSpace, Strip, Conserved;
    var left, right := StripWeaves(s);
    var p := Piece(left, Strip(s));
    WeaveOne(p);
    assert s == Weave([p]) + right + "";
    ConservedBy([p], right, s, [Strip(s)], "");
  }

  /** One feed conserves text unless it discards: the text buffered so far is the pieces handed to
      validation, in order, followed by the new buffer, up to whitespace at the cuts. */
  lemma FeedConserves(c: Config, st: State, text: string)
    requires c.Valid() && !Feed(c, st, text).dropped
    ensures Conserved(st.buffer + text, Feed(c, st, text).handed, Feed(c, st, text).state.buffer)
  {
    hide CitedIds, Strip, Split, TrailingMarkers, ValidateBatch, Conserved, Blank, NonBlank;
    var s := st.buffer + text;
    if CitedIds(c.order, s) == [] || |Split(s)| == 1 {
      NothingHanded(s);
    } else {
      FeedBatch(c, s);
      SplitConserved(s);
      var parts := Split(s);
      var last := parts[|parts| - 1];
      if CitedIds(c.order, last) != [] {
        StripConserved(last);
        assert last + "" == last && s + "" == s;
        ConservedThen(s, parts[..|parts| - 1], last, "", [Strip(last)], "");
      }
    }
  }

  /** What finish hands over is the stripped buffer, plus the default marker it may append. */
  lemma FinishConserves(c: Config, st: State)
    requires c.Valid()
    ensures var leftover := Strip(st.buffer);
      leftover != "" ==> Conserved(leftover + ClosingMarker(c, leftover), Finish(c, st).handed, "")
    ensures Strip(st.buffer) == "" ==> Finish(c, st).handed == []
  {
    hide CitedIds, Split, TrailingMarkers, ValidateBatch, Conserved, Blank, NonBlank, SuffixText, Strip;
    var leftover := Strip(st.buffer);
    if leftover != "" {
      var text := leftover + ClosingMarker(c, leftover);
      NotBlank(text, 0);
      SplitPartsNotBlank(text);
      NonBlankAll(Split(text));
      SplitConserved(text);
      var parts := Split(text);
      var last := parts[|parts| - 1];
      PieceConserved(last);
      assert parts == parts[..|parts| - 1] + [last];
      assert last + "" == last && text + "" == text;
      ConservedThen(text, parts[..|parts| - 1], last, "", [last], "");
    }
  }

  lemma PieceConserved(s: string)
    ensures Conserved(s, [s], "")
  {
    hide AllSpace, Conserved;
    WeaveOne(Piece("", s));
    assert s == Weave([Piece("", s)]) + "" + "";
    NoSpaceNeeded();
    ConservedBy([Piece("", s)], "", s, [s], "");
  }

  lemma NoSpaceNeeded()
    ensures AllSpace("")
  {
  }

  /** A stream of feeds: the state it ends in, everything handed over, and whether any discarded. */
  datatype Streamed = Streamed(state: State, handed: seq<string>, dropped: bool)

  function FeedAll(c: Config, st: State, texts: seq<string>): Streamed
    requires c.Valid()
    decreases |texts|
  {
    if texts == [] then Streamed(st, [], false)
    else
      var e := Feed(c, st, texts[0]);
      var rest := FeedAll(c, e.state, texts[1..]);
      Streamed(rest.state, e.handed + rest.handed, e.dropped || rest.dropped)
  }

  /** Over any number of feeds of arbitrary pieces, raising ones included, none of which discards:
      the stream is what was handed to validation, in order, then the buffer. */
  lemma {:induction false} StreamConserves(c: Config, st: State, texts: seq<string>)
    requires c.Valid() && !FeedAll(c, st, texts).dropped
    ensures Conserved(st.buffer + Flatten(texts), FeedAll(c, st, texts).handed, FeedAll(c, st, texts).state.buffer)
    decreases |texts|
  {
    hide Feed, Conserved;
    if texts == [] {
      assert st.buffer + "" == st.buffer;
      NothingHanded(st.buffer);
    } else {
      var e := Feed(c, st, texts[0]);
      FeedConserves(c, st, texts[0]);
      var rest := FeedAll(c, e.state, texts[1..]);
      StreamConserves(c, e.state, texts[1..]);
      ConservedThen(st.buffer + texts[0], e.handed, e.state.buffer, Flatten(texts[1..]), rest.handed, rest.state.buffer);
      assert (st.buffer + texts[0]) + Flatten(texts[1..]) == st.buffer + Flatten(texts);
    }
  }

  /** A whole answer, fed from an empty buffer in arbitrary pieces and finished: unless a feed
      discards, the answer up to trailing whitespace, then the one default marker finish may append,
      is exactly the pieces handed to validation. Nothing is lost, duplicated or reordered. */
  lemma AnswerConserved(c: Config, texts: seq<string>, numbers: Numbers) returns (core: string, blank: string, closing: string)
    requires c.Valid() && !FeedAll(c, State("", numbers), texts).dropped
    ensures var fed := FeedAll(c, State("", numbers), texts); var end := Finish(c, fed.state);
      && Flatten(texts) == core + blank && AllSpace(blank)
      && Conserved(core + closing, fed.handed + end.handed, "")
      && (closing == "" || (c.fallback.Some? && closing == SuffixText([c.fallback.value])))
  {
    hide Feed, Finish, Conserved, CitedIds, SuffixText, Strip;
    var st := State("", numbers);
    var fed := FeedAll(c, st, texts);
    StreamConserves(c, st, texts);
    FinishConserves(c, fed.state);
    assert "" + Flatten(texts) == Flatten(texts);
    var buffer := fed.state.buffer;
    var left, right := StripWeaves(buffer);
    var leftover := Strip(buffer);
    core, blank := ConservedTrim(Flatten(texts), fed.handed, buffer, left, leftover, right);
    if leftover == "" {
      closing := "";
      assert Finish(c, fed.state).handed == [];
      assert fed.handed + [] == fed.handed;
      assert core + "" == core;
    } else {
      closing := ClosingMarker(c, leftover);
      ConservedThen(core, fed.handed, leftover, closing, Finish(c, fed.state).handed, "");
    }
  }

  lemma ConservedTrim(a: string, handed: seq<string>, b: string, left: string, mid: string, right: string)
    returns (core: string, blank: string)
    requires Conserved(a, handed, b) && b == left + mid + right && AllSpace(left) && AllSpace(right)
    ensures a == core + blank && AllSpace(blank) && Conserved(core, handed, mid)
  {
    hide AllSpace, OnlySpaceBetween, Texts;
    var ps: seq<Piece>, g: string :|
      Texts(ps) == handed && OnlySpaceBetween(ps) && AllSpace(g) && a == Weave(ps) + g + b;
    core := Weave(ps) + (g + left) + mid;
    blank := right;
    FiveSplit(Weave(ps), g, left, mid, right);
    SpacesJoin(g, left);
    ConservedBy(ps, g + left, core, handed, mid);
  }

  lemma FiveSplit(w: string, g: string, l: string, m: string, r: string)
    ensures w + g + (l + m + r) == (w + (g + l) + m) + r
  {
  }
}
