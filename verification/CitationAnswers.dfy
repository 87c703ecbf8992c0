/**
 Whole answers through the citation buffer of src/fastrag/citations.py: what the sentences returned are
 in terms of the text received, and two small answers worked out in full.
 */
module CitationAnswers {
  import opened Common
  import opened MarkerText
  import opened SentenceSplitter
  import opened Citations
  import opened CitationRuns

  /******* Every sentence is a piece of the answer, rendered *******/

  /** The configuration a call runs under. */
  function Used(c: Config, call: Call): Config {
    if call.CallSalvage? then c.Forced() else c
  }

  /** A call that returned: one sentence for each piece handed over, in order, each the rendering of its
      piece under `numbers`, back-filled from its own batch. */
  ghost predicate Renders(c: Config, call: Call, numbers: Numbers, e: Effect)
    requires c.Valid()
  {
    e.outcome.Rendered? &&
    RendersAll(c.order, BackFill(c.order, Used(c, call).fallback, e.handed), numbers, e.handed, e.outcome.sentences)
  }

  lemma {:induction false} NonBlankKept(parts: seq<string>)
    ensures forall p | p in NonBlank(parts) :: !Blank(p)
    ensures NonBlank(NonBlank(parts)) == NonBlank(parts)
    decreases |parts|
  {
    hide Blank;
    if parts != [] {
      NonBlankKept(parts[1..]);
    }
    NonBlankAll(NonBlank(parts));
  }

  /** No piece handed over is blank. */
  lemma HandedNotBlank(c: Config, st: State, call: Call)
    requires c.Valid()
    ensures NonBlank(Perform(c, st, call).handed) == Perform(c, st, call).handed
  {
    hide Split, CitedIds, ValidateBatch, TrailingMarkers, NonBlank, SuffixText;
    match call
    case CallFeed(text) => FeedNotBlank(c, st, text);
    case CallFinish => FinishNotBlank(c, st);
    case CallSalvage(raw) => FinishNotBlank(c.Forced(), State(Strip(raw), st.numbers));
  }

  lemma FinishNotBlank(c: Config, st: State)
    requires c.Valid()
    ensures NonBlank(Finish(c, st).handed) == Finish(c, st).handed
  {
    hide Split, CitedIds, ValidateBatch, NonBlank, SuffixText, Strip;
    var leftover := Strip(st.buffer);
    NonBlankKept(Split(leftover + ClosingMarker(c, leftover)));
    NonBlankNone();
  }

  lemma NonBlankNone()
    ensures NonBlank([]) == []
  {
  }

  lemma FeedNotBlank(c: Config, st: State, text: string)
    requires c.Valid()
    ensures NonBlank(Feed(c, st, text).handed) == Feed(c, st, text).handed
  {
    hide Split, CitedIds, ValidateBatch, TrailingMarkers, NonBlank, Strip;
    var parts := Split(st.buffer + text);
    var complete, last := NonBlank(parts[..|parts| - 1]), parts[|parts| - 1];
    NonBlankNone();
    NonBlankKept(parts[..|parts| - 1]);
    if !Blank(last) {
      StripStripped(last);
      NonBlankAll(complete + [Strip(last)]);
    }
  }

  lemma CallRenders(c: Config, st: State, call: Call)
    requires c.Valid() && Numbered(c.order, st.numbers) && Perform(c, st, call).outcome.Rendered?
    ensures Renders(c, call, Perform(c, st, call).state.numbers, Perform(c, st, call))
  {
    hide Numbered, RendersAll, ValidateBatch, BackFill, CitedIds, Split, NonBlank, TrailingMarkers, Strip, SuffixText;
    var e := Perform(c, st, call);
    HandedNotBlank(c, st, call);
    if e.handed == [] {
      RendersNothing(c.order, BackFill(c.order, Used(c, call).fallback, []), e.state.numbers);
    } else {
      BatchRendersAll(Used(c, call), st.numbers, e.handed);
    }
  }

  lemma BatchRendersAll(c: Config, numbers: Numbers, parts: seq<string>)
    requires c.Valid() && Numbered(c.order, numbers)
    ensures var r := ValidateBatch(c.order, c.fallback, numbers, parts);
      r.outcome.Rendered? ==>
        RendersAll(c.order, BackFill(c.order, c.fallback, parts), r.numbers, NonBlank(parts), r.outcome.sentences)
  {
    hide CitedIds, Numbered, RenderParts, RendersAll, BackFill, NonBlank;
    var fill := BackFill(c.order, c.fallback, parts);
    if fill != [] {
      RenderPartsRenders(c.order, fill, numbers, parts);
    }
  }

  /** Later numbering does not change a rendering. */
  lemma RendersStable(c: Config, call: Call, earlier: Numbers, later: Numbers, e: Effect)
    requires c.Valid() && Renders(c, call, earlier, e) && Extends(earlier, later)
    ensures Renders(c, call, later, e)
  {
    hide BackFill, SentenceTokens, SentenceIds, RenderTokens, Unlex, Extends;
    var fill := BackFill(c.order, Used(c, call).fallback, e.handed);
    forall i | 0 <= i < |e.handed| ensures RendersPart(c.order, fill, later, e.handed[i], e.outcome.sentences[i]) {
      assert RendersPart(c.order, fill, earlier, e.handed[i], e.outcome.sentences[i]);
      PartStable(c.order, fill, earlier, later, e.handed[i], e.outcome.sentences[i]);
    }
  }

  lemma PartStable(order: seq<string>, fill: seq<string>, earlier: Numbers, later: Numbers, part: string, text: string)
    requires ValidOrder(order) && RendersPart(order, fill, earlier, part, text) && Extends(earlier, later)
    ensures RendersPart(order, fill, later, part, text)
  {
    hide SentenceTokens, SentenceIds, RenderTokens, Unlex;
    SentenceMarks(order, fill, part);
    RenderStable(earlier, later, SentenceTokens(order, fill, part));
  }

  ghost predicate AllReturn(effects: seq<Effect>) { forall e | e in effects :: e.outcome.Rendered? }

  /** Over any sequence of calls that all return: each call's sentences are, one for one and in order, the
      renderings of the pieces it handed over, under the numbering the whole run ends with. */
  lemma {:induction false} RunRenders(c: Config, st: State, calls: seq<Call>)
    requires c.Valid() && Numbered(c.order, st.numbers) && AllReturn(Run(c, st, calls))
    ensures forall k | 0 <= k < |calls| :: Renders(c, calls[k], Final(c, st, calls).numbers, Run(c, st, calls)[k])
    decreases |calls|
  {
    hide Numbered, Renders, Perform, Extends;
    if calls != [] {
      var e := Perform(c, st, calls[0]);
      var rest := Run(c, e.state, calls[1..]);
      assert e in Run(c, st, calls) && forall x :: x in rest ==> x in Run(c, st, calls);
      CallGrounded(c, st, calls[0]);
      CallRenders(c, st, calls[0]);
      RunRenders(c, e.state, calls[1..]);
      RunGrounded(c, e.state, calls[1..]);
      RendersStable(c, calls[0], e.state.numbers, Final(c, st, calls).numbers, e);
      forall k | 0 <= k < |calls| ensures Renders(c, calls[k], Final(c, st, calls).numbers, Run(c, st, calls)[k]) {
        if k > 0 {
          assert calls[k] == calls[1..][k - 1] && Run(c, st, calls)[k] == rest[k - 1];
        }
      }
    }
  }

  /** The calls a stream makes: a feed for every piece, then a finish. */
  function Streaming(texts: seq<string>): seq<Call> {
    if texts == [] then [CallFinish] else [CallFeed(texts[0])] + Streaming(texts[1..])
  }

  function Handed(effects: seq<Effect>): seq<string> {
    if effects == [] then [] else effects[0].handed + Handed(effects[1..])
  }

  lemma {:induction false} StreamHands(c: Config, st: State, texts: seq<string>)
    requires c.Valid()
    ensures var fed := FeedAll(c, st, texts);
      Handed(Run(c, st, Streaming(texts))) == fed.handed + Finish(c, fed.state).handed
    decreases |texts|
  {
    hide Feed, Finish;
    if texts == [] {
      assert Streaming(texts)[1..] == [];
      var effects := Run(c, st, Streaming(texts));
      assert effects == [Finish(c, st)];
      assert Handed(effects[1..]) == [];
    } else {
      var e := Feed(c, st, texts[0]);
      StreamHands(c, e.state, texts[1..]);
      assert Streaming(texts)[1..] == Streaming(texts[1..]);
      assert Run(c, st, Streaming(texts)) == [e] + Run(c, e.state, Streaming(texts[1..]));
      HandedCons(e, Run(c, e.state, Streaming(texts[1..])));
      var rest := FeedAll(c, e.state, texts[1..]);
      assert e.handed + (rest.handed + Finish(c, rest.state).handed) == (e.handed + rest.handed) + Finish(c, rest.state).handed;
    }
  }

  lemma HandedCons(e: Effect, rest: seq<Effect>)
    ensures Handed([e] + rest) == e.handed + Handed(rest)
  {
    assert ([e] + rest)[1..] == rest;
  }

  /** A whole answer that raises nowhere and discards nothing: the answer up to trailing whitespace, with
      the one default marker finish may append, is the pieces handed over, in order; and the sentences
      returned are the renderings of those pieces, one for one, under the final numbering. */
  lemma AnswerRendered(c: Config, texts: seq<string>) returns (core: string, blank: string, closing: string)
    requires c.Valid() && !FeedAll(c, State("", map[]), texts).dropped
    requires AllReturn(Run(c, State("", map[]), Streaming(texts)))
    ensures var calls, start := Streaming(texts), State("", map[]); var effects := Run(c, start, calls);
      && Flatten(texts) == core + blank && AllSpace(blank)
      && Conserved(core + closing, Handed(effects), "")
      && (closing == "" || (c.fallback.Some? && closing == SuffixText([c.fallback.value])))
      && forall k | 0 <= k < |calls| :: Renders(c, calls[k], Final(c, start, calls).numbers, effects[k])
  {
    hide Renders, Conserved, SuffixText, Run, Final, FeedAll, Finish, AllReturn;
    var start := State("", map[]);
    assert Numbered(c.order, start.numbers);
    core, blank, closing := AnswerConserved(c, texts, map[]);
    StreamHands(c, start, texts);
    RunRenders(c, start, Streaming(texts));
  }

  /******* When a marker is missing *******/

  /** The text holds no marker but torn ones. */
  ghost predicate Markerless(m: nat, s: string) { forall k :: CountsAt(m, s, k) ==> Torn(s, k) }

  lemma MarkerlessParts(order: seq<string>, s: string)
    requires ValidOrder(order)
    ensures Markerless(|order|, s) <==> forall p | p in Split(s) :: CitedIds(order, p) == []
  {
    hide CitedIds, Split, HasMarker, Torn, CountsAt;
    SplitKeepsMarkers(|order|, s);
    forall p | p in Split(s) ensures CitedIds(order, p) != [] <==> HasMarker(|order|, p) {
      SearchFindsMarkers(order, p);
    }
  }

  /** Feeding never raises for want of a marker. */
  lemma FeedNeverLacks(c: Config, st: State, text: string)
    requires c.Valid() && Numbered(c.order, st.numbers)
    ensures !Feed(c, st, text).outcome.NoMarker?
  {
    hide CitedIds, Split, NonBlank, ValidateBatch, Numbered, Strip, TrailingMarkers;
    var e := Feed(c, st, text);
    if e.handed != [] {
      BatchRaises(c, st.numbers, e.handed);
      TrailingFrom(c.order, e.handed);
    }
  }

  /** Finishing does, exactly when there is no default chunk and what is left is not blank and holds no
      marker but torn ones. */
  lemma FinishLacks(c: Config, st: State)
    requires c.Valid() && Numbered(c.order, st.numbers)
    ensures Finish(c, st).outcome.NoMarker? <==>
            c.fallback.None? && Strip(st.buffer) != "" && Markerless(|c.order|, Strip(st.buffer))
  {
    hide CitedIds, Split, NonBlank, ValidateBatch, Numbered, Strip, Markerless, SuffixText;
    var leftover := Strip(st.buffer);
    var text := leftover + ClosingMarker(c, leftover);
    if leftover != "" {
      LeftoverNotBlank(leftover, ClosingMarker(c, leftover));
      SplitPartsNotBlank(text);
      NonBlankAll(Split(text));
      BatchRaises(c, st.numbers, Split(text));
      assert c.fallback.None? ==> text == leftover;
      MarkerlessParts(c.order, leftover);
    }
  }

  lemma FeedNumbered(c: Config, st: State, text: string)
    requires c.Valid() && Numbered(c.order, st.numbers)
    ensures Numbered(c.order, Feed(c, st, text).state.numbers)
  {
    hide Feed, Numbered, Extends, Grounded;
    FeedGrounded(c, st, text);
  }

  /** Every feed of a stream returns. */
  predicate FeedsReturn(c: Config, st: State, texts: seq<string>)
    requires c.Valid()
    decreases |texts|
  {
    texts == [] || (Feed(c, st, texts[0]).outcome.Rendered? && FeedsReturn(c, Feed(c, st, texts[0]).state, texts[1..]))
  }

  /******* An answer over one context *******/

  /** With a default chunk, finishing text that is not blank fails only for a marker that names no
      context, and otherwise renders something. */
  lemma SingleContextFinishes(c: Config, st: State)
    requires c.Valid() && |c.order| == 1 && c.fallback == Some(c.order[0])
    requires Numbered(c.order, st.numbers) && Strip(st.buffer) != ""
    ensures Finish(c, st).outcome.Rendered? && Finish(c, st).outcome.sentences != []
  {
    hide CitedIds, SentenceIds, BackFill, KnownIds, Strip, Numbered, Finish;
    FinishCites(c, st);
    var handed := Finish(c, st).handed;
    forall p | p in handed ensures KnownIds(c.order, SentenceIds(c.order, BackFill(c.order, c.fallback, handed), p)) {
      SingleContextKnown(c, handed, p);
    }
  }

  lemma SingleContextKnown(c: Config, parts: seq<string>, p: string)
    requires c.Valid() && |c.order| == 1 && c.fallback == Some(c.order[0])
    ensures KnownIds(c.order, SentenceIds(c.order, BackFill(c.order, c.fallback, parts), p))
  {
    hide CitedIds, Strip;
    SingleContextIds(c.order, Strip(p));
    TrailingFrom(c.order, parts);
    if TrailingMarkers(c.order, parts) != [] {
      var q :| q in parts && TrailingMarkers(c.order, parts) == CitedIds(c.order, q);
      SingleContextIds(c.order, q);
    }
  }

  /** Feeding a text the splitter leaves whole only fills the buffer. */
  lemma FeedKeepsWhole(c: Config, st: State, text: string)
    requires c.Valid() && |Split(st.buffer + text)| == 1
    ensures Feed(c, st, text) == Effect(State(st.buffer + text, st.numbers), Rendered([]), [], false)
  {
    hide Split, CitedIds;
  }

  lemma OneLetter(s: string)
    requires |s| == 1
    ensures Split(s) == [s]
  {
  }

  /******* A sentence, and then none *******/

  const CITED := "[C:a]"
  const MIXED := "[C:a] x"

  lemma CitedLexed(order: seq<string>)
    requires ValidOrder(order) && |order| == 2
    ensures ValidId("a") && CitedIds(order, CITED) == ["a"]
  {
    hide Lex, IsDigit, NormalizeText;
    assert ValidId("a");
    assert CITED + "" == CITED && Spell(Mark("a")) == CITED;
    LexSpelled(Mark("a"), "");
    LexNothing();
    assert Lex(CITED) == [Mark("a")] + [];
    NormalizeIsTokenwise(order, CITED);
    var us := NormalTokens(order, CITED);
    assert |us| == 1 && us[0] == Mark("a");
    assert us == [Mark("a")] + [];
    MarksCons(Mark("a"), []);
    MarksNone();
  }

  lemma LetterUncited(order: seq<string>)
    requires ValidOrder(order)
    ensures CitedIds(order, "x") == []
  {
    hide NormalizeText, CitedIds;
    SearchFindsMarkers(order, "x");
    LexUnfolds("x");
    LexNothing();
  }

  lemma MixedCut()
    ensures Split(MIXED) == [CITED, "x"]
  {
    hide NextCut;
    SpanEndIs(MIXED, 5, 6);
    assert IsBoundary(MIXED, 5);
    var c := NextCut(MIXED, 0);
    assert forall i | 1 <= i < 5 :: !IsSpace(MIXED[i]);
    assert c == 5 by {
      assert c <= 5;
    }
    OneLetter("x");
    assert MIXED[..5] == CITED && MIXED[6..] == "x";
  }

  lemma MixedCited(order: seq<string>)
    requires ValidOrder(order) && |order| == 2
    ensures CitedIds(order, MIXED) != []
  {
    hide CitedIds, HasMarker, NormalizeText;
    MixedCut();
    CitedLexed(order);
    SearchFindsMarkers(order, CITED);
    var k := PartMarkerWasWhole(2, MIXED, CITED);
    OccurrenceIsLexed(2, MIXED, k);
    SearchFindsMarkers(order, MIXED);
  }

  /** Two contexts, one cited sentence and then text without a marker: the sentence is returned, and
      finishing raises because nothing is left that cites. */
  lemma SentenceThenNone(order: seq<string>)
    requires ValidOrder(order) && |order| == 2 && "a" in order
    ensures var c := Config(order, None); var fed := Feed(c, State("", map[]), MIXED);
      && fed.outcome.Rendered? && |fed.outcome.sentences| == 1
      && Finish(c, fed.state).outcome.NoMarker?
  {
    hide CitedIds, Split, ValidateBatch, Strip, Numbered, TrailingMarkers, KnownIds;
    var c := Config(order, None);
    MixedCut();
    MixedCited(order);
    CitedLexed(order);
    LetterUncited(order);
    assert "" + MIXED == MIXED;
    NotBlank(CITED, 0);
    OnlyBatch(c);
    var fed := Feed(c, State("", map[]), MIXED);
    assert [CITED, "x"][..1] == [CITED];
    NonBlankAll([CITED]);
    assert fed.state.buffer == "x";
    StripTrimmed("x");
    NothingLeft(c, fed.state.numbers);
    OneLetter("x");
    assert "x" + "" == "x";
  }

  lemma OnlyBatch(c: Config)
    requires c.Valid() && |c.order| == 2 && "a" in c.order && c.fallback.None?
    ensures TrailingMarkers(c.order, [CITED]) != []
    ensures var r := ValidateBatch(c.order, c.fallback, map[], [CITED]);
      r.outcome.Rendered? && |r.outcome.sentences| == 1
  {
    hide CitedIds, ValidateBatch, Strip, Numbered, Blank;
    CitedLexed(c.order);
    TrailingFrom(c.order, [CITED]);
    assert CITED in [CITED];
    FreshNumbers(c.order);
    BatchRaises(c, map[], [CITED]);
    NotBlank(CITED, 0);
    NonBlankAll([CITED]);
    StripTrimmed(CITED);
    assert SentenceIds(c.order, BackFill(c.order, None, [CITED]), CITED) == ["a"];
    BatchRenders(c, map[], [CITED]);
  }

  lemma FreshNumbers(order: seq<string>)
    ensures Numbered(order, map[])
  {
  }

  lemma NothingLeft(c: Config, numbers: Numbers)
    requires c.Valid() && c.fallback.None?
    ensures ValidateBatch(c.order, c.fallback, numbers, ["x"]).outcome.NoMarker?
    ensures NonBlank(["x"]) == ["x"] && CitedIds(c.order, "x") == []
  {
    hide CitedIds, Strip;
    LetterUncited(c.order);
    TrailingFrom(c.order, ["x"]);
    assert TrailingMarkers(c.order, ["x"]) == [];
    NotBlank("x", 0);
    NonBlankAll(["x"]);
  }
}
