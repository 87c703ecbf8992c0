/**
 The citation buffer itself: the object of src/fastrag/citations.py with its fields, updated in
 place by loops, proved against the functions of Citations.dfy and CitationRuns.dfy.
 */
module CitationBuffer {
  import opened Common
  import opened MarkerText
  import opened SentenceSplitter
  import opened Citations
  import opened CitationRuns

  /******* Rendering keeps the edges of a stripped sentence *******/

  lemma {:induction false} LastKept(s: string, us: seq<Token>)
    requires s != "" && SameShape(Lex(s), us)
    ensures Unlex(us) != "" && (Unlex(us)[|Unlex(us)| - 1] == ']' || Unlex(us)[|Unlex(us)| - 1] == s[|s| - 1])
    decreases |s|
  {
    hide Find, Step, IsIdChar, IsDigit, Lex, Unlex, SameShape;
    LexUnfolds(s);
    var rest := if HitAt(s, 0) then s[1 + Find(Opened, s[1..]).len..] else s[1..];
    assert Lex(s)[1..] == Lex(rest);
    ShapeTail(Lex(s), us);
    SpellEnds(us[0]);
    UnlexUnfolds(us);
    if rest == "" {
      LexNothing();
      assert us == [us[0]];
      assert Unlex(us) == Spell(us[0]);
    } else {
      LastKept(rest, us[1..]);
    }
  }

  lemma ShapeTail(ts: seq<Token>, us: seq<Token>)
    requires ts != [] && SameShape(ts, us)
    ensures us != [] && SameShape(ts[1..], us[1..]) && |us| == |ts|
    ensures ts[0].Ch? || us[0].Ch? ==> ts[0] == us[0]
  {
  }

  lemma UnlexUnfolds(us: seq<Token>)
    requires us != []
    ensures Unlex(us) == Spell(us[0]) + Unlex(us[1..])
    ensures |us| == 1 ==> Unlex(us) == Spell(us[0])
  {
  }

  lemma SpellEnds(t: Token)
    ensures Spell(t) != "" && (!t.Ch? ==> Spell(t)[|Spell(t)| - 1] == ']')
  {
  }

  lemma FirstKept(s: string, us: seq<Token>)
    requires s != "" && SameShape(Lex(s), us)
    ensures Unlex(us) != "" && (Unlex(us)[0] == '[' || Unlex(us)[0] == s[0])
  {
    hide Find, Step, IsIdChar, IsDigit;
  }

  lemma EdgesKept(s: string, us: seq<Token>)
    requires s != "" && Trimmed(s) && SameShape(Lex(s), us)
    ensures Unlex(us) != "" && Trimmed(Unlex(us))
  {
    hide Lex, Unlex, IsIdChar, IsDigit;
    FirstKept(s, us);
    LastKept(s, us);
  }

  lemma {:induction false} SuffixEnds(ids: seq<string>)
    requires ids != []
    ensures SuffixText(ids) != "" && SuffixText(ids)[|SuffixText(ids)| - 1] == ']'
    decreases |ids|
  {
    hide Spell;
    SpellEnds(Mark(ids[0]));
    if |ids| > 1 {
      SuffixEnds(ids[1..]);
    } else {
      assert SuffixText(ids) == [' '] + (Spell(Mark(ids[0])) + "");
      assert Spell(Mark(ids[0])) + "" == Spell(Mark(ids[0]));
    }
  }

  /** A rendered sentence needs no stripping: the last strip in the code changes nothing. */
  lemma RenderedTrimmed(order: seq<string>, fill: seq<string>, numbers: Numbers, part: string)
    requires ValidOrder(order) && GoodFill(order, fill) && !Blank(part)
    ensures Trimmed(Unlex(RenderTokens(numbers, SentenceTokens(order, fill, part))))
  {
    hide Lex, Unlex, IsIdChar, IsDigit, IsSpace, Strip, NormalTokens, NormalizeText, SuffixText, GoodFill, SentenceTokens;
    var p := Strip(part);
    NormalizeIsTokenwise(order, p);
    EdgesKept(p, NormalTokens(order, p));
    var text := SentenceText(order, fill, part);
    if text != NormalizeText(order, p) {
      GoodFillNonEmpty(order, fill);
      SuffixEnds(fill);
      BracketIsText();
    }
    SentenceReadsBack(order, fill, part);
    RenderKeepsShape(numbers, Lex(text));
    EdgesKept(text, RenderTokens(numbers, Lex(text)));
  }

  lemma GoodFillNonEmpty(order: seq<string>, fill: seq<string>)
    requires GoodFill(order, fill)
    ensures fill != []
  {
  }

  /** What rendering makes of the sentence text of a part, in the terms of the batch specification. */
  lemma PartRenders(order: seq<string>, fill: seq<string>, numbers: Numbers, part: string)
    requires ValidOrder(order) && GoodFill(order, fill) && !Blank(part)
    ensures var ts := Lex(NormalizeText(order, SentenceText(order, fill, part)));
      && Marks(ts) == SentenceIds(order, fill, part) != []
      && Strip(Unlex(RenderTokens(numbers, ts))) == Unlex(RenderTokens(numbers, SentenceTokens(order, fill, part)))
  {
    hide NormalizeText, Lex, Strip, Unlex, RenderTokens, Marks, GoodFill, SentenceText, SentenceTokens, SentenceIds, Blank;
    SentenceReadsBack(order, fill, part);
    SentenceMarks(order, fill, part);
    GoodFillNonEmpty(order, fill);
    SentenceIdsNonEmpty(order, fill, part);
    RenderedTrimmed(order, fill, numbers, part);
    StripTrimmed(Unlex(RenderTokens(numbers, SentenceTokens(order, fill, part))));
  }

  lemma BracketIsText()
    ensures !IsSpace(']')
  {
  }

  lemma NormalizeBlank(order: seq<string>, p: string)
    requires ValidOrder(order)
    ensures NormalizeText(order, p) == "" <==> p == ""
  {
    hide IsIdChar, IsDigit, NormalizeText;
    NormalizeIsTokenwise(order, p);
    if p != "" {
      FirstKept(p, NormalTokens(order, p));
    }
  }

  /******* The buffer *******/

  function PickDefault(order: seq<string>, autoCite: bool): Option<string> {
    if order == [] then None
    else if |order| == 1 || autoCite then Some(order[0])
    else None
  }

  lemma AssignStep(order: seq<string>, numbers: Numbers, ids: seq<string>, i: nat)
    requires i < |ids|
    ensures Assign(order, numbers, ids[i..]) ==
      if ids[i] !in order then Assigned(numbers, Some(ids[i]))
      else Assign(order, SetDefault(numbers, ids[i]), ids[i + 1..])
  {
    assert ids[i..][1..] == ids[i + 1..];
  }

  lemma AssignNothing(order: seq<string>, numbers: Numbers, ids: seq<string>)
    requires ids == []
    ensures Assign(order, numbers, ids) == Assigned(numbers, None)
  {
  }

  class SentenceCitationBuffer {
    const contextOrder: seq<string>
    var numbers: Numbers
    var buffer: string
    var autoCite: bool
    var defaultChunkId: Option<string>

    ghost predicate Valid()
      reads this
    {
      Settings().Valid() && Numbered(contextOrder, numbers)
    }

    ghost function Settings(): Config
      reads this
    {
      Config(contextOrder, defaultChunkId)
    }

    ghost function Current(): State
      reads this
    {
      State(buffer, numbers)
    }

    constructor (contexts: seq<string>, autoCite: bool)
      requires ValidOrder(contexts)
      ensures Valid() && contextOrder == contexts && this.autoCite == autoCite
      ensures Current() == State("", map[]) && defaultChunkId == PickDefault(contexts, autoCite)
    {
      contextOrder := contexts;
      numbers := map[];
      buffer := "";
      this.autoCite := autoCite;
      defaultChunkId := PickDefault(contexts, autoCite);
    }

    method ValidateAndRender(sentence: string) returns (r: Outcome)
      requires Valid()
      modifies this`numbers
      ensures var text := NormalizeText(contextOrder, sentence); var ids := Marks(Lex(text));
        var a := Assign(contextOrder, old(numbers), ids);
        && (ids == [] ==> r == NoMarker && numbers == old(numbers))
        && (ids != [] ==> numbers == a.numbers)
        && (ids != [] && a.unknown.Some? ==> r == UnknownMarker(a.unknown.value))
        && (ids != [] && a.unknown.None? ==>
              r == Rendered([Strip(Unlex(RenderTokens(a.numbers, Lex(text))))]))
      ensures Valid()
    {
      hide Numbered, NormalizeText, Lex, Strip, Unlex, RenderTokens, Marks, Assign, Extends;
      var text := NormalizeText(contextOrder, sentence);
      var markers := Marks(Lex(text));
      if markers == [] {
        return NoMarker;
      }
      AssignNumbers(contextOrder, numbers, markers);
      var i := 0;
      while i < |markers|
        invariant 0 <= i <= |markers|
        invariant Numbered(contextOrder, numbers)
        invariant Assign(contextOrder, old(numbers), markers) == Assign(contextOrder, numbers, markers[i..])
      {
        var chunkId := markers[i];
        AssignStep(contextOrder, numbers, markers, i);
        if chunkId !in contextOrder {
          return UnknownMarker(chunkId);
        }
        SetDefaultNumbered(contextOrder, numbers, chunkId);
        if chunkId !in numbers {
          numbers := numbers[chunkId := |numbers| + 1];
        }
        i := i + 1;
      }
      AssignNothing(contextOrder, numbers, markers[i..]);
      r := Rendered([Strip(Unlex(RenderTokens(numbers, Lex(text))))]);
    }

    method ValidateBatch(parts: seq<string>) returns (r: Outcome)
      requires Valid()
      modifies this`numbers
      ensures BatchResult(numbers, r) == Citations.ValidateBatch(contextOrder, defaultChunkId, old(numbers), parts)
      ensures Valid()
    {
      hide Numbered, NormalizeText, Lex, Strip, Unlex, RenderTokens, Marks, CitedIds, GoodFill, SuffixText, Assign,
           SentenceTokens, SentenceIds, RenderParts;
      var trailing := TrailingMarkers(contextOrder, parts);
      if trailing == [] && defaultChunkId.Some? {
        trailing := [defaultChunkId.value];
      }
      if trailing == [] {
        return NoMarker;
      }
      ghost var before := numbers;
      FillGood(Settings(), parts);
      var rendered: seq<string> := [];
      var i := 0;
      while i < |parts|
        invariant 0 <= i <= |parts|
        invariant Numbered(contextOrder, numbers)
        invariant Prepends(rendered, RenderParts(contextOrder, trailing, before, parts),
                           RenderParts(contextOrder, trailing, numbers, parts[i..]))
      {
        var part := parts[i];
        ghost var here := numbers;
        RenderStep(contextOrder, trailing, here, parts, i);
        var sentence := NormalizeText(contextOrder, Strip(part));
        NormalizeBlank(contextOrder, Strip(part));
        if sentence != "" {
          if Marks(Lex(sentence)) == [] {
            sentence := sentence + SuffixText(trailing);
          }
          assert sentence == SentenceText(contextOrder, trailing, part);
          PartRenders(contextOrder, trailing, Assign(contextOrder, here, SentenceIds(contextOrder, trailing, part)).numbers, part);
          var one := ValidateAndRender(sentence);
          if !one.Rendered? {
            return one;
          }
          rendered := rendered + one.sentences;
        }
        i := i + 1;
      }
      assert parts[i..] == [];
      RenderNothing(contextOrder, trailing, numbers);
      assert rendered + [] == rendered;
      r := Rendered(rendered);
    }

    /** Receives one piece of the stream and returns the sentences it completes. */
    method Feed(text: string) returns (r: Outcome)
      requires Valid()
      modifies this`buffer, this`numbers
      ensures var e := CitationRuns.Feed(Settings(), old(Current()), text);
        Current() == e.state && r == e.outcome
      ensures Valid()
    {
      hide Numbered, CitedIds, Strip, Split, NonBlank, TrailingMarkers, Citations.ValidateBatch;
      buffer := buffer + text;
      if CitedIds(contextOrder, buffer) == [] {
        return Rendered([]);
      }
      var parts := Split(buffer);
      if |parts| == 1 {
        return Rendered([]);
      }
      buffer := parts[|parts| - 1];
      var complete := NonBlank(parts[..|parts| - 1]);
      if complete == [] {
        return Rendered([]);
      }
      var batch := complete;
      if Strip(buffer) != "" && CitedIds(contextOrder, buffer) != [] {
        batch := batch + [Strip(buffer)];
        buffer := "";
      }
      if TrailingMarkers(contextOrder, batch) == [] && defaultChunkId.None? {
        return Rendered([]);
      }
      r := ValidateBatch(batch);
    }

    /** Flushes what is left when the stream ends. */
    method Finish() returns (r: Outcome)
      requires Valid()
      modifies this`buffer, this`numbers
      ensures var e := CitationRuns.Finish(Settings(), old(Current()));
        Current() == e.state && r == e.outcome
      ensures Valid()
    {
      hide Numbered, CitedIds, Strip, Split, NonBlank, Citations.ValidateBatch, SuffixText;
      var leftover := Strip(buffer);
      buffer := "";
      if leftover == "" {
        return Rendered([]);
      }
      assert leftover + "" == leftover;
      if CitedIds(contextOrder, leftover) == [] && defaultChunkId.Some? {
        leftover := leftover + SuffixText([defaultChunkId.value]);
      }
      var parts := NonBlank(Split(leftover));
      if parts == [] {
        return Rendered([]);
      }
      r := ValidateBatch(parts);
    }

    /** Re-parses a complete answer with automatic citing forced; the settings are restored and the
        buffer emptied whether or not it raises. */
    method Salvage(rawAnswer: string) returns (r: Outcome)
      requires Valid()
      modifies this
      ensures var e := CitationRuns.Salvage(old(Settings()), old(Current()), rawAnswer);
        Current() == e.state && r == e.outcome
      ensures autoCite == old(autoCite) && defaultChunkId == old(defaultChunkId)
      ensures Valid()
    {
      hide Numbered, CitedIds, Strip, Split, NonBlank, Citations.ValidateBatch;
      var savedAuto, savedDefault := autoCite, defaultChunkId;
      autoCite := true;
      var picked := PickDefault(contextOrder, autoCite);
      defaultChunkId := if picked.Some? then picked else savedDefault;
      buffer := Strip(rawAnswer);
      r := Finish();
      autoCite, defaultChunkId := savedAuto, savedDefault;
      buffer := "";
    }

    /** The cited chunk ids in the order of their numbers: position i holds number i + 1. */
    method CitedChunks() returns (ids: seq<string>)
      requires Valid()
      ensures |ids| == |numbers|
      ensures forall i | 0 <= i < |ids| :: ids[i] in numbers && numbers[ids[i]] == i + 1 && ids[i] in contextOrder
    {
      ids := [];
      for n := 0 to |numbers|
        invariant |ids| == n
        invariant forall i | 0 <= i < n :: ids[i] in numbers && numbers[ids[i]] == i + 1
      {
        assert Held(numbers, n + 1);
        var id :| id in numbers && numbers[id] == n + 1;
        ids := ids + [id];
      }
    }
  }

  lemma RenderNothing(order: seq<string>, fill: seq<string>, numbers: Numbers)
    requires ValidOrder(order)
    ensures RenderParts(order, fill, numbers, []) == BatchResult(numbers, Rendered([]))
  {
  }

  /** `whole` is `rest` with the sentences in `done` in front. */
  ghost predicate Prepends(done: seq<string>, whole: BatchResult, rest: BatchResult) {
    if rest.outcome.Rendered? then whole == BatchResult(rest.numbers, Rendered(done + rest.outcome.sentences))
    else whole == rest
  }

  lemma RenderStep(order: seq<string>, fill: seq<string>, numbers: Numbers, parts: seq<string>, i: nat)
    requires ValidOrder(order) && i < |parts|
    ensures var here := RenderParts(order, fill, numbers, parts[i..]);
      if Blank(parts[i]) then here == RenderParts(order, fill, numbers, parts[i + 1..])
      else
        var a := Assign(order, numbers, SentenceIds(order, fill, parts[i]));
        if a.unknown.Some? then here == BatchResult(a.numbers, UnknownMarker(a.unknown.value))
        else Prepends([Unlex(RenderTokens(a.numbers, SentenceTokens(order, fill, parts[i])))], here,
                      RenderParts(order, fill, a.numbers, parts[i + 1..]))
  {
    hide Assign, SentenceIds, SentenceTokens, Unlex, RenderTokens, Strip, Blank;
    assert parts[i..][1..] == parts[i + 1..];
  }
}
