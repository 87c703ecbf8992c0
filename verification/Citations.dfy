/**
 What the citation buffer of src/fastrag/citations.py computes, as functions on values, and the
 theorems about whole runs of it. The class in CitationBuffer.dfy is proved against these functions.
 */
module Citations {
  import opened Common
  import opened MarkerText
  import opened SentenceSplitter

  /******* Stripping *******/

  function StripLeft(s: string): (r: string)
    ensures |r| <= |s| && s[|s| - |r|..] == r && AllSpace(s[..|s| - |r|])
    ensures r != "" ==> !IsSpace(r[0])
  {
    if s != "" && IsSpace(s[0]) then StripLeft(s[1..]) else s
  }

  function StripRight(s: string): (r: string)
    ensures r <= s && AllSpace(s[|r|..])
    ensures r != "" ==> !IsSpace(r[|r| - 1])
  {
    if s != "" && IsSpace(s[|s| - 1]) then StripRight(s[..|s| - 1]) else s
  }

  function Strip(s: string): (r: string)
    ensures Trimmed(r)
  {
    var l := StripLeft(s);
    var r := StripRight(l);
    assert r != "" ==> r[0] == l[0];
    r
  }

  predicate Trimmed(s: string) {
    s == "" || (!IsSpace(s[0]) && !IsSpace(s[|s| - 1]))
  }

  predicate Blank(s: string) { Strip(s) == "" }

  lemma StripTrimmed(s: string)
    requires Trimmed(s)
    ensures Strip(s) == s
  {
  }

  /** Stripping drops whitespace at the two ends and nothing else. */
  lemma StripWeaves(s: string) returns (left: string, right: string)
    ensures AllSpace(left) && AllSpace(right) && s == left + Strip(s) + right
  {
    hide IsSpace, AllSpace, StripLeft, StripRight;
    var l := StripLeft(s);
    left := s[..|s| - |l|];
    right := l[|StripRight(l)|..];
    assert s == left + l;
    assert l == StripRight(l) + right;
  }

  lemma BlankIsSpace(s: string)
    ensures Blank(s) <==> AllSpace(s)
  {
    if Blank(s) {
      var left, right := StripWeaves(s);
      assert s == left + right;
    } else {
      var left, right := StripWeaves(s);
      assert Strip(s)[0] in s;
    }
  }

  /******* Normalising *******/

  /** A bracketed number in range names a context by position. */
  function MapNumbered(order: seq<string>, t: Token): Token
    requires WellFormed(t)
  {
    if t.Num? && 1 <= Value(t.digits) <= |order| then Mark(order[Value(t.digits) - 1]) else t
  }

  /** With a single context, every unknown marker is read as that context. */
  function MapUnknown(order: seq<string>, t: Token): Token {
    if |order| == 1 && t.Mark? && t.id !in order then Mark(order[0]) else t
  }

  predicate ValidOrder(order: seq<string>) { forall id | id in order :: ValidId(id) }

  predicate AllWellFormed(ts: seq<Token>) { forall t | t in ts :: WellFormed(t) }

  function NumberedPass(order: seq<string>, ts: seq<Token>): (us: seq<Token>)
    requires ValidOrder(order) && AllWellFormed(ts)
    ensures SameShape(ts, us)
  {
    seq(|ts|, i requires 0 <= i < |ts| => MapNumbered(order, ts[i]))
  }

  function UnknownPass(order: seq<string>, ts: seq<Token>): (us: seq<Token>)
    requires ValidOrder(order) && AllWellFormed(ts)
    ensures SameShape(ts, us)
  {
    seq(|ts|, i requires 0 <= i < |ts| => MapUnknown(order, ts[i]))
  }

  /** The three substitutions of _normalize_text, each over the text the one before left. */
  function NormalizeText(order: seq<string>, s: string): string
    requires ValidOrder(order)
  {
    var tight := Unlex(Lex(s));
    var mapped := Unlex(NumberedPass(order, Lex(tight)));
    if |order| == 1 then Unlex(UnknownPass(order, Lex(mapped))) else mapped
  }

  function NormalTokens(order: seq<string>, s: string): (us: seq<Token>)
    requires ValidOrder(order)
    ensures SameShape(Lex(s), us)
  {
    UnknownPass(order, NumberedPass(order, Lex(s)))
  }

  /** The ids a findall over the normalised text returns. */
  function CitedIds(order: seq<string>, s: string): seq<string>
    requires ValidOrder(order)
  {
    Marks(Lex(NormalizeText(order, s)))
  }

  /** The three passes amount to one substitution over the tokens, and the result reads back. */
  lemma NormalizeIsTokenwise(order: seq<string>, s: string)
    requires ValidOrder(order)
    ensures NormalizeText(order, s) == Unlex(NormalTokens(order, s))
    ensures Lex(NormalizeText(order, s)) == NormalTokens(order, s)
  {
    Relex(s, Lex(s));
    var numbered := NumberedPass(order, Lex(s));
    Relex(s, numbered);
    if |order| != 1 {
      assert NormalTokens(order, s) == numbered;
    }
    Relex(s, NormalTokens(order, s));
  }

  lemma NormalizeIdempotent(order: seq<string>, s: string)
    requires ValidOrder(order)
    ensures NormalizeText(order, NormalizeText(order, s)) == NormalizeText(order, s)
    ensures NormalTokens(order, NormalizeText(order, s)) == NormalTokens(order, s)
  {
    NormalizeIsTokenwise(order, s);
    NormalizeIsTokenwise(order, NormalizeText(order, s));
    assert NormalTokens(order, NormalizeText(order, s)) == NormalTokens(order, s);
  }

  lemma {:induction false} MarksContain(ts: seq<Token>, t: Token)
    ensures t.Mark? && t in ts ==> t.id in Marks(ts)
    decreases |ts|
  {
    if ts != [] {
      MarksContain(ts[1..], t);
    }
  }

  lemma {:induction false} MarksFrom(ts: seq<Token>)
    ensures forall id | id in Marks(ts) :: Mark(id) in ts
    decreases |ts|
  {
    if ts != [] {
      MarksFrom(ts[1..]);
    }
  }

  lemma {:induction false} MarksAppend(ts: seq<Token>, us: seq<Token>)
    ensures Marks(ts + us) == Marks(ts) + Marks(us)
    decreases |ts|
  {
    hide Marks;
    if ts == [] {
      assert ts + us == us;
      MarksNone();
    } else {
      MarksAppend(ts[1..], us);
      assert ts + us == [ts[0]] + (ts[1..] + us) && ts == [ts[0]] + ts[1..];
      MarksCons(ts[0], ts[1..] + us);
      MarksCons(ts[0], ts[1..]);
    }
  }

  lemma MarksNone()
    ensures Marks([]) == []
  {
  }

  lemma MarksCons(t: Token, ts: seq<Token>)
    ensures Marks([t] + ts) == (if t.Mark? then [t.id] else []) + Marks(ts)
  {
    assert ([t] + ts)[1..] == ts;
  }

  /** The search in the code finds a marker exactly when the text holds one in some spelling. */
  lemma SearchFindsMarkers(order: seq<string>, s: string)
    requires ValidOrder(order)
    ensures CitedIds(order, s) != [] <==> HasMarker(|order|, s)
  {
    NormalizeIsTokenwise(order, s);
    var ts, us := Lex(s), NormalTokens(order, s);
    if HasMarker(|order|, s) {
      var t :| t in ts && Counts(|order|, t);
      var i :| 0 <= i < |ts| && ts[i] == t;
      assert us[i].Mark?;
      MarksContain(us, us[i]);
    }
    if Marks(us) != [] {
      MarksFrom(us);
      assert Mark(Marks(us)[0]) in us;
      var i :| 0 <= i < |us| && us[i].Mark?;
      assert Counts(|order|, ts[i]);
    }
  }

  /** With one context, every marker of a normalised text names it. */
  lemma SingleContextIds(order: seq<string>, s: string)
    requires ValidOrder(order) && |order| == 1
    ensures forall id | id in CitedIds(order, s) :: id in order
  {
    NormalizeIsTokenwise(order, s);
    MarksFrom(NormalTokens(order, s));
  }

  /******* The back-filled suffix *******/

  function Suffix(ids: seq<string>): seq<Token> {
    if ids == [] then [] else [Ch(' '), Mark(ids[0])] + Suffix(ids[1..])
  }

  function SuffixText(ids: seq<string>): string {
    if ids == [] then "" else [' '] + (Spell(Mark(ids[0])) + SuffixText(ids[1..]))
  }

  lemma {:induction false} LexSuffix(x: string, ids: seq<string>)
    requires forall id | id in ids :: ValidId(id)
    ensures Lex(x + SuffixText(ids)) == Lex(x) + Suffix(ids)
    decreases |ids|
  {
    hide Lex, IsIdChar, Spell;
    if ids == [] {
      assert x + SuffixText(ids) == x;
    } else {
      var rest := SuffixText(ids[1..]);
      SpelledOpens(Mark(ids[0]), rest);
      LexAppend(x, Spell(Mark(ids[0])) + rest);
      LexSpelled(Mark(ids[0]), rest);
      LexSuffix("", ids[1..]);
      assert "" + rest == rest;
      LexNothing();
      assert [] + Suffix(ids[1..]) == Suffix(ids[1..]);
      ConsAppend(Ch(' '), [Mark(ids[0])], Suffix(ids[1..]));
      assert [Ch(' ')] + [Mark(ids[0])] == [Ch(' '), Mark(ids[0])];
    }
  }

  lemma SpelledOpens(t: Token, rest: string)
    requires !t.Ch?
    ensures Spell(t) + rest != "" && (Spell(t) + rest)[0] == '['
  {
  }

  lemma {:induction false} MarksOfSuffix(ids: seq<string>)
    ensures Marks(Suffix(ids)) == ids
    decreases |ids|
  {
    if ids != [] {
      MarksOfSuffix(ids[1..]);
      assert Suffix(ids)[1..] == [Mark(ids[0])] + Suffix(ids[1..]);
      assert Suffix(ids)[1..][1..] == Suffix(ids[1..]);
    }
  }

  /******* Numbering *******/

  type Numbers = map<string, nat>

  /** Numbers handed out to the ids in turn; stops at the first id that is not a context. */
  datatype Assigned = Assigned(numbers: Numbers, unknown: Option<string>)

  function Assign(order: seq<string>, numbers: Numbers, ids: seq<string>): Assigned
    decreases |ids|
  {
    if ids == [] then Assigned(numbers, None)
    else if ids[0] !in order then Assigned(numbers, Some(ids[0]))
    else Assign(order, SetDefault(numbers, ids[0]), ids[1..])
  }

  function SetDefault(numbers: Numbers, id: string): Numbers {
    if id in numbers then numbers else numbers[id := |numbers| + 1]
  }

  ghost predicate Held(numbers: Numbers, n: nat) { exists id :: id in numbers && numbers[id] == n }

  /** The numbers are a bijection from some supplied chunk ids onto 1..n. */
  ghost predicate Numbered(order: seq<string>, numbers: Numbers) {
    && (forall id | id in numbers :: id in order && 1 <= numbers[id] <= |numbers|)
    && (forall a, b | a in numbers && b in numbers && numbers[a] == numbers[b] :: a == b)
    && (forall n | 1 <= n <= |numbers| :: Held(numbers, n))
  }

  /** `later` extends `earlier`: nothing renumbered, nothing dropped. */
  ghost predicate Extends(earlier: Numbers, later: Numbers) {
    forall id | id in earlier :: id in later && later[id] == earlier[id]
  }

  lemma ExtendsReflexive(a: Numbers)
    ensures Extends(a, a)
  {
  }

  lemma ExtendsTransitive(a: Numbers, b: Numbers, c: Numbers)
    requires Extends(a, b) && Extends(b, c)
    ensures Extends(a, c)
  {
  }

  lemma SetDefaultNumbered(order: seq<string>, numbers: Numbers, id: string)
    requires Numbered(order, numbers) && id in order
    ensures Numbered(order, SetDefault(numbers, id)) && Extends(numbers, SetDefault(numbers, id))
  {
    var next := SetDefault(numbers, id);
    if id !in numbers {
      assert next.Keys == numbers.Keys + {id};
      assert |next| == |numbers| + 1;
      forall n | 1 <= n <= |next| ensures Held(next, n) {
        if n == |next| {
          assert next[id] == n;
        } else {
          assert Held(numbers, n);
          var i :| i in numbers && numbers[i] == n;
          assert next[i] == n;
        }
      }
    }
  }

  /** Assigning keeps the bijection and extends it, also when it stops at an unknown id; it stops
      exactly when some id is not a context. */
  lemma {:induction false} AssignNumbers(order: seq<string>, numbers: Numbers, ids: seq<string>)
    requires Numbered(order, numbers)
    ensures var a := Assign(order, numbers, ids);
      && Numbered(order, a.numbers) && Extends(numbers, a.numbers)
      && (a.unknown.None? <==> forall id | id in ids :: id in order)
      && (a.unknown.None? ==> forall id | id in ids :: id in a.numbers)
      && (a.unknown.Some? ==> a.unknown.value in ids && a.unknown.value !in order)
    decreases |ids|
  {
    if ids != [] && ids[0] in order {
      SetDefaultNumbered(order, numbers, ids[0]);
      AssignNumbers(order, SetDefault(numbers, ids[0]), ids[1..]);
      assert forall id :: id in ids <==> id == ids[0] || id in ids[1..];
      assert ids[0] in SetDefault(numbers, ids[0]);
    }
  }

  /** A bijection onto 1..n with n distinct supplied ids never counts past the contexts. */
  lemma NumbersFit(order: seq<string>, numbers: Numbers)
    requires Numbered(order, numbers)
    ensures |numbers| <= |order|
  {
    var ids := set id | id in order;
    assert numbers.Keys <= ids;
    SubsetSize(numbers.Keys, ids);
    SetOfSeqSize(order);
  }

  lemma {:induction false} SubsetSize<T>(a: set<T>, b: set<T>)
    requires a <= b
    ensures |a| <= |b|
    decreases |a|
  {
    if a != {} {
      var x :| x in a;
      SubsetSize(a - {x}, b - {x});
    }
  }

  lemma {:induction false} SetOfSeqSize<T>(xs: seq<T>)
    ensures |set x | x in xs| <= |xs|
    decreases |xs|
  {
    if xs == [] {
      assert (set x | x in xs) == {};
    } else {
      SetOfSeqSize(xs[1..]);
      assert (set x | x in xs) == {xs[0]} + (set x | x in xs[1..]);
    }
  }

  /******* One batch *******/

  datatype Outcome =
    | Rendered(sentences: seq<string>)
    | NoMarker             // "generated sentence has no citation marker"
    | UnknownMarker(id: string)

  datatype BatchResult = BatchResult(numbers: Numbers, outcome: Outcome)

  /** The ids cited by the last part that cites anything. */
  function TrailingMarkers(order: seq<string>, parts: seq<string>): (ids: seq<string>)
    requires ValidOrder(order)
  {
    if parts == [] then []
    else
      var ids := CitedIds(order, parts[|parts| - 1]);
      if ids != [] then ids else TrailingMarkers(order, parts[..|parts| - 1])
  }

  /** The ids a part without markers is back-filled with: the trailing ones, else the fallback. */
  function BackFill(order: seq<string>, fallback: Option<string>, parts: seq<string>): seq<string>
    requires ValidOrder(order)
  {
    var ids := TrailingMarkers(order, parts);
    if ids == [] && fallback.Some? then [fallback.value] else ids
  }

  /** A part's own citations, or the back-fill when it has none. */
  function SentenceIds(order: seq<string>, fill: seq<string>, part: string): seq<string>
    requires ValidOrder(order)
  {
    var own := CitedIds(order, Strip(part));
    if own == [] then fill else own
  }

  function SentenceTokens(order: seq<string>, fill: seq<string>, part: string): seq<Token>
    requires ValidOrder(order)
  {
    var ts := NormalTokens(order, Strip(part));
    if Marks(ts) == [] then ts + Suffix(fill) else ts
  }

  function RenderToken(numbers: Numbers, t: Token): Token {
    if t.Mark? && t.id in numbers then Num(Show(numbers[t.id])) else t
  }

  function RenderTokens(numbers: Numbers, ts: seq<Token>): (us: seq<Token>)
    ensures |us| == |ts|
  {
    seq(|ts|, i requires 0 <= i < |ts| => RenderToken(numbers, ts[i]))
  }

  function RenderParts(order: seq<string>, fill: seq<string>, numbers: Numbers, parts: seq<string>): BatchResult
    requires ValidOrder(order)
    decreases |parts|
  {
    if parts == [] then BatchResult(numbers, Rendered([]))
    else if Blank(parts[0]) then RenderParts(order, fill, numbers, parts[1..])
    else
      var a := Assign(order, numbers, SentenceIds(order, fill, parts[0]));
      if a.unknown.Some? then BatchResult(a.numbers, UnknownMarker(a.unknown.value))
      else
        var rest := RenderParts(order, fill, a.numbers, parts[1..]);
        if rest.outcome.Rendered? then
          var text := Unlex(RenderTokens(a.numbers, SentenceTokens(order, fill, parts[0])));
          BatchResult(rest.numbers, Rendered([text] + rest.outcome.sentences))
        else rest
  }

  /** Every part of a batch is cited: by its own markers, else by the last cited part of the batch,
      else by the fallback. */
  function ValidateBatch(order: seq<string>, fallback: Option<string>, numbers: Numbers, parts: seq<string>)
    : BatchResult
    requires ValidOrder(order)
  {
    var fill := BackFill(order, fallback, parts);
    if fill == [] then BatchResult(numbers, NoMarker) else RenderParts(order, fill, numbers, parts)
  }

  /******* What a batch returns *******/

  function NonBlank(parts: seq<string>): (kept: seq<string>) {
    if parts == [] then []
    else (if Blank(parts[0]) then [] else [parts[0]]) + NonBlank(parts[1..])
  }

  lemma SentenceMarks(order: seq<string>, fill: seq<string>, part: string)
    requires ValidOrder(order)
    ensures Marks(SentenceTokens(order, fill, part)) == SentenceIds(order, fill, part)
  {
    hide Lex, IsIdChar, Strip;
    NormalizeIsTokenwise(order, Strip(part));
    var ts := NormalTokens(order, Strip(part));
    MarksAppend(ts, Suffix(fill));
    MarksOfSuffix(fill);
  }

  lemma RenderStable(earlier: Numbers, later: Numbers, ts: seq<Token>)
    requires Extends(earlier, later) && forall id | id in Marks(ts) :: id in earlier
    ensures RenderTokens(earlier, ts) == RenderTokens(later, ts)
  {
    forall i | 0 <= i < |ts| ensures RenderToken(earlier, ts[i]) == RenderToken(later, ts[i]) {
      MarksContain(ts, ts[i]);
    }
  }

  /** The text of a part in a batch whose numbers are `numbers`. */
  ghost predicate RendersPart(order: seq<string>, fill: seq<string>, numbers: Numbers, part: string, text: string)
    requires ValidOrder(order)
  {
    && text == Unlex(RenderTokens(numbers, SentenceTokens(order, fill, part)))
    && forall id | id in SentenceIds(order, fill, part) :: id in numbers
  }

  ghost predicate RendersAll(order: seq<string>, fill: seq<string>, numbers: Numbers, parts: seq<string>, texts: seq<string>)
    requires ValidOrder(order)
  {
    |texts| == |parts| && forall i | 0 <= i < |parts| :: RendersPart(order, fill, numbers, parts[i], texts[i])
  }

  lemma {:induction false} RenderPartsNumbers(order: seq<string>, fill: seq<string>, numbers: Numbers, parts: seq<string>)
    requires ValidOrder(order) && Numbered(order, numbers)
    ensures var r := RenderParts(order, fill, numbers, parts);
      Numbered(order, r.numbers) && Extends(numbers, r.numbers) && !r.outcome.NoMarker?
    decreases |parts|
  {
    hide Numbered, SentenceIds, SentenceTokens, Unlex, RenderTokens, Extends;
    if parts == [] {
      ExtendsReflexive(numbers);
    } else {
      if Blank(parts[0]) {
        RenderPartsNumbers(order, fill, numbers, parts[1..]);
      } else {
        AssignNumbers(order, numbers, SentenceIds(order, fill, parts[0]));
        var a := Assign(order, numbers, SentenceIds(order, fill, parts[0]));
        if a.unknown.None? {
          RenderPartsNumbers(order, fill, a.numbers, parts[1..]);
          ExtendsTransitive(numbers, a.numbers, RenderParts(order, fill, a.numbers, parts[1..]).numbers);
        }
      }
    }
  }

  /** A batch fails at an unknown id exactly when some sentence would cite one. */
  lemma {:induction false} RenderPartsSucceeds(order: seq<string>, fill: seq<string>, numbers: Numbers, parts: seq<string>)
    requires ValidOrder(order) && Numbered(order, numbers)
    ensures RenderParts(order, fill, numbers, parts).outcome.Rendered?
       <==> forall p | p in NonBlank(parts) :: KnownIds(order, SentenceIds(order, fill, p))
    decreases |parts|
  {
    hide Numbered, SentenceIds, SentenceTokens, Unlex, RenderTokens, Extends;
    if parts != [] {
      if Blank(parts[0]) {
        RenderPartsSucceeds(order, fill, numbers, parts[1..]);
      } else {
        AssignNumbers(order, numbers, SentenceIds(order, fill, parts[0]));
        var a := Assign(order, numbers, SentenceIds(order, fill, parts[0]));
        assert parts[0] in NonBlank(parts);
        if a.unknown.None? {
          RenderPartsSucceeds(order, fill, a.numbers, parts[1..]);
          assert forall p :: p in NonBlank(parts) <==> p == parts[0] || p in NonBlank(parts[1..]);
        }
      }
    }
  }

  /** A batch that succeeds renders every part that is not blank, in order. */
  lemma {:induction false} RenderPartsRenders(order: seq<string>, fill: seq<string>, numbers: Numbers, parts: seq<string>)
    requires ValidOrder(order) && Numbered(order, numbers)
    ensures var r := RenderParts(order, fill, numbers, parts);
      r.outcome.Rendered? ==> RendersAll(order, fill, r.numbers, NonBlank(parts), r.outcome.sentences)
    decreases |parts|
  {
    hide Numbered, SentenceIds, SentenceTokens, Unlex, RenderTokens, Extends, RendersPart, RendersAll, Assign, Strip, Blank;
    if parts == [] {
      RendersNothing(order, fill, numbers);
    } else {
      if Blank(parts[0]) {
        RenderPartsRenders(order, fill, numbers, parts[1..]);
        assert NonBlank(parts) == NonBlank(parts[1..]);
      } else {
        AssignNumbers(order, numbers, SentenceIds(order, fill, parts[0]));
        var a := Assign(order, numbers, SentenceIds(order, fill, parts[0]));
        if a.unknown.None? {
          RenderPartsRenders(order, fill, a.numbers, parts[1..]);
          FirstRendered(order, fill, a.numbers, parts);
          var rest := RenderParts(order, fill, a.numbers, parts[1..]);
          assert NonBlank(parts) == [parts[0]] + NonBlank(parts[1..]);
          if rest.outcome.Rendered? {
            var text := Unlex(RenderTokens(a.numbers, SentenceTokens(order, fill, parts[0])));
            RendersCons(order, fill, rest.numbers, parts[0], text, NonBlank(parts[1..]), rest.outcome.sentences);
          }
        }
      }
    }
  }

  lemma RendersNothing(order: seq<string>, fill: seq<string>, numbers: Numbers)
    requires ValidOrder(order)
    ensures RendersAll(order, fill, numbers, [], [])
  {
  }

  lemma RendersCons(order: seq<string>, fill: seq<string>, numbers: Numbers, part: string, text: string,
                    parts: seq<string>, texts: seq<string>)
    requires ValidOrder(order)
    requires RendersPart(order, fill, numbers, part, text) && RendersAll(order, fill, numbers, parts, texts)
    ensures RendersAll(order, fill, numbers, [part] + parts, [text] + texts)
  {
    hide RendersPart;
    forall i | 0 <= i < |parts| + 1
      ensures RendersPart(order, fill, numbers, ([part] + parts)[i], ([text] + texts)[i])
    {
      if i > 0 {
        assert ([part] + parts)[i] == parts[i - 1] && ([text] + texts)[i] == texts[i - 1];
      }
    }
  }

  predicate KnownIds(order: seq<string>, ids: seq<string>) { forall id | id in ids :: id in order }

  lemma FirstRendered(order: seq<string>, fill: seq<string>, numbers: Numbers, parts: seq<string>)
    requires ValidOrder(order) && Numbered(order, numbers) && parts != []
    requires forall id | id in SentenceIds(order, fill, parts[0]) :: id in numbers
    ensures RendersPart(order, fill, RenderParts(order, fill, numbers, parts[1..]).numbers, parts[0],
              Unlex(RenderTokens(numbers, SentenceTokens(order, fill, parts[0]))))
  {
    hide Numbered, SentenceIds, SentenceTokens, RenderParts, RenderTokens;
    RenderPartsNumbers(order, fill, numbers, parts[1..]);
    SentenceMarks(order, fill, parts[0]);
    RenderStable(numbers, RenderParts(order, fill, numbers, parts[1..]).numbers, SentenceTokens(order, fill, parts[0]));
  }

  /******* Grounded sentences *******/

  /** The text of a sentence before its markers are replaced by numbers. */
  function SentenceText(order: seq<string>, fill: seq<string>, part: string): string
    requires ValidOrder(order)
  {
    var text := NormalizeText(order, Strip(part));
    if Marks(Lex(text)) == [] then text + SuffixText(fill) else text
  }

  predicate GoodFill(order: seq<string>, fill: seq<string>) {
    && fill != []
    && (forall id | id in fill :: ValidId(id))
    && (|order| == 1 ==> KnownIds(order, fill))
  }

  /** Back-filling and normalising again, as the code does on the way to rendering, yields exactly
      the tokens of the part followed by the suffix: nothing merges and nothing is lost. */
  lemma SentenceReadsBack(order: seq<string>, fill: seq<string>, part: string)
    requires ValidOrder(order) && GoodFill(order, fill)
    ensures var text := SentenceText(order, fill, part); var ts := SentenceTokens(order, fill, part);
      Lex(text) == ts && NormalTokens(order, text) == ts && NormalizeText(order, text) == text
  {
    hide Lex, IsIdChar, Strip, IsSpace;
    var p := Strip(part);
    var base := NormalizeText(order, p);
    NormalizeIsTokenwise(order, p);
    NormalizeIdempotent(order, p);
    var ts := NormalTokens(order, p);
    if Marks(ts) == [] {
      LexSuffix(base, fill);
      SuffixUnchanged(order, fill);
      NormalPassesAppend(order, Lex(base), Suffix(fill));
      NormalizeIsTokenwise(order, base + SuffixText(fill));
      UnlexAppend(ts, Suffix(fill));
      UnlexSuffix(fill);
    }
  }

  lemma NormalPassesAppend(order: seq<string>, ts: seq<Token>, us: seq<Token>)
    requires ValidOrder(order) && AllWellFormed(ts) && AllWellFormed(us) && AllWellFormed(ts + us)
    ensures NumberedPass(order, ts + us) == NumberedPass(order, ts) + NumberedPass(order, us)
    ensures UnknownPass(order, NumberedPass(order, ts + us))
         == UnknownPass(order, NumberedPass(order, ts)) + UnknownPass(order, NumberedPass(order, us))
  {
  }

  lemma {:induction false} SuffixUnchanged(order: seq<string>, fill: seq<string>)
    requires ValidOrder(order) && forall id | id in fill :: ValidId(id)
    requires |order| == 1 ==> KnownIds(order, fill)
    ensures AllWellFormed(Suffix(fill))
    ensures NumberedPass(order, Suffix(fill)) == Suffix(fill)
    ensures UnknownPass(order, Suffix(fill)) == Suffix(fill)
    decreases |fill|
  {
    hide IsIdChar;
    if fill != [] {
      SuffixUnchanged(order, fill[1..]);
      var head := [Ch(' '), Mark(fill[0])];
      assert Suffix(fill) == head + Suffix(fill[1..]);
      assert ValidId(fill[0]);
      assert AllWellFormed(head);
      assert NumberedPass(order, head) == head && UnknownPass(order, head) == head;
      NormalPassesAppend(order, head, Suffix(fill[1..]));
    }
  }

  lemma {:induction false} UnlexAppend(ts: seq<Token>, us: seq<Token>)
    ensures Unlex(ts + us) == Unlex(ts) + Unlex(us)
    decreases |ts|
  {
    hide Spell;
    if ts == [] {
      assert ts + us == us;
    } else {
      UnlexAppend(ts[1..], us);
      assert (ts + us)[1..] == ts[1..] + us;
    }
  }

  lemma {:induction false} UnlexSuffix(ids: seq<string>)
    ensures Unlex(Suffix(ids)) == SuffixText(ids)
    decreases |ids|
  {
    hide Spell;
    if ids != [] {
      UnlexSuffix(ids[1..]);
      assert Suffix(ids)[1..] == [Mark(ids[0])] + Suffix(ids[1..]);
      assert Suffix(ids)[1..][1..] == Suffix(ids[1..]);
      SpellBlank();
    }
  }

  lemma SpellBlank()
    ensures Spell(Ch(' ')) == [' ']
  {
  }

  /** Why a sentence is grounded: `ts` are its tokens before numbering. Its text reads back as those
      tokens with markers numbered; it has a marker; every marker is numbered; and every bracketed
      number the model wrote that is still there lies outside 1..|order|. */
  ghost predicate GroundedBy(order: seq<string>, numbers: Numbers, ts: seq<Token>, text: string) {
    && AllWellFormed(ts)
    && Lex(text) == RenderTokens(numbers, ts)
    && Marks(ts) != [] && (forall id | id in Marks(ts) :: id in numbers)
    && (forall t | t in ts && t.Num? :: !(1 <= Value(t.digits) <= |order|))
  }

  ghost predicate Grounded(order: seq<string>, numbers: Numbers, text: string) {
    exists ts: seq<Token> :: GroundedBy(order, numbers, ts, text)
  }

  lemma RenderKeepsShape(numbers: Numbers, ts: seq<Token>)
    requires AllWellFormed(ts)
    ensures SameShape(ts, RenderTokens(numbers, ts))
  {
    var us := RenderTokens(numbers, ts);
    forall u | u in us ensures WellFormed(u) {
      var i :| 0 <= i < |us| && us[i] == u;
      assert WellFormed(ts[i]);
    }
  }

  lemma NoLiteralInRange(order: seq<string>, ts: seq<Token>)
    requires ValidOrder(order) && AllWellFormed(ts)
    ensures forall t | t in UnknownPass(order, NumberedPass(order, ts)) && t.Num? :: !(1 <= Value(t.digits) <= |order|)
  {
    var us := UnknownPass(order, NumberedPass(order, ts));
    forall t | t in us && t.Num? ensures !(1 <= Value(t.digits) <= |order|) {
      var i :| 0 <= i < |us| && us[i] == t;
      assert us[i] == MapUnknown(order, MapNumbered(order, ts[i]));
    }
  }

  lemma PartGrounded(order: seq<string>, fill: seq<string>, numbers: Numbers, part: string, text: string)
    requires ValidOrder(order) && GoodFill(order, fill) && RendersPart(order, fill, numbers, part, text)
    ensures Grounded(order, numbers, text)
  {
    hide Lex, IsIdChar, Strip, IsSpace, SentenceIds, SentenceTokens, Unlex, RenderTokens, Marks, NormalizeText;
    SentenceReadsBack(order, fill, part);
    SentenceMarks(order, fill, part);
    var ts := SentenceTokens(order, fill, part);
    var source := SentenceText(order, fill, part);
    RenderKeepsShape(numbers, ts);
    Relex(source, RenderTokens(numbers, ts));
    NoLiteralInRange(order, Lex(source));
    SentenceIdsNonEmpty(order, fill, part);
    assert GroundedBy(order, numbers, ts, text);
  }

  lemma SentenceIdsNonEmpty(order: seq<string>, fill: seq<string>, part: string)
    requires ValidOrder(order) && fill != []
    ensures SentenceIds(order, fill, part) != []
  {
  }

  /** Later numbering keeps a sentence grounded: the citations it shows are never renumbered. */
  lemma GroundedStable(order: seq<string>, earlier: Numbers, later: Numbers, text: string)
    requires Grounded(order, earlier, text) && Extends(earlier, later)
    ensures Grounded(order, later, text)
  {
    var ts: seq<Token> :| GroundedBy(order, earlier, ts, text);
    RenderStable(earlier, later, ts);
    assert GroundedBy(order, later, ts, text);
  }

  /** What a reader of a grounded sentence sees: no raw marker; at least one bracketed number that
      is a live citation; and every bracketed number that could be one of the contexts is live. */
  lemma GroundedMeans(order: seq<string>, numbers: Numbers, text: string)
    requires Numbered(order, numbers) && Grounded(order, numbers, text)
    ensures exists t :: t in Lex(text) && t.Num? && Held(numbers, Value(t.digits))
    ensures forall t | t in Lex(text) :: !t.Mark?
    ensures forall t | t in Lex(text) && t.Num? && 1 <= Value(t.digits) <= |order| :: Held(numbers, Value(t.digits))
  {
    var ts: seq<Token> :| GroundedBy(order, numbers, ts, text);
    var us := RenderTokens(numbers, ts);
    forall t | t in us
      ensures !t.Mark? && (t.Num? && 1 <= Value(t.digits) <= |order| ==> Held(numbers, Value(t.digits)))
    {
      var i :| 0 <= i < |us| && us[i] == t;
      MarksContain(ts, ts[i]);
      if ts[i].Mark? {
        ValueShow(numbers[ts[i].id]);
      }
    }
    MarksFrom(ts);
    var id := Marks(ts)[0];
    var i :| 0 <= i < |ts| && ts[i] == Mark(id);
    assert us[i] == Num(Show(numbers[id]));
    ValueShow(numbers[id]);
    assert us[i] in Lex(text);
  }
}
