/**
 The sentence splitter of src/fastrag/citations.py: cut at whitespace that follows a terminator or a
 closing bracket and precedes a character that is neither whitespace nor an opening bracket.
 The main result says exactly which markers survive the cutting.
 */
module SentenceSplitter {
  import opened MarkerText

  /** The end of the whitespace run that starts at `i`. */
  function SpanEnd(s: string, i: nat): (j: nat)
    requires i <= |s|
    ensures i <= j <= |s|
    ensures forall k | i <= k < j :: IsSpace(s[k])
    ensures j < |s| ==> !IsSpace(s[j])
    decreases |s| - i
  {
    if i < |s| && IsSpace(s[i]) then SpanEnd(s, i + 1) else i
  }

  predicate IsBoundary(s: string, i: int) {
    && 1 <= i < |s|
    && IsStop(s[i - 1]) && IsSpace(s[i])
    && SpanEnd(s, i) < |s| && s[SpanEnd(s, i)] != '['
  }

  /** The first boundary at or after `i`, or the length of the text. */
  function NextCut(s: string, i: nat): (c: nat)
    requires i <= |s|
    ensures i <= c <= |s|
    ensures c < |s| ==> IsBoundary(s, c) && c >= 1
    ensures forall k | i <= k < c :: !IsBoundary(s, k)
    decreases |s| - i
  {
    if i == |s| || IsBoundary(s, i) then i else NextCut(s, i + 1)
  }

  function Split(s: string): (parts: seq<string>)
    ensures parts != []
    decreases |s|
  {
    var c := NextCut(s, 0);
    if c == |s| then [s] else [s[..c]] + Split(s[SpanEnd(s, c)..])
  }

  /** A part together with the whitespace dropped in front of it. */
  datatype Piece = Piece(gap: string, text: string)

  /** The parts of `s` with the run that separated each from the one before; `gap` precedes the first. */
  function Pieces(gap: string, s: string): (ps: seq<Piece>)
    ensures |ps| == |Split(s)|
    decreases |s|
  {
    var c := NextCut(s, 0);
    if c == |s| then [Piece(gap, s)]
    else
      var j := SpanEnd(s, c);
      [Piece(gap, s[..c])] + Pieces(s[c..j], s[j..])
  }

  function Weave(ps: seq<Piece>): string {
    if ps == [] then "" else (ps[0].gap + ps[0].text) + Weave(ps[1..])
  }

  function Texts(ps: seq<Piece>): (texts: seq<string>)
    ensures |texts| == |ps|
  {
    seq(|ps|, i requires 0 <= i < |ps| => ps[i].text)
  }

  predicate OnlySpaceBetween(ps: seq<Piece>) { forall p | p in ps :: AllSpace(p.gap) }

  lemma {:induction false} WeaveAppend(ps: seq<Piece>, qs: seq<Piece>)
    ensures Weave(ps + qs) == Weave(ps) + Weave(qs)
    decreases |ps|
  {
    if ps == [] {
      assert ps + qs == qs;
    } else {
      WeaveAppend(ps[1..], qs);
      assert (ps + qs)[1..] == ps[1..] + qs;
    }
  }

  /** Splitting loses nothing but the whitespace at the cuts. */
  lemma SplitWeaves(gap: string, s: string)
    requires AllSpace(gap)
    ensures Texts(Pieces(gap, s)) == Split(s)
    ensures Weave(Pieces(gap, s)) == gap + s
    ensures OnlySpaceBetween(Pieces(gap, s))
  {
    PiecesSplit(gap, s);
    PiecesWeave(gap, s);
    PiecesSpace(gap, s);
  }

  lemma {:induction false} PiecesSplit(gap: string, s: string)
    ensures Texts(Pieces(gap, s)) == Split(s)
    decreases |s|
  {
    hide NextCut, SpanEnd, IsBoundary, IsSpace, IsStop, Texts;
    var c := NextCut(s, 0);
    if c < |s| {
      var j := SpanEnd(s, c);
      PiecesSplit(s[c..j], s[j..]);
      TextsCons(Piece(gap, s[..c]), Pieces(s[c..j], s[j..]));
    } else {
      TextsCons(Piece(gap, s), []);
      TextsNone();
    }
  }

  lemma TextsCons(p: Piece, ps: seq<Piece>)
    ensures Texts([p] + ps) == [p.text] + Texts(ps)
    ensures ps == [] ==> Texts([p]) == [p.text]
  {
  }

  lemma TextsNone()
    ensures Texts([]) == []
  {
  }

  lemma {:induction false} PiecesWeave(gap: string, s: string)
    ensures Weave(Pieces(gap, s)) == gap + s
    decreases |s|
  {
    var c := NextCut(s, 0);
    if c == |s| {
      assert Weave([Piece(gap, s)][1..]) == "";
    } else {
      var j := SpanEnd(s, c);
      var rest := Pieces(s[c..j], s[j..]);
      PiecesWeave(s[c..j], s[j..]);
      WeaveCons(Piece(gap, s[..c]), rest);
      JoinFour(gap, s, c, j);
    }
  }

  lemma WeaveCons(p: Piece, ps: seq<Piece>)
    ensures Weave([p] + ps) == (p.gap + p.text) + Weave(ps)
  {
    assert ([p] + ps)[1..] == ps;
  }

  lemma JoinFour(gap: string, s: string, c: nat, j: nat)
    requires c <= j <= |s|
    ensures (gap + s[..c]) + (s[c..j] + s[j..]) == gap + s
  {
    assert s[c..j] + s[j..] == s[c..];
    assert s[..c] + s[c..] == s;
  }

  lemma {:induction false} PiecesSpace(gap: string, s: string)
    requires AllSpace(gap)
    ensures OnlySpaceBetween(Pieces(gap, s))
    decreases |s|
  {
    var c := NextCut(s, 0);
    if c < |s| {
      var j := SpanEnd(s, c);
      PiecesSpace(s[c..j], s[j..]);
    }
  }

  /** Every part but the last ends in a stop; after a cut the last part starts with text. */
  lemma {:induction false} SplitEdges(s: string)
    ensures var parts := Split(s);
      && (forall i | 0 <= i < |parts| - 1 :: parts[i] != "" && IsStop(parts[i][|parts[i]| - 1]))
      && (|parts| > 1 ==> parts[|parts| - 1] != "" && !IsSpace(parts[|parts| - 1][0]))
    decreases |s|
  {
    hide NextCut, SpanEnd, IsSpace, IsStop;
    var c := NextCut(s, 0);
    if c < |s| {
      var rest := s[SpanEnd(s, c)..];
      SplitEdges(rest);
      FirstPartStarts(rest);
      var parts := Split(s);
      assert parts == [s[..c]] + Split(rest);
      forall i | 0 <= i < |parts| - 1 ensures parts[i] != "" && IsStop(parts[i][|parts[i]| - 1]) {
        if i > 0 {
          assert parts[i] == Split(rest)[i - 1];
        }
      }
    }
  }

  lemma FirstPartStarts(s: string)
    requires s != "" && !IsSpace(s[0])
    ensures Split(s)[0] != "" && Split(s)[0][0] == s[0]
  {
  }

  /******* Numbers in brackets *******/

  function DigitOf(c: char): nat
    requires IsDigit(c)
  {
    c as int - '0' as int
  }

  function Value(d: string): nat
    requires forall c | c in d :: IsDigit(c)
  {
    if d == "" then 0
    else
      var c := d[|d| - 1];
      assert c in d;
      10 * Value(d[..|d| - 1]) + DigitOf(c)
  }

  function Show(n: nat): (d: string)
    ensures ValidDigits(d)
  {
    if n < 10 then [('0' as nat + n) as char] else Show(n / 10) + [('0' as nat + n % 10) as char]
  }

  lemma {:induction false} ValueShow(n: nat)
    ensures Value(Show(n)) == n
  {
    var d := Show(n);
    if n < 10 {
      assert d[..0] == "";
    } else {
      ValueShow(n / 10);
      assert d[..|d| - 1] == Show(n / 10);
    }
  }

  /******* Which markers survive splitting *******/

  /** With `m` contexts, a token is a marker once normalised: a marker, or a number in 1..m. */
  predicate Counts(m: nat, t: Token)
    requires WellFormed(t)
  {
    t.Mark? || (t.Num? && 1 <= Value(t.digits) <= m)
  }

  predicate HasMarker(m: nat, s: string) {
    exists t | t in Lex(s) :: Counts(m, t)
  }

  predicate HitAt(s: string, k: int) {
    0 <= k < |s| && s[k] == '[' && Find(Opened, s[k + 1..]).Hit?
  }

  predicate CountsAt(m: nat, s: string, k: int) {
    HitAt(s, k) && Counts(m, TokenOf(Find(Opened, s[k + 1..])))
  }

  /** A marker the splitter tears: a spaced marker whose id ends in a full stop. */
  predicate Torn(s: string, k: int)
    requires HitAt(s, k)
  {
    var h := Find(Opened, s[k + 1..]);
    !h.numeric && h.text[|h.text| - 1] == '.' && IsSpace(s[k + h.len - 1])
  }

  lemma {:induction false} OccurrenceIsLexed(m: nat, s: string, k: int)
    requires CountsAt(m, s, k)
    ensures HasMarker(m, s)
    decreases |s|
  {
    hide Find, Lex, Counts;
    LexUnfolds(s);
    if HitAt(s, 0) {
      var h := Find(Opened, s[1..]);
      if k == 0 {
        assert TokenOf(h) in Lex(s);
      } else {
        var rest := s[1 + h.len..];
        assert forall i | 0 <= i < h.len :: s[1..][i] != '[';
        assert rest[k - 1 - h.len + 1..] == s[k + 1..];
        OccurrenceIsLexed(m, rest, k - 1 - h.len);
      }
    } else {
      assert s[1..][k - 1 + 1..] == s[k + 1..];
      OccurrenceIsLexed(m, s[1..], k - 1);
    }
  }

  lemma {:induction false} LexedIsOccurrence(s: string, t: Token) returns (k: nat)
    requires t in Lex(s) && !t.Ch?
    ensures HitAt(s, k) && TokenOf(Find(Opened, s[k + 1..])) == t
    decreases |s|
  {
    hide Find, IsSpace, Lex;
    LexUnfolds(s);
    if HitAt(s, 0) {
      var h := Find(Opened, s[1..]);
      var rest := s[1 + h.len..];
      if t == TokenOf(h) {
        k := 0;
      } else {
        var k' := LexedIsOccurrence(rest, t);
        k := 1 + h.len + k';
        assert rest[k' + 1..] == s[k + 1..];
      }
    } else {
      var k' := LexedIsOccurrence(s[1..], t);
      k := 1 + k';
      assert s[1..][k' + 1..] == s[k + 1..];
    }
  }

  lemma LexUnfolds(s: string)
    ensures Lex(s) == if s == "" then [] else if HitAt(s, 0) then
      [TokenOf(Find(Opened, s[1..]))] + Lex(s[1 + Find(Opened, s[1..]).len..]) else [Ch(s[0])] + Lex(s[1..])
  {
  }

  /** Inside a match, whitespace follows a stop character only after an id that ends in one. */
  lemma {:induction false} StopInsideMatch(q: Scan, s: string, p: nat)
    requires Find(q, s).Hit? && 1 <= p < Find(q, s).len
    requires IsSpace(s[p]) && IsStop(s[p - 1])
    ensures var h := Find(q, s);
      !h.numeric && h.text != "" && h.text[|h.text| - 1] == '.' && IsSpace(s[h.len - 2])
    decreases |s|
  {
    hide IsSpace, IsStop, Step;
    var q' := Step(q, s[0]);
    if p > 1 {
      StopInsideMatch(q', s[1..], p - 1);
    } else {
      StopStep(q, s[0]);
      assert s[1..][0] == s[1];
      SpaceStep(s[1]);
      assert Find(q', s[1..]).Hit? && Find(Scan.Closing, s[1..][1..]).Hit?;
    }
  }

  lemma StopStep(q: Scan, c: char)
    requires IsStop(c)
    ensures Step(q, c).Dead? || Step(q, c).Matched? || (Step(q, c).InId? && c == '.')
  {
  }

  lemma SpaceStep(c: char)
    requires IsSpace(c)
    ensures Step(InId, c).Closing?
  {
  }

  /** Conversely, a match whose id ends in a stop followed by whitespace holds a boundary. */
  lemma {:induction false} TornHoldsStop(q: Scan, s: string) returns (p: nat)
    requires var h := Find(q, s);
      h.Hit? && !h.numeric && h.text != "" && h.text[|h.text| - 1] == '.' && h.len >= 2 && IsSpace(s[h.len - 2])
    ensures 1 <= p < Find(q, s).len - 1 && s[p - 1] == '.'
    ensures forall i | p <= i < Find(q, s).len - 1 :: IsSpace(s[i])
    decreases |s|
  {
    hide IsIdChar;
    var q' := Step(q, s[0]);
    var h' := Find(q', s[1..]);
    assert !q'.Matched?;
    if q'.InId? && h'.text == "" {
      assert s[0] == '.';
      p := 1;
      var q'' := Step(q', s[1]);
      assert s[1..][0] == s[1];
      if !q''.Matched? {
        forall i | 1 <= i < Find(q, s).len - 1 ensures IsSpace(s[i]) {
          if i > 1 {
            assert s[1..][1..][i - 2] == s[i];
          }
        }
      }
    } else {
      var p' := TornHoldsStop(q', s[1..]);
      p := p' + 1;
      forall i | p <= i < Find(q, s).len - 1 ensures IsSpace(s[i]) {
        assert s[1..][i - 1] == s[i];
      }
    }
  }

  lemma {:induction false} FindTake(q: Scan, x: string, y: string)
    requires Find(q, x + y).Hit? && Find(q, x + y).len <= |x|
    ensures Find(q, x) == Find(q, x + y)
    decreases |x|
  {
    var s := x + y;
    assert s[0] == x[0] && s[1..] == x[1..] + y;
    var q' := Step(q, x[0]);
    if !q'.Matched? {
      FindTake(q', x[1..], y);
    }
  }

  lemma {:induction false} SpanEndIs(s: string, i: nat, j: nat)
    requires i <= j < |s| && !IsSpace(s[j])
    requires forall k | i <= k < j :: IsSpace(s[k])
    ensures SpanEnd(s, i) == j
    decreases j - i
  {
    if i < j {
      SpanEndIs(s, i + 1, j);
    }
  }

  lemma TornHoldsBoundary(s: string, k: nat) returns (b: nat)
    requires HitAt(s, k) && Torn(s, k)
    ensures k < b < k + Find(Opened, s[k + 1..]).len && IsBoundary(s, b)
  {
    var t := s[k + 1..];
    var h := Find(Opened, t);
    assert IsSpace(t[h.len - 2]);
    var p := TornHoldsStop(Opened, t);
    b := k + 1 + p;
    forall i | b <= i < k + h.len ensures IsSpace(s[i]) {
      assert t[i - k - 1] == s[i];
    }
    assert s[k + h.len] == t[h.len - 1] == ']';
    SpanEndIs(s, b, k + h.len);
    assert s[b - 1] == t[p - 1] == '.';
  }

  lemma ShiftMarker(m: nat, s: string, j: nat, k: nat)
    requires j <= |s|
    ensures CountsAt(m, s[j..], k) == CountsAt(m, s, j + k)
    ensures CountsAt(m, s, j + k) ==> Torn(s[j..], k) == Torn(s, j + k)
  {
    if k < |s| - j {
      assert s[j..][k + 1..] == s[j + k + 1..];
    }
  }

  lemma SplitMembers(s: string, p: string)
    requires p in Split(s)
    ensures var c := NextCut(s, 0); p == s[..c] || (c < |s| && p in Split(s[SpanEnd(s, c)..]))
  {
    assert s[..|s|] == s;
  }

  /** A marker found in a part was whole in the text: never a torn one. */
  lemma {:induction false} PartMarkerWasWhole(m: nat, s: string, p: string) returns (k: nat)
    requires p in Split(s) && HasMarker(m, p)
    ensures CountsAt(m, s, k) && !Torn(s, k)
    decreases |s|
  {
    hide Find, IsSpace, Lex;
    var c := NextCut(s, 0);
    SplitMembers(s, p);
    if c < |s| && p != s[..c] {
      var j := SpanEnd(s, c);
      var k' := PartMarkerWasWhole(m, s[j..], p);
      k := j + k';
      ShiftMarker(m, s, j, k');
    } else {
      k := FirstPartMarkerWasWhole(m, s, c);
    }
  }

  lemma FirstPartMarkerWasWhole(m: nat, s: string, c: nat) returns (k: nat)
    requires c <= |s| && (forall i | 0 <= i < c :: !IsBoundary(s, i)) && HasMarker(m, s[..c])
    ensures CountsAt(m, s, k) && !Torn(s, k)
  {
    hide Lex, Find, IsSpace, IsBoundary;
    var p := s[..c];
    var t :| t in Lex(p) && Counts(m, t);
    assert !t.Ch?;
    hide Counts;
    k := LexedIsOccurrence(p, t);
    assert s[k + 1..] == p[k + 1..] + s[c..];
    HitAppend(Opened, p[k + 1..], s[c..]);
    if Torn(s, k) {
      var b := TornHoldsBoundary(s, k);
      assert false;
    }
  }

  /** A marker that is not torn lies whole inside one part. */
  lemma {:induction false} WholeMarkerKeepsPart(m: nat, s: string, k: nat) returns (p: string)
    requires CountsAt(m, s, k) && !Torn(s, k)
    ensures p in Split(s) && HasMarker(m, p)
    decreases |s|
  {
    hide Find, Lex, IsSpace, Counts;
    var c := NextCut(s, 0);
    var h := Find(Opened, s[k + 1..]);
    if c == |s| {
      p := s;
      OccurrenceIsLexed(m, s, k);
    } else {
      var j := SpanEnd(s, c);
      if k + h.len < c {
        p := s[..c];
        assert s[k + 1..] == p[k + 1..] + s[c..];
        FindTake(Opened, p[k + 1..], s[c..]);
        OccurrenceIsLexed(m, p, k);
      } else {
        if k < c {
          BoundaryInsideTears(s, k, c);
          assert false;
        }
        OpenIsNotSpace();
        assert k >= j;
        ShiftMarker(m, s, j, k - j);
        p := WholeMarkerKeepsPart(m, s[j..], k - j);
      }
    }
  }

  lemma OpenIsNotSpace()
    ensures !IsSpace('[')
  {
  }

  lemma BoundaryInsideTears(s: string, k: nat, c: nat)
    requires HitAt(s, k)
    requires IsBoundary(s, c) && k < c <= k + Find(Opened, s[k + 1..]).len
    ensures Torn(s, k)
  {
    var t := s[k + 1..];
    assert s[k] == '[' && !IsStop('[');
    assert c > k + 1;
    assert t[c - k - 1] == s[c] && t[c - k - 2] == s[c - 1];
    StopInsideMatch(Opened, t, c - k - 1);
  }

  /** Splitting keeps some marker whole exactly when the text holds a marker that is not torn. */
  lemma SplitKeepsMarkers(m: nat, s: string)
    ensures (exists p | p in Split(s) :: HasMarker(m, p)) <==> (exists k :: CountsAt(m, s, k) && !Torn(s, k))
  {
    if p :| p in Split(s) && HasMarker(m, p) {
      var k := PartMarkerWasWhole(m, s, p);
    }
    if k :| CountsAt(m, s, k) && !Torn(s, k) {
      var p := WholeMarkerKeepsPart(m, s, k);
    }
  }

  /******* What a split is, in terms of its text *******/

  /** A stretch of a text has no boundary of its own: one inside it, before text, is one of the text. */
  lemma BoundaryInside(s: string, a: nat, b: nat, k: int)
    requires a <= b <= |s| && IsBoundary(s[a..b], k)
    ensures IsBoundary(s, a + k)
  {
    hide IsSpace, IsStop;
    var t := s[a..b];
    var j := SpanEnd(t, k);
    assert forall i | k <= i <= j :: t[i] == s[a + i];
    forall i | a + k <= i < a + j ensures IsSpace(s[i]) {
      assert IsSpace(t[i - a]);
    }
    SpanEndIs(s, a + k, a + j);
  }

  lemma WholeAt(s: string, a: nat, b: nat)
    requires a <= b <= |s| && forall k | a < k < b :: !IsBoundary(s, k)
    ensures Split(s[a..b]) == [s[a..b]]
  {
    hide IsBoundary;
    var t := s[a..b];
    var c := NextCut(t, 0);
    if c < |t| {
      BoundaryInside(s, a, b, c);
      BoundaryPositive(t, c);
    }
  }

  lemma BoundaryPositive(s: string, k: int)
    requires IsBoundary(s, k)
    ensures 1 <= k < |s|
  {
  }

  /** No part of a split can be split again. */
  lemma {:induction false} PartsAreWhole(s: string)
    ensures forall p | p in Split(s) :: Split(p) == [p]
    decreases |s|
  {
    hide IsBoundary, Split;
    SplitOnce(s);
    var c := NextCut(s, 0);
    WholeAt(s, 0, c);
    assert s[0..c] == s[..c];
    if c < |s| {
      PartsAreWhole(s[SpanEnd(s, c)..]);
    }
  }

  lemma SplitOnce(s: string)
    ensures var c := NextCut(s, 0);
      Split(s) == if c == |s| then [s[..c]] else [s[..c]] + Split(s[SpanEnd(s, c)..])
  {
    assert s[..|s|] == s;
  }

  /** The characters text may be cut after, by code point: the full stop, the exclamation and the question
      mark, the two dandas, the Urdu full stop, the Arabic question mark, the ideographic full stop, the two
      full-width marks, and the closing bracket. */
  predicate CutsAfter(c: char) {
    var code := c as int;
    code in {0x21, 0x2E, 0x3F, 0x5D, 0x61F, 0x6D4, 0x964, 0x965, 0x3002, 0xFF01, 0xFF1F}
  }

  /** Whitespace between two stretches of text is cut exactly when the first ends in such a character and the
      second does not open with a bracket. */
  lemma CutExactly(x: string, gap: string, y: string)
    requires x != "" && !IsSpace(x[|x| - 1]) && gap != "" && AllSpace(gap) && y != "" && !IsSpace(y[0])
    ensures IsBoundary(x + gap + y, |x|) <==> CutsAfter(x[|x| - 1]) && y[0] != '['
  {
    hide IsSpace;
    var s := x + gap + y;
    assert forall k | 0 <= k < |gap| :: s[|x| + k] == gap[k] && gap[k] in gap;
    assert forall k | |x| <= k < |x| + |gap| :: s[k] == gap[k - |x|];
    assert s[|x| + |gap|] == y[0] && s[|x| - 1] == x[|x| - 1];
    SpanEndIs(s, |x|, |x| + |gap|);
  }

  /** And then the text splits as the two stretches do. */
  lemma {:induction false} SplitAt(x: string, gap: string, y: string)
    requires x != "" && !IsSpace(x[|x| - 1]) && gap != "" && AllSpace(gap) && y != "" && !IsSpace(y[0])
    requires IsBoundary(x + gap + y, |x|)
    ensures Split(x + gap + y) == Split(x) + Split(y)
    decreases |x|
  {
    hide IsSpace, IsBoundary, Split, NextCut, SpanEnd;
    var s := x + gap + y;
    var c := NextCut(x, 0);
    SplitOnce(s);
    SplitOnce(x);
    FirstCut(x, gap, y);
    if c == |x| {
      GapSpan(x, gap, y);
      assert s[..c] == x && x[..c] == x && s[|x| + |gap|..] == y;
    } else {
      BoundaryStays(x, gap + y, c);
      Regroup(x, gap, y);
      var j := SpanEnd(x, c);
      BoundarySpan(x, c);
      TailOf(x, gap, y, j);
      BoundaryKept(x, gap, y, j);
      SplitAt(x[j..], gap, y);
      assert s[..c] == x[..c];
      assert [x[..c]] + (Split(x[j..]) + Split(y)) == ([x[..c]] + Split(x[j..])) + Split(y);
    }
  }

  lemma Regroup(x: string, gap: string, y: string)
    ensures x + (gap + y) == x + gap + y
  {
  }

  lemma TailOf(x: string, gap: string, y: string, j: nat)
    requires j < |x|
    ensures (x + gap + y)[j..] == x[j..] + gap + y && x[j..] != "" && x[j..][|x[j..]| - 1] == x[|x| - 1]
  {
  }

  /** The first cut of the whole is that of the first stretch, or the one behind it. */
  lemma FirstCut(x: string, gap: string, y: string)
    requires x != "" && !IsSpace(x[|x| - 1]) && IsBoundary(x + gap + y, |x|)
    ensures NextCut(x + gap + y, 0) == NextCut(x, 0)
  {
    hide IsSpace, IsBoundary;
    var s, c := x + gap + y, NextCut(x, 0);
    Regroup(x, gap, y);
    forall k | 0 <= k < |x| ensures IsBoundary(s, k) <==> IsBoundary(x, k) {
      BoundaryStays(x, gap + y, k);
    }
    BoundaryPositive(s, |x|);
    NextCutIs(s, 0, c);
  }

  lemma GapSpan(x: string, gap: string, y: string)
    requires AllSpace(gap) && y != "" && !IsSpace(y[0])
    ensures SpanEnd(x + gap + y, |x|) == |x| + |gap|
  {
    hide IsSpace;
    var s := x + gap + y;
    assert forall k | |x| <= k < |x| + |gap| :: s[k] == gap[k - |x|] && gap[k - |x|] in gap;
    SpanEndIs(s, |x|, |x| + |gap|);
  }

  lemma BoundarySpan(s: string, k: int)
    requires IsBoundary(s, k)
    ensures 0 <= k < SpanEnd(s, k) < |s| && !IsSpace(s[SpanEnd(s, k)])
  {
  }

  lemma SpanInside(s: string, k: nat)
    requires k < |s| && !IsSpace(s[|s| - 1])
    ensures SpanEnd(s, k) < |s|
  {
    hide IsSpace;
  }

  /** A position of x before its end is a boundary with or without what follows, if x ends in text. */
  lemma BoundaryStays(x: string, rest: string, k: nat)
    requires x != "" && !IsSpace(x[|x| - 1]) && k < |x|
    ensures IsBoundary(x + rest, k) <==> IsBoundary(x, k)
    ensures SpanEnd(x + rest, k) == SpanEnd(x, k)
  {
    hide IsSpace, IsStop;
    var j := SpanEnd(x, k);
    var s := x + rest;
    SpanInside(x, k);
    assert forall i | k <= i <= j :: s[i] == x[i];
    SpanEndIs(s, k, j);
    if k > 0 {
      assert s[k - 1] == x[k - 1];
    }
  }

  lemma {:induction false} NextCutIs(s: string, i: nat, c: nat)
    requires i <= c <= |s| && (c < |s| ==> IsBoundary(s, c)) && forall k | i <= k < c :: !IsBoundary(s, k)
    ensures NextCut(s, i) == c
    decreases c - i
  {
    hide IsBoundary;
    if i < c {
      NextCutIs(s, i + 1, c);
    }
  }

  /** Dropping a beginning that leaves some of x keeps the boundary behind x. */
  lemma BoundaryKept(x: string, gap: string, y: string, j: nat)
    requires j < |x| && !IsSpace(x[|x| - 1]) && gap != "" && AllSpace(gap) && y != "" && !IsSpace(y[0])
    requires IsBoundary(x + gap + y, |x|)
    ensures IsBoundary(x[j..] + gap + y, |x| - j)
  {
    hide IsSpace, IsBoundary;
    CutExactly(x, gap, y);
    CutExactly(x[j..], gap, y);
  }
}
