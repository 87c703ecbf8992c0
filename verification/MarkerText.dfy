/**
 The text layer of the citation buffer: which stretches of a string are citation markers, how the
 three marker spellings are normalised, and where the sentence splitter may cut.

 The two bracket patterns of src/fastrag/citations.py (a possibly spaced "[ C:id ]" and a bracketed
 number "[12]") are recognised by one small automaton. No bracket can occur inside a match, so
 matches never overlap and a left-to-right lexer finds exactly the matches a regular-expression
 substitution would rewrite.
 */
module MarkerText {

  /******* Character classes *******/

  predicate IsSpace(c: char) {
    c == ' ' || '\U{9}' <= c <= '\U{D}' || '\U{1C}' <= c <= '\U{1F}' || c == '\U{85}' || c == '\U{A0}' ||
    c == '\U{1680}' || '\U{2000}' <= c <= '\U{200A}' || c == '\U{2028}' || c == '\U{2029}' ||
    c == '\U{202F}' || c == '\U{205F}' || c == '\U{3000}'
  }

  predicate IsDigit(c: char) { '0' <= c <= '9' }

  predicate IsIdChar(c: char) {
    'A' <= c <= 'Z' || 'a' <= c <= 'z' || IsDigit(c) || c == '_' || c == '.' || c == ':' || c == '-'
  }

  predicate IsTerminator(c: char) {
    c == '.' || c == '!' || c == '?' || c == '\U{964}' || c == '\U{965}' || c == '\U{6D4}' ||
    c == '\U{61F}' || c == '\U{3002}' || c == '\U{FF01}' || c == '\U{FF1F}'
  }

  /** The characters the splitter may look behind at: a terminator or a closing bracket. */
  predicate IsStop(c: char) { IsTerminator(c) || c == ']' }

  predicate ValidId(id: string) { id != "" && forall c | c in id :: IsIdChar(c) }

  predicate ValidDigits(d: string) { d != "" && forall c | c in d :: IsDigit(c) }

  predicate AllSpace(s: string) { forall c | c in s :: IsSpace(c) }

  /******* Recognising one bracketed token *******/

  datatype Scan = Opened | Spaced | SawC | SawColon | InId | Closing | InNumber | Matched | Dead

  function Step(q: Scan, c: char): Scan {
    match q
    case Opened =>
      if IsSpace(c) then Spaced else if c == 'C' then SawC else if IsDigit(c) then InNumber else Dead
    case Spaced => if IsSpace(c) then Spaced else if c == 'C' then SawC else Dead
    case SawC => if c == ':' then SawColon else Dead
    case SawColon => if IsIdChar(c) then InId else Dead
    case InId =>
      if IsIdChar(c) then InId else if IsSpace(c) then Closing else if c == ']' then Matched else Dead
    case Closing => if IsSpace(c) then Closing else if c == ']' then Matched else Dead
    case InNumber => if IsDigit(c) then InNumber else if c == ']' then Matched else Dead
    case Matched => Dead
    case Dead => Dead
  }

  /** The outcome of scanning after an opening bracket: `len` characters up to and including the
      closing one, and the id or the digits between. */
  datatype Hit = Miss | Hit(len: nat, text: string, numeric: bool)

  function Find(q: Scan, s: string): (h: Hit)
    ensures h.Hit? ==> 1 <= h.len <= |s| && s[h.len - 1] == ']'
    ensures h.Hit? ==> forall i | 0 <= i < h.len :: s[i] != '['
    ensures h.Hit? && h.numeric ==> forall c | c in h.text :: IsDigit(c)
    ensures h.Hit? && !h.numeric ==> forall c | c in h.text :: IsIdChar(c)
    ensures h.Hit? && (q.Opened? || q.Spaced? || q.SawC? || q.SawColon?) ==> h.text != ""
    ensures h.Hit? && q.Closing? ==> h.text == "" && !h.numeric && forall i | 0 <= i < h.len - 1 :: IsSpace(s[i])
    ensures h.Hit? && q.InNumber? ==> h.numeric
    ensures h.Hit? && h.numeric ==> q.Opened? || q.InNumber?
    decreases |s|
  {
    if s == "" then Miss
    else
      var q' := Step(q, s[0]);
      if q'.Matched? then Hit(1, "", q.InNumber?)
      else if q'.Dead? then Miss
      else match Find(q', s[1..])
        case Miss => Miss
        case Hit(len, text, numeric) =>
          Hit(len + 1, if q'.InId? || q'.InNumber? then [s[0]] + text else text, numeric)
  }

  /******* Tokens *******/

  datatype Token = Mark(id: string) | Num(digits: string) | Ch(c: char)

  predicate WellFormed(t: Token) {
    match t
    case Mark(id) => ValidId(id)
    case Num(d) => ValidDigits(d)
    case Ch(_) => true
  }

  function TokenOf(h: Hit): Token
    requires h.Hit?
  {
    if h.numeric then Num(h.text) else Mark(h.text)
  }

  function Spell(t: Token): string {
    match t
    case Mark(id) => "[C:" + id + "]"
    case Num(d) => "[" + d + "]"
    case Ch(c) => [c]
  }

  function Unlex(ts: seq<Token>): string {
    if ts == [] then "" else Spell(ts[0]) + Unlex(ts[1..])
  }

  function Lex(s: string): (ts: seq<Token>)
    ensures forall t | t in ts :: WellFormed(t)
    decreases |s|
  {
    if s == "" then []
    else if s[0] == '[' && Find(Opened, s[1..]).Hit? then
      var h := Find(Opened, s[1..]);
      [TokenOf(h)] + Lex(s[1 + h.len..])
    else [Ch(s[0])] + Lex(s[1..])
  }

  /** The ids of the markers in a token sequence, in order: what a findall over the text yields. */
  function Marks(ts: seq<Token>): (ids: seq<string>) {
    if ts == [] then []
    else (if ts[0].Mark? then [ts[0].id] else []) + Marks(ts[1..])
  }

  /** `us` keeps every plain character of `ts` in place and swaps bracketed tokens only for
      bracketed tokens. */
  predicate SameShape(ts: seq<Token>, us: seq<Token>) {
    && |ts| == |us|
    && (forall i | 0 <= i < |ts| :: ts[i].Ch? || us[i].Ch? ==> ts[i] == us[i])
    && (forall u | u in us :: WellFormed(u))
  }

  lemma FindUnfolds(q: Scan, s: string)
    requires s != ""
    ensures Find(q, s) ==
      var q' := Step(q, s[0]);
      if q'.Matched? then Hit(1, "", q.InNumber?)
      else if q'.Dead? then Miss
      else match Find(q', s[1..])
        case Miss => Miss
        case Hit(len, text, numeric) => Hit(len + 1, if q'.InId? || q'.InNumber? then [s[0]] + text else text, numeric)
  {
    hide Step, IsSpace, IsIdChar, IsDigit;
  }

  lemma {:induction false} FindSpelledId(q: Scan, id: string, rest: string)
    requires forall c | c in id :: IsIdChar(c)
    requires q.InId? || (q.SawColon? && id != "")
    ensures Find(q, id + "]" + rest) == Hit(|id| + 1, id, false)
    decreases |id|
  {
    var s := id + "]" + rest;
    if id == "" {
      assert s[0] == ']';
    } else {
      assert s[0] == id[0] && IsIdChar(id[0]);
      FindSpelledId(InId, id[1..], rest);
      assert s[1..] == id[1..] + "]" + rest;
      assert [id[0]] + id[1..] == id;
    }
  }

  lemma StepDigit(q: Scan, c: char)
    requires IsDigit(c) && (q.Opened? || q.InNumber?)
    ensures Step(q, c).InNumber?
  {
  }

  lemma StepClose()
    ensures Step(InNumber, ']').Matched?
  {
  }

  lemma {:induction false} FindSpelledDigits(q: Scan, d: string, rest: string)
    requires forall c | c in d :: IsDigit(c)
    requires q.InNumber? || (q.Opened? && d != "")
    ensures Find(q, d + "]" + rest) == Hit(|d| + 1, d, true)
    decreases |d|
  {
    hide Find, Step, IsDigit;
    var s := d + "]" + rest;
    StepClose();
    FindUnfolds(q, s);
    if d == "" {
      assert s[0] == ']';
    } else {
      assert s[0] == d[0] && d[0] in d;
      StepDigit(q, d[0]);
      FindSpelledDigits(InNumber, d[1..], rest);
      assert s[1..] == d[1..] + "]" + rest;
      assert [d[0]] + d[1..] == d;
    }
  }

  lemma ConsAppend<T>(c: T, x: seq<T>, y: seq<T>)
    ensures ([c] + x) + y == [c] + (x + y)
  {
  }

  lemma LexPlain(c: char, s: string)
    requires c != '[' || Find(Opened, s).Miss?
    ensures Lex([c] + s) == [Ch(c)] + Lex(s)
  {
    assert ([c] + s)[1..] == s;
  }

  /** One bracketed match followed by `rest`. */
  lemma LexMatch(body: string, rest: string)
    requires Find(Opened, body + rest).Hit? && Find(Opened, body + rest).len == |body|
    ensures Lex(['['] + (body + rest)) == [TokenOf(Find(Opened, body + rest))] + Lex(rest)
  {
    var s := ['['] + (body + rest);
    assert s[1..] == body + rest;
    assert s[1 + |body|..] == rest;
  }

  lemma TagIsText()
    ensures !IsSpace('C') && !IsDigit('C')
  {
  }

  lemma FindAfterTag(q: Scan, x: string)
    requires (q.Opened? || q.Spaced?) && Find(SawColon, x).Hit?
    ensures Find(q, ['C'] + ([':'] + x)) == Find(SawColon, x).(len := Find(SawColon, x).len + 2)
  {
    hide Find, IsSpace, IsIdChar, IsDigit;
    var s := ['C'] + ([':'] + x);
    assert s[0] == 'C' && s[1..] == [':'] + x;
    assert s[1..][0] == ':' && s[1..][1..] == x;
    TagIsText();
    FindUnfolds(q, s);
    FindUnfolds(SawC, s[1..]);
  }

  /** A spelled bracketed token is read back as itself whatever follows it. */
  lemma LexSpelled(t: Token, rest: string)
    requires WellFormed(t) && !t.Ch?
    ensures Lex(Spell(t) + rest) == [t] + Lex(rest)
  {
    hide IsSpace, IsIdChar, Step, Find, Lex;
    match t {
      case Mark(id) =>
        FindSpelledId(SawColon, id, rest);
        FindAfterTag(Opened, id + "]" + rest);
        assert ['C'] + ([':'] + (id + "]" + rest)) == ("C:" + id + "]") + rest;
        LexMatch("C:" + id + "]", rest);
        assert Spell(t) + rest == ['['] + (("C:" + id + "]") + rest);
      case Num(d) =>
        FindSpelledDigits(Opened, d, rest);
        LexMatch(d + "]", rest);
        assert Spell(t) + rest == ['['] + ((d + "]") + rest);
    }
  }

  lemma {:induction false} MissSameShape(q: Scan, s: string, us: seq<Token>)
    requires Find(q, s).Miss? && SameShape(Lex(s), us)
    ensures Find(q, Unlex(us)).Miss?
    decreases |s|
  {
    if s != "" && us[0].Ch? {
      assert Lex(s)[0] == us[0];
      assert us[0].c == s[0];
      assert Lex(s)[1..] == Lex(s[1..]);
      assert Unlex(us) == [s[0]] + Unlex(us[1..]);
      assert Unlex(us)[1..] == Unlex(us[1..]);
      var q' := Step(q, s[0]);
      if !q'.Dead? {
        MissSameShape(q', s[1..], us[1..]);
      }
    } else if s != "" {
      assert Unlex(us)[0] == '[';
      assert Step(q, '[').Dead?;
    }
  }

  /** Rewriting bracketed tokens and spelling the result out creates no new token and destroys
      none: the text lexes back to exactly the rewritten tokens. */
  lemma {:induction false} Relex(s: string, us: seq<Token>)
    requires SameShape(Lex(s), us)
    ensures Lex(Unlex(us)) == us
    decreases |s|
  {
    if s != "" {
      var ts := Lex(s);
      assert us == [us[0]] + us[1..];
      if ts[0].Ch? {
        assert ts[1..] == Lex(s[1..]);
        Relex(s[1..], us[1..]);
        assert Unlex(us) == [s[0]] + Unlex(us[1..]);
        assert Unlex(us)[1..] == Unlex(us[1..]);
        if s[0] == '[' {
          MissSameShape(Opened, s[1..], us[1..]);
        }
      } else {
        var h := Find(Opened, s[1..]);
        assert ts[1..] == Lex(s[1 + h.len..]);
        Relex(s[1 + h.len..], us[1..]);
        LexSpelled(us[0], Unlex(us[1..]));
      }
    }
  }

  lemma {:induction false} MissAppend(q: Scan, x: string, y: string)
    requires Find(q, x).Miss? && y != "" && y[0] == '['
    ensures Find(q, x + ([' '] + y)).Miss?
    decreases |x|
  {
    var s := x + ([' '] + y);
    if x == "" {
      assert s[0] == ' ' && s[1..] == y;
      assert Step(Step(q, ' '), '[').Dead?;
    } else {
      assert s[0] == x[0] && s[1..] == x[1..] + ([' '] + y);
      var q' := Step(q, x[0]);
      if !q'.Dead? && !q'.Matched? {
        MissAppend(q', x[1..], y);
      }
    }
  }

  lemma {:induction false} HitAppend(q: Scan, x: string, y: string)
    requires Find(q, x).Hit?
    ensures Find(q, x + y) == Find(q, x)
    decreases |x|
  {
    var s := x + y;
    assert s[0] == x[0] && s[1..] == x[1..] + y;
    var q' := Step(q, x[0]);
    if !q'.Dead? && !q'.Matched? {
      HitAppend(q', x[1..], y);
    }
  }

  /** Appending a space and a bracket never merges with what came before. */
  lemma {:induction false} LexAppend(x: string, y: string)
    requires y != "" && y[0] == '['
    ensures Lex(x + ([' '] + y)) == Lex(x) + ([Ch(' ')] + Lex(y))
    decreases |x|
  {
    hide IsSpace, IsIdChar, Step, Find, Lex;
    var tail := [' '] + y;
    if x == "" {
      LexPlain(' ', y);
      LexNothing();
      assert x + tail == tail;
    } else if x[0] == '[' && Find(Opened, x[1..]).Hit? {
      LexAppendHit(x, y);
    } else {
      var c, x' := x[0], x[1..];
      if c == '[' {
        MissAppend(Opened, x', y);
      }
      assert x == [c] + x';
      LexPlain(c, x' + tail);
      LexPlain(c, x');
      ConsAppend(c, x', tail);
      LexAppend(x', y);
      ConsAppend(Ch(c), Lex(x'), [Ch(' ')] + Lex(y));
    }
  }

  lemma LexNothing()
    ensures Lex("") == []
  {
  }

  lemma {:induction false} LexAppendHit(x: string, y: string)
    requires y != "" && y[0] == '['
    requires x != "" && x[0] == '[' && Find(Opened, x[1..]).Hit?
    ensures Lex(x + ([' '] + y)) == Lex(x) + ([Ch(' ')] + Lex(y))
    decreases |x|, 0
  {
    hide IsSpace, IsIdChar, Step, Find, Lex;
    var tail := [' '] + y;
    var h := Find(Opened, x[1..]);
    var body, rest := x[1..1 + h.len], x[1 + h.len..];
    assert x[1..] == body + rest;
    assert x == ['['] + (body + rest);
    LexMatch(body, rest);
    HitAppend(Opened, x[1..], tail);
    assert x[1..] + tail == body + (rest + tail);
    LexMatch(body, rest + tail);
    ConsAppend('[', x[1..], tail);
    LexAppend(rest, y);
    ConsAppend(TokenOf(h), Lex(rest), [Ch(' ')] + Lex(y));
  }

  /******* What the automaton recognises *******/

  lemma HitNotEmpty(q: Scan, s: string)
    requires Find(q, s).Hit?
    ensures s != "" && 1 <= Find(q, s).len <= |s|
  {
  }

  lemma ReadClosing(s: string)
    requires Find(Scan.Closing, s).Hit?
    ensures var h := Find(Scan.Closing, s);
      1 <= h.len <= |s| && h.text == "" && AllSpace(s[..h.len - 1]) && s[..h.len] == s[..h.len - 1] + "]"
  {
    hide Find, Step, IsSpace, IsIdChar, IsDigit;
    var n := Find(Scan.Closing, s).len - 1;
    forall c | c in s[..n] ensures IsSpace(c) {
      var i :| 0 <= i < n && s[..n][i] == c;
      assert IsSpace(s[i]);
    }
    assert s[..n + 1] == s[..n] + [s[n]];
  }

  lemma Cons(s: string, n: nat)
    requires n < |s|
    ensures s[..n + 1] == [s[0]] + s[1..][..n]
  {
  }

  lemma {:induction false} ReadId(q: Scan, s: string) returns (after: string)
    requires Find(q, s).Hit? && (q.InId? || q.SawColon?) && !Find(q, s).numeric
    ensures AllSpace(after)
    ensures var h := Find(q, s); h.len <= |s| && s[..h.len] == h.text + (after + "]")
    decreases |s|
  {
    hide Find, IsSpace, IsIdChar, IsDigit;
    HitNotEmpty(q, s);
    FindUnfolds(q, s);
    var q' := Step(q, s[0]);
    if q'.Matched? {
      after := "";
      assert s[..1] == "]" && "" + ("" + "]") == "]";
    } else {
      var h' := Find(q', s[1..]);
      HitNotEmpty(q', s[1..]);
      Cons(s, h'.len);
      if q'.InId? {
        after := ReadId(q', s[1..]);
        ConsAppend(s[0], h'.text, after + "]");
      } else {
        ReadClosing(s[1..]);
        after := [s[0]] + s[1..][..h'.len - 1];
        SpaceJoins(s[0], s[1..][..h'.len - 1]);
        ConsAppend(s[0], s[1..][..h'.len - 1], "]");
        assert "" + (after + "]") == after + "]";
      }
    }
  }

  lemma SpaceJoins(c: char, s: string)
    requires IsSpace(c) && AllSpace(s)
    ensures AllSpace([c] + s)
  {
    hide IsSpace;
  }

  lemma ReadTag(s: string) returns (after: string)
    requires Find(SawC, s).Hit? && !Find(SawC, s).numeric
    ensures AllSpace(after)
    ensures var h := Find(SawC, s); h.len <= |s| && s[..h.len] == ":" + (h.text + (after + "]"))
  {
    hide Find, IsSpace, IsIdChar, IsDigit;
    HitNotEmpty(SawC, s);
    FindUnfolds(SawC, s);
    assert s[0] == ':';
    HitNotEmpty(SawColon, s[1..]);
    after := ReadId(SawColon, s[1..]);
    Cons(s, Find(SawColon, s[1..]).len);
  }

  lemma {:induction false} ReadMarker(q: Scan, s: string) returns (before: string, after: string)
    requires Find(q, s).Hit? && !Find(q, s).numeric && (q.Opened? || q.Spaced?)
    ensures AllSpace(before) && AllSpace(after)
    ensures var h := Find(q, s); h.len <= |s| && s[..h.len] == before + ("C:" + (h.text + (after + "]")))
    decreases |s|
  {
    hide Find, IsSpace, IsIdChar, IsDigit;
    HitNotEmpty(q, s);
    FindUnfolds(q, s);
    var q' := Step(q, s[0]);
    var h := Find(q', s[1..]);
    NotNumeric(q', s[1..]);
    HitNotEmpty(q', s[1..]);
    Cons(s, h.len);
    if q'.Spaced? {
      before, after := ReadMarker(q', s[1..]);
      ConsAppend(s[0], before, "C:" + (h.text + (after + "]")));
      SpaceJoins(s[0], before);
      before := [s[0]] + before;
    } else {
      assert s[0] == 'C';
      before := "";
      after := ReadTag(s[1..]);
      TagJoins(h.text + (after + "]"));
    }
  }

  lemma TagJoins(x: string)
    ensures ['C'] + (":" + x) == "" + ("C:" + x)
  {
  }

  lemma NotNumeric(q: Scan, s: string)
    ensures q.InNumber? && Find(q, s).Hit? ==> Find(q, s).numeric
  {
  }

  lemma {:induction false} FindClosing(post: string, rest: string)
    requires AllSpace(post)
    ensures Find(Scan.Closing, post + ("]" + rest)) == Hit(|post| + 1, "", false)
    decreases |post|
  {
    var s := post + ("]" + rest);
    BracketIsNoSpace();
    if post == "" {
      assert s[0] == ']';
    } else {
      assert s[0] == post[0] && post[0] in post && s[1..] == post[1..] + ("]" + rest);
      FindClosing(post[1..], rest);
    }
  }

  lemma BracketIsNoSpace()
    ensures !IsSpace(']') && !IsIdChar(']')
  {
  }

  lemma SpaceIsNoIdChar(c: char)
    requires IsSpace(c)
    ensures !IsIdChar(c)
  {
  }

  lemma {:induction false} FindId(q: Scan, id: string, post: string, rest: string)
    requires (q.InId? || (q.SawColon? && id != "")) && AllSpace(post) && forall c | c in id :: IsIdChar(c)
    ensures Find(q, id + (post + ("]" + rest))) == Hit(|id| + |post| + 1, id, false)
    decreases |id|
  {
    var tail := post + ("]" + rest);
    var s := id + tail;
    hide IsSpace, IsIdChar, IsDigit;
    BracketIsNoSpace();
    if id != "" {
      assert s[0] == id[0] && id[0] in id && s[1..] == id[1..] + tail;
      FindId(InId, id[1..], post, rest);
      assert [id[0]] + id[1..] == id;
    } else if post != "" {
      assert post[0] in post;
      SpaceIsNoIdChar(post[0]);
      assert s[0] == post[0] && s[1..] == post[1..] + ("]" + rest);
      FindClosing(post[1..], rest);
    } else {
      assert s[0] == ']';
    }
  }

  lemma {:induction false} FindLoose(q: Scan, before: string, id: string, post: string, rest: string)
    requires (q.Opened? || q.Spaced?) && AllSpace(before) && AllSpace(post) && ValidId(id)
    ensures Find(q, before + ("C:" + (id + (post + ("]" + rest))))) == Hit(|before| + 2 + |id| + |post| + 1, id, false)
    decreases |before|
  {
    hide Find, IsSpace, IsIdChar, IsDigit;
    var core := id + (post + ("]" + rest));
    if before == "" {
      FindId(SawColon, id, post, rest);
      FindAfterTag(q, core);
      assert "" + ("C:" + core) == ['C'] + ([':'] + core);
    } else {
      assert before[0] in before;
      var tail := before[1..] + ("C:" + core);
      FindLoose(Spaced, before[1..], id, post, rest);
      FindSpaced(q, before[0], tail);
      assert before == [before[0]] + before[1..];
      ConsAppend(before[0], before[1..], "C:" + core);
    }
  }

  lemma FindSpaced(q: Scan, c: char, tail: string)
    requires (q.Opened? || q.Spaced?) && IsSpace(c) && Find(Spaced, tail).Hit?
    ensures Find(q, [c] + tail) == Find(Spaced, tail).(len := Find(Spaced, tail).len + 1)
  {
    hide Find, IsSpace, IsIdChar, IsDigit;
    var s := [c] + tail;
    assert s[0] == c && s[1..] == tail;
    FindUnfolds(q, s);
  }

  /** Text a marker of `id` may be written as after its opening bracket: whitespace, the tag and the id,
      whitespace, the closing bracket. */
  ghost predicate Loosely(w: string, id: string) {
    exists before, after ::
      AllSpace(before) && AllSpace(after) && ValidId(id) && w == before + ("C:" + (id + (after + "]")))
  }

  /** The automaton recognises exactly the two patterns: after a bracket it finds a marker exactly when the
      text starts with one, possibly spaced, and a number exactly when it starts with digits and a bracket. */
  lemma RecognisedExactly(s: string, len: nat, text: string)
    requires len <= |s|
    ensures Find(Opened, s) == Hit(len, text, false) <==> Loosely(s[..len], text)
    ensures Find(Opened, s) == Hit(len, text, true) <==> ValidDigits(text) && s[..len] == text + "]"
  {
    hide Find, Loosely, ValidDigits;
    var rest := s[len..];
    assert s == s[..len] + rest;
    if Find(Opened, s) == Hit(len, text, false) {
      MarkerRead(s);
    }
    if Loosely(s[..len], text) {
      MarkerFound(s[..len], text, rest);
    }
    if Find(Opened, s) == Hit(len, text, true) {
      ReadNumber(Opened, s);
      NumberNotEmpty(s);
    }
    if ValidDigits(text) && s[..len] == text + "]" {
      NumberFound(text, rest);
    }
  }

  lemma MarkerRead(s: string)
    requires Find(Opened, s).Hit? && !Find(Opened, s).numeric
    ensures var h := Find(Opened, s); h.len <= |s| && Loosely(s[..h.len], h.text)
  {
    hide Step, IsIdChar, IsSpace, IsDigit, AllSpace;
    var before, after := ReadMarker(Opened, s);
  }

  lemma MarkerFound(w: string, id: string, rest: string)
    requires Loosely(w, id)
    ensures Find(Opened, w + rest) == Hit(|w|, id, false)
  {
    hide Find, IsIdChar, IsSpace, AllSpace, ValidId;
    var before, after :| AllSpace(before) && AllSpace(after) && ValidId(id) && w == before + ("C:" + (id + (after + "]")));
    FindLoose(Opened, before, id, after, rest);
    Regroup(before, id, after, rest);
  }

  lemma Regroup(before: string, id: string, after: string, rest: string)
    ensures before + ("C:" + (id + (after + "]"))) + rest == before + ("C:" + (id + (after + ("]" + rest))))
  {
  }

  lemma NumberNotEmpty(s: string)
    requires Find(Opened, s).Hit? && Find(Opened, s).numeric
    ensures ValidDigits(Find(Opened, s).text)
  {
    hide Step, IsIdChar, IsSpace, IsDigit;
  }

  lemma NumberFound(d: string, rest: string)
    requires ValidDigits(d)
    ensures Find(Opened, d + "]" + rest) == Hit(|d| + 1, d, true)
  {
    FindSpelledDigits(Opened, d, rest);
  }

  lemma {:induction false} ReadNumber(q: Scan, s: string)
    requires Find(q, s).Hit? && Find(q, s).numeric
    ensures s[..Find(q, s).len] == Find(q, s).text + "]"
    decreases |s|
  {
    hide IsSpace, IsIdChar, IsDigit;
    var q', h := Step(q, s[0]), Find(q, s);
    if !q'.Matched? {
      ReadNumber(q', s[1..]);
      assert s[..h.len] == [s[0]] + s[1..][..h.len - 1];
    }
  }
}
