/** How tokens are spelled, and that the lexer reads exactly those spellings; with
    the grammar, that printing a tree and parsing it gives the tree back. */
module CfgRoundTrip {
  import opened Results
  import opened CfgSyntax
  import opened CfgGrammar

  predicate IsIdent(name: string) {
    name != [] && IsIdentStart(name[0]) && forall i | 0 <= i < |name| :: IsIdentRest(name[i])
  }

  /** The tokens a text can spell: identifiers, and strings with no quote in them. */
  predicate Spellable(t: Token) {
    match t
    case Ident(name, _) => IsIdent(name)
    case Str(text) => '"' !in text
    case _ => true
  }

  function Lexeme(t: Token): (s: string)
    ensures s != []
  {
    match t
    case LeftParen => "("
    case RightParen => ")"
    case Comma => ","
    case Equals => "="
    case Ident(name, raw) => if raw then "r#" + name else if name == [] then "_" else name
    case Str(text) => "\"" + text + "\""
  }

  function Spaces(n: nat): (s: string)
    ensures |s| == n && forall i | 0 <= i < n :: s[i] == ' '
  {
    if n == 0 then [] else [' '] + Spaces(n - 1)
  }

  /** The tokens written out with `gaps[i]` spaces before token `i` and `gaps[|ts|]` at the end. */
  function Spell(ts: seq<Token>, gaps: seq<nat>): string
    requires |gaps| == |ts| + 1
    decreases |ts|
  {
    if ts == [] then Spaces(gaps[0]) else Spaces(gaps[0]) + (Lexeme(ts[0]) + Spell(ts[1..], gaps[1..]))
  }

  /** Two identifiers in a row have a space between them. */
  predicate Separated(ts: seq<Token>, gaps: seq<nat>)
    requires |gaps| == |ts| + 1
  {
    forall i | 0 < i < |ts| :: ts[i - 1].Ident? && ts[i].Ident? ==> gaps[i] > 0
  }

  predicate AllSpellable(ts: seq<Token>) {
    forall i | 0 <= i < |ts| :: Spellable(ts[i])
  }

  // ----- reading a text in two pieces -----

  /** No identifier runs over the seam between `a` and `b`. */
  predicate Joins(a: string, b: string) {
    a == [] || b == [] || !IsIdentRest(a[|a| - 1]) || !IsIdentRest(b[0])
  }

  lemma {:induction false} IdentLengthIs(s: string, n: nat)
    requires n <= |s| && forall i | 0 <= i < n :: IsIdentRest(s[i])
    requires n < |s| ==> !IsIdentRest(s[n])
    ensures IdentLength(s) == n
  {}

  lemma {:induction false} FindIs(s: string, c: char, n: nat)
    requires n <= |s| && forall i | 0 <= i < n :: s[i] != c
    requires n < |s| ==> s[n] == c
    ensures Find(s, c) == n
  {}

  function Behind(step: Step, b: string): Step {
    match step
    case Blank(rest) => Blank(rest + b)
    case Emit(token, rest) => Emit(token, rest + b)
    case Refuse(why) => Refuse(why)
  }

  lemma {:induction false} NextJoined(a: string, b: string)
    requires a != [] && !Next(a).Refuse? && Joins(a, b)
    requires b == [] || b[0] != '#'
    ensures Next(a + b) == Behind(Next(a), b)
  {
    if a[0] == '"' {
      NextStringJoined(a, b);
    } else if IsIdentStart(a[0]) {
      NextIdentJoined(a, b);
      LetterReadsAnIdent(a);
      LetterReadsAnIdent(a + b);
    } else {
      NextMarkJoined(a, b);
    }
  }

  lemma {:induction false} LetterReadsAnIdent(s: string)
    requires s != [] && IsIdentStart(s[0])
    ensures Next(s) == NextIdent(s)
  {}

  lemma {:induction false} NextMarkJoined(a: string, b: string)
    requires a != [] && a[0] != '"' && !IsIdentStart(a[0]) && !Next(a).Refuse?
    ensures Next(a + b) == Behind(Next(a), b)
  {
    assert (a + b)[1..] == a[1..] + b;
  }

  lemma {:induction false} NextStringJoined(a: string, b: string)
    requires a != [] && NextString(a).Emit?
    ensures NextString(a + b) == Behind(NextString(a), b)
  {
    var inner := a[1..];
    var n := Find(inner, '"');
    assert (a + b)[1..] == inner + b;
    FindIs(inner + b, '"', n);
    assert (inner + b)[..n] == inner[..n] && (inner + b)[n + 1..] == inner[n + 1..] + b;
  }

  lemma {:induction false} NextNameJoined(a: string, b: string, raw: bool)
    requires a != [] && IsIdentStart(a[0]) && Joins(a, b)
    ensures NextName(a + b, raw) == Behind(NextName(a, raw), b)
  {
    var n := IdentLength(a);
    IdentLengthIs(a + b, n);
    assert (a + b)[..n] == a[..n] && (a + b)[n..] == a[n..] + b;
  }

  lemma {:induction false} LexRefusesHash(b: string)
    requires b != [] && b[0] == '#'
    ensures Lex(b).Err?
  {}

  lemma {:induction false} NextIdentJoined(a: string, b: string)
    requires a != [] && IsIdentStart(a[0]) && NextIdent(a).Emit? && Joins(a, b)
    requires b == [] || b[0] != '#'
    ensures NextIdent(a + b) == Behind(NextIdent(a), b)
  {
    if a[0] == 'r' && |a| > 1 && a[1] == '#' {
      assert (a + b)[2..] == a[2..] + b;
      NextNameJoined(a[2..], b, true);
    } else {
      NextNameJoined(a, b, false);
    }
  }

  lemma {:induction false} NextKeepsTheEnd(a: string)
    requires a != [] && !Next(a).Refuse?
    ensures var rest := Next(a).rest; rest == [] || rest[|rest| - 1] == a[|a| - 1]
  {}

  /** Two readable texts put together read as their tokens put together. */
  lemma {:induction false} LexJoined(a: string, b: string)
    requires Lex(a).Ok? && Lex(b).Ok? && Joins(a, b)
    ensures Lex(a + b) == Ok(Lex(a).value + Lex(b).value)
    decreases |a|
  {
    if a == [] {
      assert a + b == b;
      assert [] + Lex(b).value == Lex(b).value;
    } else {
      assert b == [] || b[0] != '#' by {
        if b != [] && b[0] == '#' {
          LexRefusesHash(b);
        }
      }
      NextJoined(a, b);
      NextKeepsTheEnd(a);
      LexJoined(Next(a).rest, b);
      if Next(a).Emit? {
        PrependTo([Next(a).token], Lex(Next(a).rest).value, Lex(b).value);
      }
    }
  }

  lemma {:induction false} PrependTo(a: seq<Token>, b: seq<Token>, c: seq<Token>)
    ensures a + b + c == a + (b + c)
  {}

  // ----- the lexer reads exactly the spellings -----

  lemma {:induction false} LexSpaces(n: nat)
    ensures Lex(Spaces(n)) == Ok([])
  {
    if n > 0 {
      LexSpaces(n - 1);
      assert Spaces(n)[1..] == Spaces(n - 1);
    }
  }

  lemma {:induction false} NextLexeme(t: Token)
    requires Spellable(t)
    ensures Next(Lexeme(t)) == Emit(t, [])
  {
    match t
    case Ident(name, raw) => NextIdentLexeme(name, raw);
    case Str(text) => NextStringLexeme(text);
    case _ =>
  }

  lemma {:induction false} NextStringLexeme(text: string)
    requires '"' !in text
    ensures Next(Lexeme(Str(text))) == Emit(Str(text), [])
  {
    var s := Lexeme(Str(text));
    assert s[1..] == text + "\"";
    FindIs(s[1..], '"', |text|);
    assert s[1..][..|text|] == text;
  }

  lemma {:induction false} NextIdentLexeme(name: string, raw: bool)
    requires Spellable(Ident(name, raw))
    ensures Next(Lexeme(Ident(name, raw))) == Emit(Ident(name, raw), [])
  {
    var s := Lexeme(Ident(name, raw));
    IdentLengthIs(name, |name|);
    assert name[..|name|] == name;
    if raw {
      assert s[2..] == name;
    } else {
      assert |s| > 1 ==> IsIdentRest(s[1]);
    }
  }

  lemma {:induction false} LexLexeme(t: Token)
    requires Spellable(t)
    ensures Lex(Lexeme(t)) == Ok([t])
  {
    NextLexeme(t);
    assert Lex([]) == Ok([]);
    assert [t] + [] == [t];
  }

  lemma {:induction false} LexTokenThen(t: Token, more: string)
    requires Spellable(t) && Lex(more).Ok? && Joins(Lexeme(t), more)
    ensures Lex(Lexeme(t) + more) == Ok([t] + Lex(more).value)
  {
    LexLexeme(t);
    LexJoined(Lexeme(t), more);
  }

  lemma {:induction false} LexSpacesThen(n: nat, more: string)
    requires Lex(more).Ok?
    ensures Lex(Spaces(n) + more) == Lex(more)
  {
    LexSpaces(n);
    LexJoined(Spaces(n), more);
    assert [] + Lex(more).value == Lex(more).value;
  }

  lemma {:induction false} SpellingStart(ts: seq<Token>, gaps: seq<nat>)
    requires |gaps| == |ts| + 1 && ts != [] && gaps[0] == 0
    ensures Spell(ts, gaps) != [] && Spell(ts, gaps)[0] == Lexeme(ts[0])[0]
  {}

  lemma {:induction false} LexSpelling(ts: seq<Token>, gaps: seq<nat>)
    requires |gaps| == |ts| + 1 && AllSpellable(ts) && Separated(ts, gaps)
    ensures Lex(Spell(ts, gaps)) == Ok(ts)
    decreases |ts|
  {
    if ts == [] {
      LexSpaces(gaps[0]);
    } else {
      var t, more := ts[0], Spell(ts[1..], gaps[1..]);
      LexSpelling(ts[1..], gaps[1..]);
      SpellingJoins(t, ts[1..], gaps[1..]);
      LexTokenThen(t, more);
      LexSpacesThen(gaps[0], Lexeme(t) + more);
      assert ts == [t] + ts[1..];
    }
  }

  lemma {:induction false} SpellingJoins(t: Token, ts: seq<Token>, gaps: seq<nat>)
    requires |gaps| == |ts| + 1 && Spellable(t) && AllSpellable(ts)
    requires ts != [] && t.Ident? && ts[0].Ident? ==> gaps[0] > 0
    ensures Joins(Lexeme(t), Spell(ts, gaps))
  {
    if ts != [] && gaps[0] == 0 {
      SpellingStart(ts, gaps);
    }
  }

  lemma {:induction false} NextIsLexeme(s: string)
    requires s != [] && Next(s).Emit?
    ensures Spellable(Next(s).token) && s == Lexeme(Next(s).token) + Next(s).rest
    ensures Next(s).token.Ident? && Next(s).rest != [] ==> !IsIdentRest(Next(s).rest[0])
  {
    if s[0] == '"' {
      StringIsLexeme(s);
    } else if IsIdentStart(s[0]) {
      IdentIsLexeme(s);
    }
  }

  /** A text that starts with a token, as its lexeme and the text after it. */
  lemma {:induction false} TokenThenText(s: string) returns (t: Token, rest: string)
    requires s != [] && Next(s).Emit? && Lex(s).Ok?
    ensures Spellable(t) && s == Lexeme(t) + rest
    ensures Lex(rest).Ok? && Lex(s).value == [t] + Lex(rest).value
    ensures t.Ident? && rest != [] ==> !IsIdentRest(rest[0])
  {
    NextIsLexeme(s);
    t, rest := Next(s).token, Next(s).rest;
  }

  lemma {:induction false} StringIsLexeme(s: string)
    requires s != [] && s[0] == '"' && NextString(s).Emit?
    ensures Spellable(NextString(s).token) && s == Lexeme(NextString(s).token) + NextString(s).rest
  {
    var inner := s[1..];
    var n := Find(inner, '"');
    assert inner == inner[..n] + ['"'] + inner[n + 1..];
    assert s == ['"'] + inner;
  }

  lemma {:induction false} IdentIsLexeme(s: string)
    requires s != [] && IsIdentStart(s[0]) && NextIdent(s).Emit?
    ensures Spellable(NextIdent(s).token) && s == Lexeme(NextIdent(s).token) + NextIdent(s).rest
    ensures NextIdent(s).token.Ident?
    ensures NextIdent(s).rest != [] ==> !IsIdentRest(NextIdent(s).rest[0])
  {
    if s[0] == 'r' && |s| > 1 && s[1] == '#' {
      NameIsLexeme(s[2..]);
      assert s == "r#" + s[2..];
    } else {
      NameIsLexeme(s);
    }
  }

  lemma {:induction false} NameIsLexeme(s: string)
    requires s != [] && IsIdentStart(s[0])
    ensures var n := IdentLength(s);
            IsIdent(s[..n]) && s == s[..n] + s[n..] && (s[n..] != [] ==> !IsIdentRest(s[n..][0]))
  {}

  lemma {:induction false} SpellingOf(s: string) returns (gaps: seq<nat>)
    requires Lex(s).Ok?
    ensures |gaps| == |Lex(s).value| + 1 && AllSpellable(Lex(s).value) && Separated(Lex(s).value, gaps) &&
        s == Spell(Lex(s).value, gaps)
    decreases |s|
  {
    if s == [] {
      gaps := [0];
    } else {
      var rest := Next(s).rest;
      var more := SpellingOf(rest);
      var ts := Lex(rest).value;
      if Next(s).Blank? {
        gaps := [more[0] + 1] + more[1..];
        SpellAfterBlank(ts, more, gaps);
        assert s == [' '] + rest && Lex(s).value == ts;
      } else {
        var t := Next(s).token;
        NextIsLexeme(s);
        gaps := [0] + more;
        SpellAfterToken(t, ts, more, gaps);
        assert Lex(s).value == [t] + ts;
      }
    }
  }

  lemma {:induction false} SpellAfterBlank(ts: seq<Token>, more: seq<nat>, gaps: seq<nat>)
    requires |more| == |ts| + 1 && gaps == [more[0] + 1] + more[1..] && Separated(ts, more)
    ensures Separated(ts, gaps) && [' '] + Spell(ts, more) == Spell(ts, gaps)
  {
    assert gaps[1..] == more[1..];
    assert forall i | 0 < i < |gaps| :: gaps[i] == more[i];
    SpellStartsWithSpaces(ts, more);
    SpellStartsWithSpaces(ts, gaps);
    OneMoreSpace(more[0], AfterSpaces(ts, more[1..]));
  }

  /** What the tokens and all gaps but the first spell. */
  function AfterSpaces(ts: seq<Token>, gaps: seq<nat>): string
    requires |gaps| == |ts|
  {
    if ts == [] then [] else Lexeme(ts[0]) + Spell(ts[1..], gaps)
  }

  lemma {:induction false} SpellStartsWithSpaces(ts: seq<Token>, gaps: seq<nat>)
    requires |gaps| == |ts| + 1
    ensures Spell(ts, gaps) == Spaces(gaps[0]) + AfterSpaces(ts, gaps[1..])
  {}

  lemma {:induction false} OneMoreSpace(n: nat, tail: string)
    ensures [' '] + (Spaces(n) + tail) == Spaces(n + 1) + tail
  {}

  lemma {:induction false} SpellAfterToken(t: Token, ts: seq<Token>, more: seq<nat>, gaps: seq<nat>)
    requires |more| == |ts| + 1 && gaps == [0] + more && Separated(ts, more) && AllSpellable(ts)
    requires t.Ident? && Spell(ts, more) != [] ==> !IsIdentRest(Spell(ts, more)[0])
    ensures Separated([t] + ts, gaps) && Lexeme(t) + Spell(ts, more) == Spell([t] + ts, gaps)
  {
    assert gaps[1..] == more && ([t] + ts)[1..] == ts;
    assert Spaces(0) == [];
    if ts != [] && more[0] == 0 && ts[0].Ident? {
      assert Spell(ts, more)[0] == Lexeme(ts[0])[0];
    }
    forall i | 0 < i < |[t] + ts| && ([t] + ts)[i - 1].Ident? && ([t] + ts)[i].Ident? ensures gaps[i] > 0 {
      assert gaps[i] == more[i - 1];
      if i > 1 {
        assert ([t] + ts)[i - 1] == ts[i - 2];
      }
    }
  }

  /** A text lexes to `ts` exactly when it spells `ts`. */
  lemma {:induction false} LexerReadsSpellings(s: string, ts: seq<Token>)
    ensures Lex(s) == Ok(ts) <==>
            AllSpellable(ts) && exists gaps: seq<nat> ::
              |gaps| == |ts| + 1 && Separated(ts, gaps) && s == Spell(ts, gaps)
  {
    if Lex(s) == Ok(ts) {
      var gaps := SpellingOf(s);
    }
    if AllSpellable(ts) {
      if gaps: seq<nat> :| |gaps| == |ts| + 1 && Separated(ts, gaps) && s == Spell(ts, gaps) {
        LexSpelling(ts, gaps);
      }
    }
  }

  // ----- printing a tree and parsing it -----

  /** The trees texts stand for: names are identifiers other than `true` and
      `false`, which are trees of their own, and values have no quote in them. */
  predicate WellFormed(e: Expr) {
    match e
    case Not(inner) => WellFormed(inner)
    case All(items) => forall i | 0 <= i < |items| :: WellFormed(items[i])
    case Any(items) => forall i | 0 <= i < |items| :: WellFormed(items[i])
    case Value(Name(name)) => IsIdent(name) && name != "true" && name != "false"
    case Value(Pair(key, text)) => IsIdent(key) && '"' !in text
    case True => true
    case False => true
  }

  /** A tree's derivation with every name and key written raw. */
  function RawDerivation(e: Expr): Derivation
    decreases e
  {
    match e
    case Not(inner) => DNot(RawDerivation(inner))
    case All(items) => DList(true, RawDerivations(items), false)
    case Any(items) => DList(false, RawDerivations(items), false)
    case Value(Name(name)) => DName(name, true)
    case Value(Pair(key, text)) => DPair(key, true, text)
    case True => DName("true", true)
    case False => DName("false", true)
  }

  function RawDerivations(es: seq<Expr>): (ds: seq<Derivation>)
    ensures |ds| == |es| && forall i | 0 <= i < |es| :: ds[i] == RawDerivation(es[i])
    decreases es
  {
    if es == [] then [] else [RawDerivation(es[0])] + RawDerivations(es[1..])
  }

  function Print(e: Expr): seq<Token> {
    Yield(RawDerivation(e))
  }

  lemma {:induction false} RawDerivationIsOf(e: Expr)
    requires WellFormed(e)
    ensures Derives(RawDerivation(e)) && Tree(RawDerivation(e)) == e
    decreases e
  {
    match e
    case Not(inner) => RawDerivationIsOf(inner);
    case All(items) =>
      forall i | 0 <= i < |items|
        ensures Derives(RawDerivation(items[i])) && Tree(RawDerivation(items[i])) == items[i] {
        RawDerivationIsOf(items[i]);
      }
      assert Trees(RawDerivations(items)) == items;
    case Any(items) =>
      forall i | 0 <= i < |items|
        ensures Derives(RawDerivation(items[i])) && Tree(RawDerivation(items[i])) == items[i] {
        RawDerivationIsOf(items[i]);
      }
      assert Trees(RawDerivations(items)) == items;
    case Value(Name(name)) =>
    case Value(Pair(key, text)) =>
    case True =>
    case False =>
      TrueIsNotFalse();
  }

  lemma {:induction false} TrueIsNotFalse()
    ensures "true" != "false"
  {
    assert |"true"| == 4 && |"false"| == 5;
  }

  /** What holds of each of a derivation's own names, keys and values. */
  predicate SpellableLeaves(d: Derivation) {
    match d
    case DName(name, _) => IsIdent(name)
    case DPair(key, _, text) => IsIdent(key) && '"' !in text
    case DNot(inner) => SpellableLeaves(inner)
    case DList(_, items, _) => forall i | 0 <= i < |items| :: SpellableLeaves(items[i])
  }

  lemma {:induction false} RawLeaves(e: Expr)
    requires WellFormed(e)
    ensures SpellableLeaves(RawDerivation(e))
    decreases e
  {
    match e
    case Not(inner) => RawLeaves(inner);
    case All(items) => forall i | 0 <= i < |items| { RawLeaves(items[i]); }
    case Any(items) => forall i | 0 <= i < |items| { RawLeaves(items[i]); }
    case _ =>
  }

  lemma {:induction false} YieldSpells(d: Derivation)
    ensures AllSpellable(Yield(d)) <==> SpellableLeaves(d)
    decreases d, 0
  {
    match d
    case DName(name, raw) =>
      assert Yield(d)[0] == Ident(name, raw);
    case DPair(key, raw, text) =>
      var ts := Yield(d);
      assert ts[0] == Ident(key, raw) && ts[2] == Str(text) && |ts| == 3;
    case DNot(inner) =>
      YieldSpells(inner);
      FramedSpells(NOT, Yield(inner));
    case DList(all, items, trailing) =>
      YieldItemsSpell(items, trailing);
      FramedSpells(if all then ALL else ANY, YieldItems(items, trailing));
  }

  lemma {:induction false} FramedSpells(op: Token, body: seq<Token>)
    requires Spellable(op)
    ensures AllSpellable([op, LeftParen] + body + [RightParen]) <==> AllSpellable(body)
  {
    var ts := [op, LeftParen] + body + [RightParen];
    assert forall i | 0 <= i < |body| :: ts[i + 2] == body[i];
  }

  lemma {:induction false} YieldItemsSpell(ds: seq<Derivation>, trailing: bool)
    ensures AllSpellable(YieldItems(ds, trailing)) <==> forall i | 0 <= i < |ds| :: SpellableLeaves(ds[i])
    decreases ds, 1
  {
    if ds != [] {
      YieldSpells(ds[0]);
      YieldItemsSpell(ds[1..], trailing);
      MoreSpells(ds[1..], trailing);
      JoinedSpells(Yield(ds[0]), YieldMore(ds[1..], trailing));
      AllLeaves(ds);
    }
  }

  lemma {:induction false} MoreSpells(ds: seq<Derivation>, trailing: bool)
    ensures AllSpellable(YieldMore(ds, trailing)) <==> AllSpellable(YieldItems(ds, trailing))
  {
    if ds != [] {
      JoinedSpells([Comma], YieldItems(ds, trailing));
    }
  }

  lemma {:induction false} AllLeaves(ds: seq<Derivation>)
    requires ds != []
    ensures (forall i | 0 <= i < |ds| :: SpellableLeaves(ds[i])) <==>
            SpellableLeaves(ds[0]) && forall i | 0 <= i < |ds[1..]| :: SpellableLeaves(ds[1..][i])
  {
    assert forall i | 1 <= i < |ds| :: ds[i] == ds[1..][i - 1];
  }

  lemma {:induction false} JoinedSpells(a: seq<Token>, b: seq<Token>)
    ensures AllSpellable(a + b) <==> AllSpellable(a) && AllSpellable(b)
  {
    assert forall i | 0 <= i < |a| :: (a + b)[i] == a[i];
    assert forall i | 0 <= i < |b| :: (a + b)[|a| + i] == b[i];
  }

  /** No derivation puts two identifiers next to each other, so no gap between
      its tokens has to be open. */
  predicate Spread(ts: seq<Token>) {
    forall i | 0 < i < |ts| :: !(ts[i - 1].Ident? && ts[i].Ident?)
  }

  lemma {:induction false} JoinedSpread(a: seq<Token>, b: seq<Token>)
    requires Spread(a) && Spread(b)
    requires a == [] || b == [] || !a[|a| - 1].Ident? || !b[0].Ident?
    ensures Spread(a + b)
  {
    var ts := a + b;
    forall i | 0 < i < |ts| ensures !(ts[i - 1].Ident? && ts[i].Ident?) {
      if i > |a| {
        assert ts[i - 1] == b[i - |a| - 1] && ts[i] == b[i - |a|];
      }
    }
  }

  lemma {:induction false} YieldSpread(d: Derivation)
    ensures Spread(Yield(d))
    decreases d, 0
  {
    match d
    case DName(_, _) =>
    case DPair(_, _, _) =>
    case DNot(inner) =>
      YieldSpread(inner);
    case DList(all, items, trailing) =>
      YieldItemsSpread(items, trailing);
  }

  lemma {:induction false} YieldItemsSpread(ds: seq<Derivation>, trailing: bool)
    ensures Spread(YieldItems(ds, trailing))
    decreases ds, 1
  {
    if ds != [] {
      YieldSpread(ds[0]);
      var more := YieldMore(ds[1..], trailing);
      if |ds| > 1 {
        YieldItemsSpread(ds[1..], trailing);
        JoinedSpread([Comma], YieldItems(ds[1..], trailing));
      }
      JoinedSpread(Yield(ds[0]), more);
    }
  }

  /** Printing any well-formed tree, with its names written raw and any number of
      spaces before, between and after the tokens, and parsing the text gives the
      tree back. */
  lemma {:induction false} PrintThenParse(e: Expr, gaps: seq<nat>)
    requires WellFormed(e) && |gaps| == |Print(e)| + 1
    ensures Parse(Spell(Print(e), gaps)) == Ok(e)
  {
    var d := RawDerivation(e);
    RawDerivationIsOf(e);
    RawLeaves(e);
    YieldSpells(d);
    YieldSpread(d);
    LexSpelling(Print(e), gaps);
    ParserAcceptsTheGrammar(Print(e), e);
  }

  lemma {:induction false} TreesAreWellFormed(d: Derivation)
    requires SpellableLeaves(d)
    ensures WellFormed(Tree(d))
    decreases d
  {
    match d
    case DNot(inner) => TreesAreWellFormed(inner);
    case DList(all, items, _) =>
      forall i | 0 <= i < |items| ensures WellFormed(Tree(items[i])) {
        TreesAreWellFormed(items[i]);
      }
      if all {
        assert WellFormed(All(Trees(items)));
      } else {
        assert WellFormed(Any(Trees(items)));
      }
    case _ =>
  }

  /** The trees `Parse` gives are exactly the well-formed ones. */
  lemma {:induction false} ParseGivesTheWellFormed(e: Expr)
    ensures WellFormed(e) <==> exists text :: Parse(text) == Ok(e)
  {
    if WellFormed(e) {
      var gaps := seq(|Print(e)| + 1, _ => 0);
      PrintThenParse(e, gaps);
    }
    if text :| Parse(text) == Ok(e) {
      var ts := Lex(text).value;
      var gaps := SpellingOf(text);
      ParserAcceptsTheGrammar(ts, e);
      var d :| Derives(d) && Yield(d) == ts && Tree(d) == e;
      YieldSpells(d);
      TreesAreWellFormed(d);
    }
  }

  /** A name written raw is the constant all the same: `r#true` is true. */
  lemma {:induction false} RawConstantIsTheConstant(constant: bool)
    ensures Parse("r#" + (if constant then "true" else "false")) == Ok(if constant then True else False)
  {
    var name := if constant then "true" else "false";
    var t := Ident(name, true);
    assert forall i | 0 <= i < |name| :: IsIdentRest(name[i]);
    LexLexeme(t);
    assert Lexeme(t) == "r#" + name;
    assert t != ALL && t != ANY && t != NOT;
    var ts := [t];
    assert ts[1..] == [];
    assert ParseValue(ts) == Ok(Parsed(Name(name), []));
    assert |"true"| == 4 && |"false"| == 5;
  }
}
