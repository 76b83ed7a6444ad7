/** `test_only` of tools/wire_audit.py, which decides from a `cfg(...)` predicate's
    text whether the code under it is compiled for tests alone, judged against the
    meaning crates/cargo-pwrs/src/cfg.rs gives the same text. */
module WireAudit {
  import opened Results
  import opened Text
  import opened CfgSyntax
  import opened CfgGrammar
  import opened CfgRoundTrip

  /** What Python's `str.strip` and `\s` take for white space. */
  predicate IsPySpace(c: char) {
    IsSpace(c) || '\U{1C}' <= c <= '\U{1F}'
  }

  function Strip(s: string): (r: string)
    ensures |r| <= |s|
  {
    Trim(s, IsPySpace)
  }

  /** The terms still to come when `s` is left to read. */
  function SplitRest(s: string, depth: int, quoted: bool, cur: string): seq<string>
    decreases |s|
  {
    if s == [] then
      if Strip(cur) != [] then [Strip(cur)] else []
    else
      var c, rest := s[0], s[1..];
      if c == '"' then SplitRest(rest, depth, !quoted, cur + [c])
      else if !quoted && c == '(' then SplitRest(rest, depth + 1, quoted, cur + [c])
      else if !quoted && c == ')' then SplitRest(rest, depth - 1, quoted, cur + [c])
      else if !quoted && c == ',' && depth == 0 then [Strip(cur)] + SplitRest(rest, depth, quoted, [])
      else SplitRest(rest, depth, quoted, cur + [c])
  }

  method SplitTerms(s: string) returns (terms: seq<string>)
    ensures terms == SplitRest(s, 0, false, [])
  {
    terms := [];
    var depth, quoted, cur := 0, false, "";
    assert s[0..] == s;
    for i := 0 to |s|
      invariant SplitRest(s, 0, false, []) == terms + SplitRest(s[i..], depth, quoted, cur)
    {
      var c := s[i];
      assert s[i..][0] == c && s[i..][1..] == s[i + 1..];
      if c == '"' {
        quoted := !quoted;
      } else if !quoted && c == '(' {
        depth := depth + 1;
      } else if !quoted && c == ')' {
        depth := depth - 1;
      } else if !quoted && c == ',' && depth == 0 {
        terms := terms + [Strip(cur)];
        cur := [];
        continue;
      }
      cur := cur + [c];
    }
    var tail := Strip(cur);
    if tail != [] {
      terms := terms + [tail];
    }
  }

  lemma {:induction false} TermsAreShort(s: string, depth: int, quoted: bool, cur: string)
    ensures forall i | 0 <= i < |SplitRest(s, depth, quoted, cur)| ::
        |SplitRest(s, depth, quoted, cur)[i]| <= |cur| + |s|
    decreases |s|
  {
    if s != [] {
      var c, rest := s[0], s[1..];
      if c == '"' {
        TermsAreShort(rest, depth, !quoted, cur + [c]);
      } else if !quoted && c == '(' {
        TermsAreShort(rest, depth + 1, quoted, cur + [c]);
      } else if !quoted && c == ')' {
        TermsAreShort(rest, depth - 1, quoted, cur + [c]);
      } else if !quoted && c == ',' && depth == 0 {
        TermsAreShort(rest, depth, quoted, []);
      } else {
        TermsAreShort(rest, depth, quoted, cur + [c]);
      }
    }
  }

  /** An `all(...)` or `any(...)`: which, and the text between its parentheses. */
  datatype List = List(all: bool, inner: string)

  /** The whole of `p` as `(all|any)\s*\((.*)\)`. */
  function ListOf(p: string): (r: Option<List>)
    ensures r.Some? ==> |r.value.inner| < |p|
  {
    if |p| < 3 || (p[..3] != ALL.name && p[..3] != ANY.name) then None
    else
      var r := TrimStart(p[3..], IsPySpace);
      if |r| >= 2 && r[0] == '(' && r[|r| - 1] == ')' then Some(List(p[..3] == ALL.name, r[1..|r| - 1])) else None
  }

  predicate TestOnly(text: string)
    decreases |text|
  {
    var p := Strip(text);
    p == "test" ||
    match ListOf(p)
    case None => false
    case Some(list) =>
      var terms := SplitRest(list.inner, 0, false, []);
      TermsAreShort(list.inner, 0, false, []);
      if list.all then exists i | 0 <= i < |terms| :: TestOnly(terms[i])
      else terms != [] && forall i | 0 <= i < |terms| :: TestOnly(terms[i])
  }

  // ----- removing what ends a readable text -----

  lemma {:induction false} NextWithout(x: string, c: char)
    requires x != [] && !IsIdentRest(c) && c != '"' && c != '#'
    requires !Next(x + [c]).Refuse?
    ensures Next(x + [c]) == Behind(Next(x), [c])
  {
    var s := x + [c];
    assert s[1..] == x[1..] + [c];
    if x[0] == '"' {
      var inner, n := x[1..], Find(s[1..], '"');
      assert (inner + [c])[n] == '"' && n < |inner|;
      assert forall i | 0 <= i < n :: inner[i] == (inner + [c])[i];
      FindIs(inner, '"', n);
      NextStringJoined(x, [c]);
    } else if IsIdentStart(x[0]) {
      if x[0] == 'r' && |x| > 1 && x[1] == '#' {
        assert |x| > 2 && x[2] == s[2];
      }
      NextIdentJoined(x, [c]);
    }
  }

  lemma {:induction false} LexWithout(x: string, c: char)
    requires !IsIdentRest(c) && c != '"' && c != '#'
    requires Lex(x + [c]).Ok?
    ensures Lex(x).Ok? && Lex([c]).Ok?
    ensures Lex(x + [c]).value == Lex(x).value + Lex([c]).value
    decreases |x|
  {
    if x == [] {
      assert x + [c] == [c];
    } else {
      NextWithout(x, c);
      LexWithout(Next(x).rest, c);
      if Next(x).Emit? {
        PrependTo([Next(x).token], Lex(Next(x).rest).value, Lex([c]).value);
      }
    }
  }

  lemma {:induction false} TrimmedStartLexes(s: string)
    requires Lex(s).Ok?
    ensures Lex(TrimStart(s, IsPySpace)) == Lex(s)
    ensures |TrimStart(s, IsPySpace)| < |s| ==> s[0] == ' '
  {
    if s != [] && IsPySpace(s[0]) {
      assert s[0] == ' ';
      TrimmedStartLexes(s[1..]);
    }
  }

  lemma {:induction false} TrimmedEndLexes(s: string)
    requires Lex(s).Ok?
    ensures Lex(TrimEnd(s, IsPySpace)) == Lex(s)
  {
    if s != [] && IsPySpace(s[|s| - 1]) {
      var x, c := s[..|s| - 1], s[|s| - 1];
      assert s == x + [c];
      LexWithout(x, c);
      assert c == ' ';
      LexSpaces(1);
      assert Spaces(1) == [c];
      assert Lex(x).value + [] == Lex(x).value;
      TrimmedEndLexes(x);
    }
  }

  lemma {:induction false} SomethingLexesToSomething(s: string)
    requires Lex(s) == Ok([]) && s != []
    ensures s[0] == ' '
  {}

  /** Stripping changes no token, and leaves nothing exactly where there is none. */
  lemma {:induction false} StrippedLexes(s: string)
    requires Lex(s).Ok?
    ensures Lex(Strip(s)) == Lex(s)
    ensures Strip(s) == [] <==> Lex(s) == Ok([])
  {
    var t := TrimStart(s, IsPySpace);
    TrimmedStartLexes(s);
    TrimmedEndLexes(t);
    if Lex(s) == Ok([]) && t != [] {
      SomethingLexesToSomething(t);
    }
  }

  // ----- the terms lex to the items between top-level commas -----

  /** `split_terms` over tokens. */
  function TokenTerms(ts: seq<Token>, depth: int, cur: seq<Token>): seq<seq<Token>>
    decreases |ts|
  {
    if ts == [] then
      if cur != [] then [cur] else []
    else
      match ts[0]
      case LeftParen => TokenTerms(ts[1..], depth + 1, cur + [ts[0]])
      case RightParen => TokenTerms(ts[1..], depth - 1, cur + [ts[0]])
      case Comma => if depth == 0 then [cur] + TokenTerms(ts[1..], depth, [])
        else TokenTerms(ts[1..], depth, cur + [ts[0]])
      case _ => TokenTerms(ts[1..], depth, cur + [ts[0]])
  }

  ghost predicate Lexes(terms: seq<string>, lists: seq<seq<Token>>) {
    |terms| == |lists| && forall i | 0 <= i < |terms| :: Lex(terms[i]) == Ok(lists[i])
  }

  lemma {:induction false} SplitOverName(w: string, rest: string, depth: int, quoted: bool, cur: string)
    requires forall i | 0 <= i < |w| :: w[i] != '"' && (quoted || (w[i] != '(' && w[i] != ')' && w[i] != ','))
    ensures SplitRest(w + rest, depth, quoted, cur) == SplitRest(rest, depth, quoted, cur + w)
    decreases |w|
  {
    if w == [] {
      assert w + rest == rest && cur + w == cur;
    } else {
      assert (w + rest)[1..] == w[1..] + rest;
      SplitOverName(w[1..], rest, depth, quoted, cur + [w[0]]);
      assert cur + [w[0]] + w[1..] == cur + w;
    }
  }

  lemma {:induction false} SplitOverString(text: string, rest: string, depth: int, cur: string)
    requires '"' !in text
    ensures SplitRest(Lexeme(Str(text)) + rest, depth, false, cur) ==
        SplitRest(rest, depth, false, cur + Lexeme(Str(text)))
  {
    var q := "\"";
    assert (Lexeme(Str(text)) + rest)[1..] == text + (q + rest);
    SplitOverName(text, q + rest, depth, true, cur + q);
    assert (q + rest)[1..] == rest;
    assert cur + q + text + q == cur + Lexeme(Str(text));
  }

  lemma {:induction false} SplitOverIdent(t: Token, rest: string, depth: int, cur: string)
    requires t.Ident? && Spellable(t)
    ensures SplitRest(Lexeme(t) + rest, depth, false, cur) == SplitRest(rest, depth, false, cur + Lexeme(t))
  {
    assert forall i | 0 <= i < |t.name| :: IsIdentRest(t.name[i]);
    var w := Lexeme(t);
    assert t.raw ==> forall i | 2 <= i < |w| :: w[i] == t.name[i - 2];
    SplitOverName(w, rest, depth, false, cur);
  }

  lemma {:induction false} SplitOverMark(t: Token, rest: string, depth: int, cur: string)
    requires !t.Ident? && !t.Str?
    ensures SplitRest(Lexeme(t) + rest, depth, false, cur) ==
            match t
            case LeftParen => SplitRest(rest, depth + 1, false, cur + Lexeme(t))
            case RightParen => SplitRest(rest, depth - 1, false, cur + Lexeme(t))
            case Comma => if depth == 0 then [Strip(cur)] + SplitRest(rest, depth, false, [])
              else SplitRest(rest, depth, false, cur + Lexeme(t))
            case _ => SplitRest(rest, depth, false, cur + Lexeme(t))
  {
    assert (Lexeme(t) + rest)[1..] == rest;
  }

  lemma {:induction false} SplitLexes(s: string, depth: int, cur: string)
    requires Lex(s).Ok? && Lex(cur).Ok? && Joins(cur, s)
    ensures Lexes(SplitRest(s, depth, false, cur), TokenTerms(Lex(s).value, depth, Lex(cur).value))
    decreases |s|, 1
  {
    if s == [] {
      StrippedLexes(cur);
    } else if Next(s).Blank? {
      LexSpaces(1);
      assert Spaces(1) == " ";
      LexJoined(cur, " ");
      assert Lex(cur).value + [] == Lex(cur).value;
      SplitLexes(s[1..], depth, cur + " ");
    } else {
      var t, rest := TokenThenText(s);
      SplitLexesToken(t, rest, depth, cur);
    }
  }

  lemma {:induction false} SplitLexesToken(t: Token, rest: string, depth: int, cur: string)
    requires Spellable(t) && (t.Ident? && rest != [] ==> !IsIdentRest(rest[0]))
    requires Lex(rest).Ok? && Lex(cur).Ok? && Joins(cur, Lexeme(t) + rest)
    ensures Lexes(SplitRest(Lexeme(t) + rest, depth, false, cur),
        TokenTerms([t] + Lex(rest).value, depth, Lex(cur).value))
    decreases |Lexeme(t) + rest|, 0
  {
    if t == Comma && depth == 0 {
      assert Lex([]) == Ok([]);
      SplitLexes(rest, 0, []);
      SplitAtComma(rest, cur);
    } else {
      assert Lexeme(t)[0] == (Lexeme(t) + rest)[0];
      LexLexeme(t);
      LexJoined(cur, Lexeme(t));
      SplitLexes(rest, DepthAfter(t, depth), cur + Lexeme(t));
      SplitOverToken(t, rest, depth, cur);
    }
  }

  lemma {:induction false} SplitAtComma(rest: string, cur: string)
    requires Lex(rest).Ok? && Lex(cur).Ok?
    requires Lexes(SplitRest(rest, 0, false, []), TokenTerms(Lex(rest).value, 0, []))
    ensures Lexes(SplitRest(Lexeme(Comma) + rest, 0, false, cur),
        TokenTerms([Comma] + Lex(rest).value, 0, Lex(cur).value))
  {
    SplitOverMark(Comma, rest, 0, cur);
    StrippedLexes(cur);
    assert ([Comma] + Lex(rest).value)[1..] == Lex(rest).value;
  }

  function DepthAfter(t: Token, depth: int): int {
    if t == LeftParen then depth + 1 else if t == RightParen then depth - 1 else depth
  }

  lemma {:induction false} SplitOverToken(t: Token, rest: string, depth: int, cur: string)
    requires Spellable(t) && !(t == Comma && depth == 0)
    ensures SplitRest(Lexeme(t) + rest, depth, false, cur) ==
        SplitRest(rest, DepthAfter(t, depth), false, cur + Lexeme(t))
  {
    if t.Ident? {
      SplitOverIdent(t, rest, depth, cur);
    } else if t.Str? {
      SplitOverString(t.text, rest, depth, cur);
    } else {
      SplitOverMark(t, rest, depth, cur);
    }
  }

  // ----- the items between top-level commas are the parser's items -----

  lemma {:induction false} TermsOverPrefix(a: seq<Token>, rest: seq<Token>, depth: int, cur: seq<Token>)
    requires forall i | 0 <= i < |a| :: !a[i].LeftParen? && !a[i].RightParen? && (a[i].Comma? ==> depth != 0)
    ensures TokenTerms(a + rest, depth, cur) == TokenTerms(rest, depth, cur + a)
    decreases |a|
  {
    if a == [] {
      assert a + rest == rest && cur + a == cur;
    } else {
      assert (a + rest)[1..] == a[1..] + rest;
      TermsOverPrefix(a[1..], rest, depth, cur + [a[0]]);
      assert cur + [a[0]] + a[1..] == cur + a;
    }
  }

  /** A derivation read at any depth of zero or more splits nothing. */
  lemma {:induction false} TermsOverDerivation(d: Derivation, rest: seq<Token>, depth: nat, cur: seq<Token>)
    requires Derives(d)
    ensures TokenTerms(Yield(d) + rest, depth, cur) == TokenTerms(rest, depth, cur + Yield(d))
    decreases d, 1
  {
    match d
    case DName(_, _) => TermsOverPrefix(Yield(d), rest, depth, cur);
    case DPair(_, _, _) => TermsOverPrefix(Yield(d), rest, depth, cur);
    case DNot(inner) =>
      TermsOverDerivation(inner, Close(rest), depth + 1, cur + [NOT] + [LeftParen]);
      TermsOverFrame(d, NOT, Yield(inner), rest, depth, cur);
    case DList(all, items, trailing) =>
      var op := if all then ALL else ANY;
      TermsOverItems(items, trailing, Close(rest), depth + 1, cur + [op] + [LeftParen]);
      TermsOverFrame(d, op, YieldItems(items, trailing), rest, depth, cur);
  }

  lemma {:induction false} TermsOverFrame(
      d: Derivation, op: Token, body: seq<Token>, rest: seq<Token>, depth: nat, cur: seq<Token>)
    requires op.Ident? && Yield(d) == [op, LeftParen] + body + [RightParen]
    requires TokenTerms(body + Close(rest), depth + 1, cur + [op] + [LeftParen]) ==
        TokenTerms(Close(rest), depth + 1, cur + [op] + [LeftParen] + body)
    ensures TokenTerms(Yield(d) + rest, depth, cur) == TokenTerms(rest, depth, cur + Yield(d))
  {
    FramedTail(d, op, body, rest);
    var ts := Yield(d) + rest;
    assert ts[0] == op && ts[1..][0] == LeftParen;
    assert Close(rest)[1..] == rest;
    assert cur + [op] + [LeftParen] + body + [RightParen] == cur + Yield(d);
  }

  lemma {:induction false} TermsOverItems(
      ds: seq<Derivation>, trailing: bool, rest: seq<Token>, depth: nat, cur: seq<Token>)
    requires depth > 0 && forall i | 0 <= i < |ds| :: Derives(ds[i])
    ensures TokenTerms(YieldItems(ds, trailing) + rest, depth, cur) ==
        TokenTerms(rest, depth, cur + YieldItems(ds, trailing))
    decreases ds, 0
  {
    if ds == [] {
      assert YieldItems(ds, trailing) + rest == rest && cur + YieldItems(ds, trailing) == cur;
    } else {
      var item, more := Yield(ds[0]), YieldMore(ds[1..], trailing);
      assert item + more + rest == item + (more + rest);
      TermsOverDerivation(ds[0], more + rest, depth, cur);
      if |ds| > 1 {
        var tail := YieldItems(ds[1..], trailing);
        assert (more + rest)[1..] == tail + rest;
        TermsOverItems(ds[1..], trailing, rest, depth, cur + item + [Comma]);
        assert cur + item + [Comma] + tail == cur + (item + more);
      } else {
        TermsOverPrefix(more, rest, depth, cur + item);
        assert cur + item + more == cur + (item + more);
      }
    }
  }

  ghost predicate AreYields(lists: seq<seq<Token>>, ds: seq<Derivation>) {
    |lists| == |ds| && forall i | 0 <= i < |ds| :: lists[i] == Yield(ds[i])
  }

  /** Between the parentheses of a list the terms are its items, whether or not
      the list ends with a comma. */
  lemma {:induction false} TermsAreItems(ds: seq<Derivation>, trailing: bool)
    requires forall i | 0 <= i < |ds| :: Derives(ds[i])
    ensures AreYields(TokenTerms(YieldItems(ds, trailing), 0, []), ds)
    decreases ds
  {
    if ds != [] {
      var item, more := Yield(ds[0]), YieldMore(ds[1..], trailing);
      YieldStarts(ds[0]);
      TermsOverDerivation(ds[0], more, 0, []);
      assert [] + item == item;
      if |ds| > 1 {
        assert more[1..] == YieldItems(ds[1..], trailing);
        TermsAreItems(ds[1..], trailing);
      } else if trailing {
        assert more[1..] == [];
      }
    }
  }

  // ----- soundness -----

  /** A stripped `all(...)` or `any(...)` that parses is a list whose items the
      terms between its parentheses lex to. */
  lemma {:induction false} ListTermsLex(p: string, d: Derivation)
    requires ListOf(p).Some? && Derives(d) && Lex(p) == Ok(Yield(d))
    ensures d.DList? && d.all == ListOf(p).value.all
    ensures Lex(ListOf(p).value.inner) == Ok(YieldItems(d.items, d.trailing))
  {
    var list := ListOf(p).value;
    var op := if list.all then ALL else ANY;
    OperatorThenGap(p, op);
    ParenthesizedLexes(p[3..], list.inner);
    OperatorsDiffer();
    FirstTokenTells(d);
    FramedListIs(d, op, Lex(list.inner).value);
  }

  lemma {:induction false} ParenthesizedLexes(gap: string, inner: string)
    requires Lex(gap).Ok? && TrimStart(gap, IsPySpace) == ['('] + (inner + [')'])
    ensures Lex(inner).Ok? && Lex(gap).value == [LeftParen] + (Lex(inner).value + [RightParen])
  {
    var r := TrimStart(gap, IsPySpace);
    TrimmedStartLexes(gap);
    assert r[1..] == inner + [')'];
    assert Next(r) == Emit(LeftParen, inner + [')']);
    LexWithout(inner, ')');
    LexLexeme(RightParen);
  }

  lemma {:induction false} FramedListIs(d: Derivation, op: Token, inner: seq<Token>)
    requires d.DList? && op == (if d.all then ALL else ANY)
    requires Yield(d) == [op] + ([LeftParen] + (inner + [RightParen]))
    ensures inner == YieldItems(d.items, d.trailing)
  {
    var own := YieldItems(d.items, d.trailing);
    assert Yield(d) == [op] + ([LeftParen] + (own + [RightParen]));
    Cancel([op], [LeftParen] + (inner + [RightParen]), [LeftParen] + (own + [RightParen]));
    Cancel([LeftParen], inner + [RightParen], own + [RightParen]);
    assert inner == (inner + [RightParen])[..|inner|];
  }

  /** `all` or `any`, white space and a parenthesis read as the operator and what follows it. */
  lemma {:induction false} OperatorThenGap(p: string, op: Token)
    requires (op == ALL || op == ANY) && |p| >= 3 && p[..3] == op.name && Lex(p).Ok?
    requires TrimStart(p[3..], IsPySpace) != [] && TrimStart(p[3..], IsPySpace)[0] == '('
    ensures Lex(p[3..]).Ok? && Lex(p).value == [op] + Lex(p[3..]).value
  {
    var gap := p[3..];
    assert p == op.name + gap;
    assert op.name[0] == 'a' && IsIdent(op.name) && |op.name| == 3;
    assert p[0] == op.name[0];
    assert gap[0] == '(' || IsPySpace(gap[0]);
    assert forall i | 0 <= i < 3 :: p[i] == op.name[i];
    assert p[3] == gap[0];
    IdentLengthIs(p, 3);
    assert Next(p) == Emit(op, gap);
  }

  /** Code that `test_only` says is compiled only for tests is compiled for no
      target whose cfg lacks `test`. */
  lemma {:induction false} TestOnlyIsSound(text: string, target: seq<Cfg>)
    requires Parse(text).Ok? && TestOnly(text)
    requires Name("test") !in target
    ensures !Matches(Parse(text).value, target)
    decreases |text|
  {
    var ts := Lex(text).value;
    var e := Parse(text).value;
    ParserAcceptsTheGrammar(ts, e);
    var d :| Derives(d) && Yield(d) == ts && Tree(d) == e;
    var p := Strip(text);
    StrippedLexes(text);
    if p == "test" {
      TestIsTheNameTest(d);
    } else {
      var list := ListOf(p).value;
      var terms := SplitRest(list.inner, 0, false, []);
      TermsParse(p, d);
      TermsAreShort(list.inner, 0, false, []);
      forall i | 0 <= i < |terms| && TestOnly(terms[i])
        ensures !Matches(Tree(d.items[i]), target)
      {
        TestOnlyIsSound(terms[i], target);
      }
      ListFails(d, target);
    }
  }

  /** Each term parses to the tree of the item at its place. */
  lemma {:induction false} TermsParse(p: string, d: Derivation)
    requires ListOf(p).Some? && Derives(d) && Lex(p) == Ok(Yield(d))
    ensures d.DList? && d.all == ListOf(p).value.all
    ensures var terms := SplitRest(ListOf(p).value.inner, 0, false, []);
            |terms| == |d.items| && forall i | 0 <= i < |terms| :: Parse(terms[i]) == Ok(Tree(d.items[i]))
  {
    var inner := ListOf(p).value.inner;
    ListTermsLex(p, d);
    assert Lex([]) == Ok([]);
    SplitLexes(inner, 0, []);
    TermsAreItems(d.items, d.trailing);
    forall i | 0 <= i < |d.items| ensures ParseTokens(Yield(d.items[i])) == Ok(Tree(d.items[i])) {
      ParserAcceptsTheGrammar(Yield(d.items[i]), Tree(d.items[i]));
    }
  }

  lemma {:induction false} ListFails(d: Derivation, target: seq<Cfg>)
    requires d.DList?
    ensures d.all && (exists i | 0 <= i < |d.items| :: !Matches(Tree(d.items[i]), target)) ==> !Matches(Tree(d), target)
    ensures !d.all && (forall i | 0 <= i < |d.items| :: !Matches(Tree(d.items[i]), target)) ==>
        !Matches(Tree(d), target)
  {
    var es := Trees(d.items);
    assert forall i | 0 <= i < |es| :: es[i] == Tree(d.items[i]);
  }

  lemma {:induction false} TestIsTheNameTest(d: Derivation)
    requires Lex("test") == Ok(Yield(d))
    ensures Tree(d) == Value(Name("test"))
  {
    var t := Ident("test", false);
    assert t.name[0] == 't' && t.name[1] == 'e' && IsIdent(t.name);
    LexLexeme(t);
    YieldLength(d);
    assert Yield(d)[0] == t;
    assert "true"[1] == 'r' && "false"[1] == 'a';
  }

  lemma {:induction false} YieldLength(d: Derivation)
    ensures |Yield(d)| == 1 ==> d.DName?
  {}
}
