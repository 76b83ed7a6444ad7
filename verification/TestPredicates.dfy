/** Exactly which predicates `test_only` of tools/wire_audit.py says are for tests alone,
    by how they are built. */
module TestPredicates {
  import opened Results
  import opened Text
  import opened CfgSyntax
  import opened CfgGrammar
  import opened CfgRoundTrip
  import opened WireAudit

  /** The name `test` not written raw, an `all` with an item for tests alone, or an `any`
      that has items, all of them such. */
  predicate IsForTests(d: Derivation) {
    match d
    case DName(name, raw) => name == "test" && !raw
    case DPair(_, _, _) => false
    case DNot(_) => false
    case DList(true, items, _) => exists i | 0 <= i < |items| :: IsForTests(items[i])
    case DList(false, items, _) => items != [] && forall i | 0 <= i < |items| :: IsForTests(items[i])
  }

  // ----- the text of one token -----

  lemma {:induction false} BlankEnds(s: string)
    requires Lex(s) == Ok([]) && s != []
    ensures s[0] == ' ' && s[|s| - 1] == ' '
  {
    if |s| > 1 {
      BlankEnds(s[1..]);
    }
  }

  /** Neither end is a blank. */
  predicate IsBare(p: string) {
    p != [] && p[0] != ' ' && p[|p| - 1] != ' '
  }

  lemma {:induction false} StripsBare(s: string)
    requires Lex(s).Ok? && Lex(s).value != []
    ensures IsBare(Strip(s)) && Lex(Strip(s)) == Lex(s)
  {
    StrippedLexes(s);
    var t := TrimStart(s, IsPySpace);
    EndsTrimmed(t);
  }

  lemma {:induction false} EndsTrimmed(t: string)
    requires t != [] ==> !IsPySpace(t[0])
    ensures var p := TrimEnd(t, IsPySpace); p != [] ==> p[0] != ' ' && p[|p| - 1] != ' '
  {
    if t != [] && IsPySpace(t[|t| - 1]) {
      EndsTrimmed(t[..|t| - 1]);
    }
  }

  lemma {:induction false} SameFirst(t: Token, ts: seq<Token>, u: Token, us: seq<Token>)
    requires [t] + ts == [u] + us
    ensures t == u && ts == us
  {
    assert ([t] + ts)[0] == t && ([u] + us)[0] == u;
    assert ts == ([t] + ts)[1..] && us == ([u] + us)[1..];
  }

  lemma {:induction false} OneTokenIsItsLexeme(p: string, t: Token)
    requires IsBare(p) && Lex(p) == Ok([t])
    ensures p == Lexeme(t) && Spellable(t)
  {
    var first, rest := TokenThenText(p);
    assert [t] + [] == [t];
    SameFirst(first, Lex(rest).value, t, []);
    if rest != [] {
      BlankEnds(rest);
      assert false;
    }
    assert Lexeme(t) + [] == Lexeme(t);
  }

  lemma {:induction false} EndsWithItsParenthesis(p: string)
    requires p != [] && p[|p| - 1] != ' ' && Lex(p).Ok?
    requires Lex(p).value != [] && Lex(p).value[|Lex(p).value| - 1] == RightParen
    ensures p[|p| - 1] == ')'
    decreases |p|
  {
    if Next(p).Blank? {
      EndsWithItsParenthesis(p[1..]);
    } else {
      var t, rest := TokenThenText(p);
      if rest == [] {
        assert p == Lexeme(t);
      } else {
        assert rest[|rest| - 1] == p[|p| - 1];
        SomeTokenIsLeft(rest);
        LastOf(t, Lex(rest).value);
        EndsWithItsParenthesis(rest);
      }
    }
  }

  lemma {:induction false} LastOf(t: Token, ts: seq<Token>)
    requires ts != []
    ensures ([t] + ts)[|[t] + ts| - 1] == ts[|ts| - 1]
  {}

  lemma {:induction false} SomeTokenIsLeft(s: string)
    requires s != [] && s[|s| - 1] != ' ' && Lex(s).Ok?
    ensures Lex(s).value != []
  {
    if Lex(s).value == [] {
      BlankEnds(s);
    }
  }

  // ----- a list is seen to be one -----

  lemma {:induction false} ListIsSeen(p: string, d: Derivation)
    requires IsBare(p) && Derives(d) && d.DList? && Lex(p) == Ok(Yield(d))
    ensures ListOf(p).Some?
  {
    ListYields(d);
    FrameIsSeen(p, if d.all then ALL else ANY, YieldItems(d.items, d.trailing));
  }

  lemma {:induction false} ListYields(d: Derivation)
    requires d.DList?
    ensures Yield(d) == [if d.all then ALL else ANY] + Framed(YieldItems(d.items, d.trailing))
  {}

  function Framed(body: seq<Token>): seq<Token> {
    [LeftParen] + body + [RightParen]
  }

  lemma {:induction false} FrameIsSeen(p: string, op: Token, body: seq<Token>)
    requires IsBare(p) && (op == ALL || op == ANY) && Lex(p) == Ok([op] + Framed(body))
    ensures ListOf(p).Some?
  {
    OperatorStarts(p, op, Framed(body));
    var gap := p[3..];
    GapIsSeen(gap, body);
    OperatorIsSeen(p, op, gap);
  }

  lemma {:induction false} OperatorStarts(p: string, op: Token, more: seq<Token>)
    requires IsBare(p) && (op == ALL || op == ANY) && Lex(p) == Ok([op] + more)
    ensures |p| >= 3 && p == op.name + p[3..] && |op.name| == 3
    ensures Lex(p[3..]) == Ok(more) && (p[3..] != [] ==> p[3..][|p[3..]| - 1] != ' ')
  {
    var t, gap := TokenThenText(p);
    SameFirst(t, Lex(gap).value, op, more);
    OperatorIsItsLexeme(op);
    assert p[3..] == gap;
  }

  lemma {:induction false} OperatorIsSeen(p: string, op: Token, gap: string)
    requires (op == ALL || op == ANY) && |op.name| == 3 && p == op.name + gap
    requires var r := TrimStart(gap, IsPySpace); |r| >= 2 && r[0] == '(' && r[|r| - 1] == ')'
    ensures ListOf(p).Some?
  {
    assert p[..3] == op.name && p[3..] == gap;
  }

  lemma {:induction false} OperatorIsItsLexeme(op: Token)
    requires op == ALL || op == ANY
    ensures Lexeme(op) == op.name && |op.name| == 3
  {}

  lemma {:induction false} GapIsSeen(gap: string, body: seq<Token>)
    requires Lex(gap) == Ok(Framed(body))
    requires gap != [] ==> gap[|gap| - 1] != ' '
    ensures gap != []
    ensures var r := TrimStart(gap, IsPySpace);
            |r| >= 2 && r[0] == '(' && r[|r| - 1] == ')'
  {
    assert gap != [];
    var r := TrimStart(gap, IsPySpace);
    TrimmedStartLexes(gap);
    KeepsItsEnd(gap);
    assert Lex(r).value[|Lex(r).value| - 1] == RightParen;
    EndsWithItsParenthesis(r);
    var t, rest := TokenThenText(r);
    assert [LeftParen] + body + [RightParen] == [LeftParen] + (body + [RightParen]);
    SameFirst(t, Lex(rest).value, LeftParen, body + [RightParen]);
    assert r[0] == Lexeme(LeftParen)[0];
  }

  lemma {:induction false} KeepsItsEnd(gap: string)
    requires Lex(gap).Ok? && Lex(gap).value != []
    ensures var r := TrimStart(gap, IsPySpace); r != [] && r[|r| - 1] == gap[|gap| - 1] && r[0] != ' '
  {
    if IsPySpace(gap[0]) {
      assert gap[0] == ' ';
      KeepsItsEnd(gap[1..]);
    }
  }

  // ----- the terms -----

  lemma {:induction false} TermsLex(p: string, d: Derivation)
    requires ListOf(p).Some? && Derives(d) && Lex(p) == Ok(Yield(d))
    ensures d.DList? && d.all == ListOf(p).value.all
    ensures var terms := SplitRest(ListOf(p).value.inner, 0, false, []);
            |terms| == |d.items| && forall i | 0 <= i < |terms| :: Lex(terms[i]) == Ok(Yield(d.items[i]))
  {
    ListTermsLex(p, d);
    assert Lex([]) == Ok([]);
    SplitLexes(ListOf(p).value.inner, 0, []);
    TermsAreItems(d.items, d.trailing);
  }

  lemma {:induction false} TestTextIsTheName(p: string, d: Derivation)
    requires IsBare(p) && Derives(d) && Lex(p) == Ok(Yield(d))
    ensures p == "test" <==> d == DName("test", false)
  {
    if p == "test" {
      TestLexes();
      YieldLength(d);
    }
    if d == DName("test", false) {
      OneTokenIsItsLexeme(p, Ident("test", false));
    }
  }

  lemma {:induction false} TestLexes()
    ensures Lex("test") == Ok([Ident("test", false)])
  {
    var t := Ident("test", false);
    assert t.name[0] == 't' && t.name[1] == 'e' && IsIdent(t.name);
    LexLexeme(t);
  }

  /** `test_only` says yes of the predicates built so, and of no others: for every text
      that parses, by its one derivation. */
  lemma {:induction false} TestOnlyExactlyWhen(text: string, d: Derivation)
    requires Derives(d) && Lex(text) == Ok(Yield(d))
    ensures TestOnly(text) <==> IsForTests(d)
    decreases |text|
  {
    var p := Strip(text);
    YieldStarts(d);
    StripsBare(text);
    TestTextIsTheName(p, d);
    if d.DList? {
      ListIsSeen(p, d);
    }
    if ListOf(p).Some? {
      var terms := SplitRest(ListOf(p).value.inner, 0, false, []);
      TermsLex(p, d);
      TermsAreShort(ListOf(p).value.inner, 0, false, []);
      forall i | 0 <= i < |terms| ensures TestOnly(terms[i]) <==> IsForTests(d.items[i]) {
        TestOnlyExactlyWhen(terms[i], d.items[i]);
      }
    }
  }
}
