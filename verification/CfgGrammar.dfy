/** The grammar the cfg parser reads, written apart from it: derivations, the
    tokens each spells and the tree each stands for. `ParseTokens` succeeds with a
    tree exactly when a derivation of the tokens stands for it, and no token list
    has two derivations. */
module CfgGrammar {
  import opened Results
  import opened CfgSyntax

  datatype Derivation =
    | DName(name: string, raw: bool)
    | DPair(key: string, raw: bool, text: string)
    | DNot(inner: Derivation)
    | DList(all: bool, items: seq<Derivation>, trailing: bool)

  /** `all`, `any` and `not` are operators unless written raw, and only a list
      with an item may end with a comma. */
  predicate Derives(d: Derivation) {
    match d
    case DName(name, raw) => !IsOperator(Ident(name, raw))
    case DPair(key, raw, _) => !IsOperator(Ident(key, raw))
    case DNot(inner) => Derives(inner)
    case DList(_, items, trailing) => (trailing ==> items != []) && forall i | 0 <= i < |items| :: Derives(items[i])
  }

  /** The tokens a derivation spells. */
  function Yield(d: Derivation): (ts: seq<Token>)
    decreases d
  {
    match d
    case DName(name, raw) => [Ident(name, raw)]
    case DPair(key, raw, text) => [Ident(key, raw), Equals, Str(text)]
    case DNot(inner) => [NOT, LeftParen] + Yield(inner) + [RightParen]
    case DList(all, items, trailing) =>
      [if all then ALL else ANY, LeftParen] + YieldItems(items, trailing) + [RightParen]
  }

  function YieldItems(ds: seq<Derivation>, trailing: bool): seq<Token>
    decreases ds, 0
  {
    if ds == [] then [] else Yield(ds[0]) + YieldMore(ds[1..], trailing)
  }

  /** What follows an item: the comma before the next, or the one that ends the list. */
  function YieldMore(ds: seq<Derivation>, trailing: bool): seq<Token>
    decreases ds, 1
  {
    if ds != [] then [Comma] + YieldItems(ds, trailing)
    else if trailing then [Comma]
    else []
  }

  /** The tree a derivation stands for. */
  function Tree(d: Derivation): Expr
    decreases d
  {
    match d
    case DName(name, _) => OfCfg(Name(name))
    case DPair(key, _, text) => Value(Pair(key, text))
    case DNot(inner) => Not(Tree(inner))
    case DList(all, items, _) => if all then All(Trees(items)) else Any(Trees(items))
  }

  function Trees(ds: seq<Derivation>): (es: seq<Expr>)
    ensures |es| == |ds| && forall i | 0 <= i < |ds| :: es[i] == Tree(ds[i])
    decreases ds
  {
    if ds == [] then [] else [Tree(ds[0])] + Trees(ds[1..])
  }

  /** A derivation starts with an identifier, which tells how it goes on. */
  lemma YieldStarts(d: Derivation)
    ensures Yield(d) != [] && Yield(d)[0].Ident?
  {}

  lemma {:induction false} FirstTokenTells(d: Derivation)
    requires Derives(d)
    ensures d.DNot? <==> Yield(d)[0] == NOT
    ensures d.DList? <==> Yield(d)[0] == ALL || Yield(d)[0] == ANY
    ensures d.DList? ==> (d.all <==> Yield(d)[0] == ALL)
  {
    OperatorsDiffer();
  }

  /** `rest` behind the closing parenthesis. */
  function Close(rest: seq<Token>): seq<Token> {
    [RightParen] + rest
  }

  lemma {:induction false} FramedTail(d: Derivation, op: Token, body: seq<Token>, rest: seq<Token>)
    requires Yield(d) == [op, LeftParen] + body + [RightParen]
    ensures Yield(d) + rest == [op, LeftParen] + (body + Close(rest))
    ensures (Yield(d) + rest)[1..][1..] == body + Close(rest)
  {}

  lemma {:induction false} ItemsTail(ds: seq<Derivation>, trailing: bool, rest: seq<Token>)
    requires ds != []
    ensures YieldItems(ds, trailing) + Close(rest) == Yield(ds[0]) + (YieldMore(ds[1..], trailing) + Close(rest))
  {}

  lemma {:induction false} MoreTail(ds: seq<Derivation>, trailing: bool, rest: seq<Token>)
    ensures var more := YieldMore(ds, trailing) + Close(rest);
            if ds == [] && !trailing then more == Close(rest)
            else
              && more[0] == Comma && more == [Comma] + more[1..]
              && more[1..] == YieldItems(ds, trailing && ds != []) + Close(rest)
  {}

  // ----- every derivation parses to its tree -----

  lemma {:induction false} ParsesDerivation(d: Derivation, rest: seq<Token>)
    requires Derives(d) && (rest == [] || rest[0] != Equals)
    ensures ParseExpr(Yield(d) + rest) == Ok(Parsed(Tree(d), rest))
    decreases d, 1
  {
    OperatorsDiffer();
    match d
    case DName(_, _) => ParsesValue(d, rest);
    case DPair(_, _, _) => ParsesValue(d, rest);
    case DNot(inner) =>
      FramedTail(d, NOT, Yield(inner), rest);
      ParsesDerivation(inner, Close(rest));
      assert Close(rest)[1..] == rest;
    case DList(all, items, trailing) =>
      FramedTail(d, if all then ALL else ANY, YieldItems(items, trailing), rest);
      ParsesItems(items, trailing, rest);
  }

  lemma {:induction false} ParsesValue(d: Derivation, rest: seq<Token>)
    requires d.DName? || d.DPair?
    requires Derives(d) && (rest == [] || rest[0] != Equals)
    ensures ParseExpr(Yield(d) + rest) == Ok(Parsed(Tree(d), rest))
  {
    var ts := Yield(d) + rest;
    assert d.DName? ==> ts[1..] == rest;
    assert d.DPair? ==> ts[3..] == rest;
  }

  lemma {:induction false} ParsesItems(ds: seq<Derivation>, trailing: bool, rest: seq<Token>)
    requires trailing ==> ds != []
    requires forall i | 0 <= i < |ds| :: Derives(ds[i])
    ensures ParseItems(YieldItems(ds, trailing) + Close(rest)) == Ok(Parsed(Trees(ds), rest))
    decreases ds, 0
  {
    assert Close(rest)[1..] == rest;
    if ds == [] {
      assert YieldItems(ds, trailing) + Close(rest) == Close(rest);
    } else {
      YieldStarts(ds[0]);
      var more := YieldMore(ds[1..], trailing) + Close(rest);
      ItemsTail(ds, trailing, rest);
      MoreTail(ds[1..], trailing, rest);
      ParsesDerivation(ds[0], more);
      assert (Yield(ds[0]) + more)[0] != RightParen;
      assert Trees(ds) == [Tree(ds[0])] + Trees(ds[1..]);
      if more[0] == Comma {
        ParsesItems(ds[1..], trailing && |ds| > 1, rest);
      } else {
        assert Trees(ds) == [Tree(ds[0])];
      }
    }
  }

  // ----- whatever parses has a derivation -----

  lemma {:induction false} DerivationOf(ts: seq<Token>) returns (d: Derivation)
    requires ParseExpr(ts).Ok?
    ensures Derives(d)
    ensures ParseExpr(ts).value.value == Tree(d)
    ensures ts == Yield(d) + ParseExpr(ts).value.rest
    decreases |ts|, 0
  {
    OperatorsDiffer();
    var rest := ParseExpr(ts).value.rest;
    if ts[0] == ALL || ts[0] == ANY {
      var body := ts[1..][1..];
      var items, trailing := ItemsOf(body);
      d := DList(ts[0] == ALL, items, trailing);
      Framed(ts, ts[0], YieldItems(items, trailing), rest);
    } else if ts[0] == NOT {
      var body := ts[1..][1..];
      var inner := DerivationOf(body);
      d := DNot(inner);
      assert ParseExpr(body).value.rest == Close(rest);
      Framed(ts, NOT, Yield(inner), rest);
    } else {
      d := ValueOf(ts);
    }
  }

  /** An operator, its parentheses and what is between them. */
  lemma {:induction false} Framed(ts: seq<Token>, op: Token, body: seq<Token>, rest: seq<Token>)
    requires |ts| > 1 && ts[0] == op && ts[1] == LeftParen
    requires ts[1..][1..] == body + Close(rest)
    ensures ts == [op, LeftParen] + body + [RightParen] + rest
  {
    assert ts == [ts[0], ts[1]] + ts[1..][1..];
  }

  lemma {:induction false} ValueOf(ts: seq<Token>) returns (d: Derivation)
    requires ts != [] && !IsOperator(ts[0]) && ParseValue(ts).Ok?
    ensures Derives(d)
    ensures OfCfg(ParseValue(ts).value.value) == Tree(d)
    ensures ts == Yield(d) + ParseValue(ts).value.rest
  {
    if |ts| > 1 && ts[1] == Equals {
      d := DPair(ts[0].name, ts[0].raw, ts[2].text);
    } else {
      d := DName(ts[0].name, ts[0].raw);
    }
  }

  lemma {:induction false} ItemsOf(ts: seq<Token>) returns (ds: seq<Derivation>, trailing: bool)
    requires ParseItems(ts).Ok?
    ensures trailing ==> ds != []
    ensures forall i | 0 <= i < |ds| :: Derives(ds[i])
    ensures ParseItems(ts).value.value == Trees(ds)
    ensures ts == YieldItems(ds, trailing) + Close(ParseItems(ts).value.rest)
    decreases |ts|, 1
  {
    var rest := ParseItems(ts).value.rest;
    if ts != [] && ts[0] == RightParen {
      ds, trailing := [], false;
      assert ts == [RightParen] + rest;
      assert YieldItems(ds, trailing) + Close(rest) == Close(rest);
    } else {
      var first := DerivationOf(ts);
      var left := ParseExpr(ts).value.rest;
      var more, last := [], false;
      if left[0] == Comma {
        more, last := ItemsOf(left[1..]);
        trailing := last || more == [];
        assert left == [Comma] + left[1..];
      } else {
        trailing := false;
        assert left == Close(rest);
      }
      ds := [first] + more;
      assert ds[1..] == more;
      ItemsTail(ds, trailing, rest);
      MoreTail(more, trailing, rest);
    }
  }

  /** The parser accepts exactly the grammar: a token list parses to `e` if and
      only if a derivation of it stands for `e`. */
  lemma {:induction false} ParserAcceptsTheGrammar(ts: seq<Token>, e: Expr)
    ensures ParseTokens(ts) == Ok(e) <==> exists d :: Derives(d) && Yield(d) == ts && Tree(d) == e
  {
    if ParseTokens(ts) == Ok(e) {
      var d := DerivationOf(ts);
      assert Yield(d) + [] == Yield(d);
    }
    if d :| Derives(d) && Yield(d) == ts && Tree(d) == e {
      ParsesDerivation(d, []);
      assert Yield(d) + [] == Yield(d);
    }
  }

  // ----- no token list has two derivations -----

  /** `b + s` with its common front `a` removed from both sides. */
  lemma {:induction false} Cancel<T>(front: seq<T>, a: seq<T>, b: seq<T>)
    requires front + a == front + b
    ensures a == b
  {
    assert a == (front + a)[|front|..];
    assert b == (front + b)[|front|..];
  }

  lemma {:induction false} OneDerivation(c: Derivation, d: Derivation, r: seq<Token>, s: seq<Token>)
    requires Derives(c) && Derives(d) && Yield(c) + r == Yield(d) + s
    requires (r == [] || r[0] != Equals) && (s == [] || s[0] != Equals)
    ensures c == d && r == s
    decreases c, 1
  {
    YieldStarts(c);
    YieldStarts(d);
    assert Yield(c)[0] == (Yield(c) + r)[0] == (Yield(d) + s)[0] == Yield(d)[0];
    FirstTokenTells(c);
    FirstTokenTells(d);
    match c
    case DName(_, _) => OneValue(c, d, r, s);
    case DPair(_, _, _) => OneValue(c, d, r, s);
    case DNot(inner) =>
      var a, b := Yield(inner) + Close(r), Yield(d.inner) + Close(s);
      FramedTail(c, NOT, Yield(inner), r);
      FramedTail(d, NOT, Yield(d.inner), s);
      Cancel([NOT, LeftParen], a, b);
      OneDerivation(inner, d.inner, Close(r), Close(s));
      Cancel([RightParen], r, s);
    case DList(_, items, trailing) =>
      var op := if c.all then ALL else ANY;
      var a, b := YieldItems(items, trailing) + Close(r), YieldItems(d.items, d.trailing) + Close(s);
      FramedTail(c, op, YieldItems(items, trailing), r);
      FramedTail(d, op, YieldItems(d.items, d.trailing), s);
      Cancel([op, LeftParen], a, b);
      OneItems(items, trailing, d.items, d.trailing, r, s);
  }

  lemma {:induction false} OneValue(c: Derivation, d: Derivation, r: seq<Token>, s: seq<Token>)
    requires (c.DName? || c.DPair?) && (d.DName? || d.DPair?)
    requires Yield(c) + r == Yield(d) + s
    requires (r == [] || r[0] != Equals) && (s == [] || s[0] != Equals)
    ensures c == d && r == s
  {
    var ts := Yield(c) + r;
    assert ts == Yield(d) + s;
    assert c.DName? ==> ts[1..] == r;
    assert d.DName? ==> ts[1..] == s;
    assert c.DPair? ==> ts[1] == Equals && ts[3..] == r;
    assert d.DPair? ==> ts[1] == Equals && ts[3..] == s;
    assert ts[0] == Yield(c)[0] == Yield(d)[0];
    if c.DPair? && d.DPair? {
      assert ts[2] == Yield(c)[2] == Yield(d)[2];
    }
  }

  lemma {:induction false} OneItems(
      c: seq<Derivation>, cTrailing: bool, d: seq<Derivation>, dTrailing: bool, r: seq<Token>, s: seq<Token>)
    requires (cTrailing ==> c != []) && (dTrailing ==> d != [])
    requires forall i | 0 <= i < |c| :: Derives(c[i])
    requires forall i | 0 <= i < |d| :: Derives(d[i])
    requires YieldItems(c, cTrailing) + Close(r) == YieldItems(d, dTrailing) + Close(s)
    ensures c == d && cTrailing == dTrailing && r == s
    decreases c, 0
  {
    ItemsStart(c, cTrailing, r);
    ItemsStart(d, dTrailing, s);
    if c == [] {
      Cancel([RightParen], r, s);
    } else {
      var x, y := YieldMore(c[1..], cTrailing) + Close(r), YieldMore(d[1..], dTrailing) + Close(s);
      ItemsTail(c, cTrailing, r);
      ItemsTail(d, dTrailing, s);
      MoreTail(c[1..], cTrailing, r);
      MoreTail(d[1..], dTrailing, s);
      OneDerivation(c[0], d[0], x, y);
      if x[0] == Comma {
        OneItems(c[1..], cTrailing && |c| > 1, d[1..], dTrailing && |d| > 1, r, s);
      } else {
        Cancel([RightParen], r, s);
      }
      assert c == [c[0]] + c[1..] && d == [d[0]] + d[1..];
    }
  }

  /** A list is empty exactly when its closing parenthesis comes first. */
  lemma {:induction false} ItemsStart(ds: seq<Derivation>, trailing: bool, rest: seq<Token>)
    ensures ds == [] <==> (YieldItems(ds, trailing) + Close(rest))[0] == RightParen
    ensures ds == [] ==> YieldItems(ds, trailing) + Close(rest) == Close(rest)
  {
    if ds != [] {
      YieldStarts(ds[0]);
      ItemsTail(ds, trailing, rest);
      assert (YieldItems(ds, trailing) + Close(rest))[0] == Yield(ds[0])[0];
    }
  }

  lemma {:induction false} GrammarIsUnambiguous(c: Derivation, d: Derivation)
    requires Derives(c) && Derives(d) && Yield(c) == Yield(d)
    ensures c == d
  {
    OneDerivation(c, d, [], []);
  }
}
