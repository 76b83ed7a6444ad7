/** The lexer loop and the recursive-descent parser of crates/cargo-pwrs/src/cfg.rs,
    as they run: a cursor over a text, and a parser object whose position moves. */
module CfgParser {
  import opened Results
  import opened CfgSyntax

  method Tokens(text: string) returns (r: Result<seq<Token>, Refusal>)
    ensures r == Lex(text)
  {
    var out: seq<Token> := [];
    var at := 0;
    assert text[0..] == text;
    PrependNothing(Lex(text));
    while at < |text|
      invariant 0 <= at <= |text|
      invariant Lex(text) == Prepend(out, Lex(text[at..]))
    {
      var found, next :- Read(text, at);
      if found.Some? {
        PrependTwice(out, [found.value], Lex(text[next..]));
        out := out + [found.value];
      }
      at := next;
    }
    assert text[at..] == [] && out + [] == out;
    r := Ok(out);
  }

  /** Reads what starts at `at`: a blank or one token, and where the next starts. */
  method Read(text: string, at: nat) returns (r: Result<Option<Token>, Refusal>, next: nat)
    requires at < |text|
    ensures r.Ok? ==> at < next <= |text|
    ensures match Next(text[at..])
            case Blank(rest) => r == Ok(None) && text[next..] == rest
            case Emit(token, rest) => r == Ok(Some(token)) && text[next..] == rest
            case Refuse(why) => r == Err(why)
  {
    var c := text[at];
    next := at + 1;
    match c
    case ' ' => return Ok(None), next;
    case '(' => return Ok(Some(LeftParen)), next;
    case ')' => return Ok(Some(RightParen)), next;
    case ',' => return Ok(Some(Comma)), next;
    case '=' => return Ok(Some(Equals)), next;
    case '"' =>
      var end := SeekQuote(text, next);
      assert text[at..][1..] == text[next..];
      if end == |text| {
        return Err(StringNotClosed), next;
      }
      assert text[next..][..end - next] == text[next..end] && text[next..][end - next + 1..] == text[end + 1..];
      return Ok(Some(Str(text[next..end]))), end + 1;
    case _ =>
      if !IsIdentStart(c) {
        return Err(CannotAppear(c)), next;
      }
      r, next := ReadIdent(text, at);
  }

  method ReadIdent(text: string, at: nat) returns (r: Result<Option<Token>, Refusal>, next: nat)
    requires at < |text| && IsIdentStart(text[at])
    ensures r.Ok? ==> at < next <= |text|
    ensures match NextIdent(text[at..])
            case Emit(token, rest) => r == Ok(Some(token)) && text[next..] == rest
            case Refuse(why) => r == Err(why)
  {
    IdentAt(text, at);
    next := at + 1;
    var raw := text[at] == 'r' && next < |text| && text[next] == '#';
    var start := at;
    if raw {
      if next + 1 == |text| {
        return Err(EndsAfterRawMark), next;
      }
      if !IsIdentStart(text[next + 1]) {
        return Err(CannotBeginRaw(text[next + 1])), next;
      }
      start := next + 1;
    }
    next := SeekIdentEnd(text, start);
    NameAt(text, start, next, raw);
    return Ok(Some(Ident(text[start..next], raw))), next;
  }

  /** The name read at `at`, behind its raw mark when it has one. */
  lemma {:induction false} IdentAt(text: string, at: nat)
    requires at < |text| && IsIdentStart(text[at])
    ensures NextIdent(text[at..]) ==
            if !(text[at] == 'r' && at + 1 < |text| && text[at + 1] == '#') then NextName(text[at..], false)
            else if at + 2 == |text| then Refuse(EndsAfterRawMark)
            else if !IsIdentStart(text[at + 2]) then Refuse(CannotBeginRaw(text[at + 2]))
            else NextName(text[at + 2..], true)
  {
    var s := text[at..];
    assert s[0] == text[at] && (|s| > 1 ==> s[1] == text[at + 1]);
    if |s| > 2 {
      assert s[2] == text[at + 2] && s[2..] == text[at + 2..];
    }
  }

  lemma {:induction false} NameAt(text: string, start: nat, end: nat, raw: bool)
    requires start < end <= |text| && IsIdentStart(text[start]) && IdentLength(text[start..]) == end - start
    ensures NextName(text[start..], raw) == Emit(Ident(text[start..end], raw), text[end..])
  {
    assert text[start..][..end - start] == text[start..end];
    assert text[start..][end - start..] == text[end..];
  }

  /** The offset of the first `"` at or after `from`, or the end of `text`. */
  method SeekQuote(text: string, from: nat) returns (end: nat)
    requires from <= |text|
    ensures end == from + Find(text[from..], '"')
  {
    end := from;
    while end < |text| && text[end] != '"'
      invariant from <= end <= |text|
      invariant Find(text[from..], '"') == end - from + Find(text[end..], '"')
    {
      end := end + 1;
    }
  }

  /** The offset just past the identifier that starts at `start`. */
  method SeekIdentEnd(text: string, start: nat) returns (end: nat)
    requires start < |text| && IsIdentStart(text[start])
    ensures end == start + IdentLength(text[start..])
  {
    end := start + 1;
    while end < |text| && IsIdentRest(text[end])
      invariant start < end <= |text|
      invariant IdentLength(text[start..]) == end - start + IdentLength(text[end..])
    {
      end := end + 1;
    }
  }

  /** What a step of the parser leaves behind: the same outcome as the function
      over the tokens it started at, and its position at what is left over. */
  ghost predicate Agrees<T>(r: Result<T, Refusal>, left: seq<Token>, spec: Result<Parsed<T>, Refusal>) {
    match spec
    case Ok(p) => r == Ok(p.value) && left == p.rest
    case Err(why) => r == Err(why)
  }

  class Parser {
    const tokens: seq<Token>
    var at: nat

    ghost predicate Valid()
      reads this
    {
      at <= |tokens|
    }

    ghost function Left(): seq<Token>
      requires Valid()
      reads this
    {
      tokens[at..]
    }

    constructor (tokens: seq<Token>)
      ensures Valid() && this.tokens == tokens && Left() == tokens
    {
      this.tokens := tokens;
      at := 0;
    }

    method Skip(token: Token) returns (next: bool)
      requires Valid()
      modifies this`at
      ensures Valid()
      ensures next <==> old(Left()) != [] && old(Left())[0] == token
      ensures Left() == if next then old(Left())[1..] else old(Left())
    {
      next := at < |tokens| && tokens[at] == token;
      if next {
        at := at + 1;
      }
    }

    method Expect(token: Token) returns (r: Result<(), Refusal>)
      requires Valid()
      modifies this`at
      ensures Valid() && at >= old(at)
      ensures match ExpectToken(old(Left()), token)
              case Ok(rest) => r == Ok(()) && Left() == rest
              case Err(why) => r == Err(why)
    {
      if at == |tokens| {
        return Err(EndsWhere(token));
      }
      if tokens[at] != token {
        return Err(Expected(token, tokens[at]));
      }
      at := at + 1;
      return Ok(());
    }

    method Expr() returns (r: Result<Expr, Refusal>)
      requires Valid()
      modifies this`at
      ensures Valid() && at >= old(at)
      ensures Agrees(r, Left(), ParseExpr(old(Left())))
      decreases |tokens| - at, 0
    {
      if at == |tokens| {
        return Err(EndsWherePredicate);
      }
      var t := tokens[at];
      if t == ALL || t == ANY {
        var all := t == ALL;
        at := at + 1;
        var _ :- Expect(LeftParen);
        var items :- Items();
        return Ok(if all then All(items) else Any(items));
      } else if t == NOT {
        at := at + 1;
        var _ :- Expect(LeftParen);
        var inner :- Expr();
        var _ :- Expect(RightParen);
        return Ok(Not(inner));
      } else {
        var value :- Value();
        return Ok(if value == Name("true") then True else if value == Name("false") then False
          else CfgSyntax.Value(value));
      }
    }

    /** The loop of `Expr` over the items of an `all` or `any`. */
    method Items() returns (r: Result<seq<Expr>, Refusal>)
      requires Valid()
      modifies this`at
      ensures Valid() && at >= old(at)
      ensures Agrees(r, Left(), ParseItems(old(Left())))
      decreases |tokens| - at, 1
    {
      ghost var list := Left();
      var items := [];
      ExtendedByNothing(ParseItems(list));
      var closed := Skip(RightParen);
      while !closed
        invariant Valid() && at >= old(at)
        invariant closed ==> ParseItems(list) == Ok(Parsed(items, Left()))
        invariant !closed ==> Left() == [] || Left()[0] != RightParen
        invariant !closed ==> ParseItems(list) == Extended(items, ParseItems(Left()))
        decreases |tokens| - at, !closed
      {
        ghost var before, from := items, Left();
        var item :- Expr();
        ghost var behind := Left();
        ItemIsFirst(before, from, item, behind);
        items := items + [item];
        var comma := Skip(Comma);
        if comma {
          closed := Skip(RightParen);
          assert items + [] == items;
        } else {
          var _ :- Expect(RightParen);
          closed := true;
        }
      }
      return Ok(items);
    }

    method Value() returns (r: Result<Cfg, Refusal>)
      requires Valid()
      modifies this`at
      ensures Valid() && at >= old(at)
      ensures Agrees(r, Left(), ParseValue(old(Left())))
    {
      if at == |tokens| {
        return Err(EndsWhereIdent);
      }
      if !tokens[at].Ident? {
        return Err(IdentExpected(tokens[at]));
      }
      var name := tokens[at].name;
      at := at + 1;
      var equals := Skip(Equals);
      if !equals {
        return Ok(Name(name));
      }
      if at == |tokens| {
        return Err(EndsWhereString);
      }
      if !tokens[at].Str? {
        return Err(StringExpected(tokens[at]));
      }
      var text := tokens[at].text;
      at := at + 1;
      return Ok(Pair(name, text));
    }

    method End() returns (r: Result<(), Refusal>)
      requires Valid()
      ensures r == if Left() == [] then Ok(()) else Err(Follows(Left()[0]))
    {
      r := if at < |tokens| then Err(Follows(tokens[at])) else Ok(());
    }
  }

  /** One round of the loop, over the tokens `from`. */
  lemma {:induction false} ItemIsFirst(before: seq<Expr>, from: seq<Token>, item: Expr, behind: seq<Token>)
    requires from == [] || from[0] != RightParen
    requires ParseExpr(from) == Ok(Parsed(item, behind))
    ensures Extended(before, ParseItems(from)) ==
            if behind != [] && behind[0] == Comma then Extended(before + [item], ParseItems(behind[1..]))
            else
              match ExpectToken(behind, RightParen)
              case Ok(rest) => Ok(Parsed(before + [item], rest))
              case Err(why) => Err(why)
  {
    if behind != [] && behind[0] == Comma {
      ExtendedTwice(before, [item], ParseItems(behind[1..]));
    }
  }

  ghost function Extended(front: seq<Expr>, r: Result<Parsed<seq<Expr>>, Refusal>): Result<Parsed<seq<Expr>>, Refusal> {
    match r
    case Ok(p) => Ok(Parsed(front + p.value, p.rest))
    case Err(why) => Err(why)
  }

  lemma PrependNothing<T, E>(r: Result<seq<T>, E>)
    ensures Prepend([], r) == r
  {
    if r.Ok? {
      assert [] + r.value == r.value;
    }
  }

  lemma PrependTwice<T, E>(front: seq<T>, middle: seq<T>, r: Result<seq<T>, E>)
    ensures Prepend(front, Prepend(middle, r)) == Prepend(front + middle, r)
  {
    if r.Ok? {
      assert front + (middle + r.value) == front + middle + r.value;
    }
  }

  lemma ExtendedByNothing(r: Result<Parsed<seq<Expr>>, Refusal>)
    ensures Extended([], r) == r
  {
    if r.Ok? {
      assert [] + r.value.value == r.value.value;
    }
  }

  lemma ExtendedTwice(front: seq<Expr>, middle: seq<Expr>, r: Result<Parsed<seq<Expr>>, Refusal>)
    ensures Extended(front, Extended(middle, r)) == Extended(front + middle, r)
  {
    if r.Ok? {
      assert front + (middle + r.value.value) == front + middle + r.value.value;
    }
  }

  method ParseText(text: string) returns (r: Result<Expr, Refusal>)
    ensures r == Parse(text)
  {
    var tokens :- Tokens(text);
    var p := new Parser(tokens);
    var expr :- p.Expr();
    var _ :- p.End();
    return Ok(expr);
  }
}
