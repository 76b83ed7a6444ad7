/** The word loop and the recursive-descent parser of
    crates/cargo-pwrs/src/notices.rs, as they run. */
module SpdxParser {
  import opened Results
  import opened Text
  import opened SpdxSyntax

  method Tokens(text: string) returns (out: seq<string>)
    ensures out == Words(text, [])
  {
    out := [];
    var word := "";
    assert text[0..] == text;
    for i := 0 to |text|
      invariant Words(text, []) == out + Words(text[i..], word)
    {
      var c := text[i];
      assert text[i..][0] == c && text[i..][1..] == text[i + 1..];
      if c == '(' || c == ')' || c == '/' || IsSpace(c) {
        if word != [] {
          out := out + [word];
          word := [];
        }
        match c
        case '/' => out := out + [OR];
        case '(' => out := out + [[c]];
        case ')' => out := out + [[c]];
        case _ =>
      } else {
        word := word + [c];
      }
    }
    if word != [] {
      out := out + [word];
    }
  }

  /** The outcome of the function over the words a step started at, and the
      words it left. */
  ghost predicate Agrees<T>(r: Result<T, Refusal>, left: seq<string>, spec: Result<Parsed<T>, Refusal>) {
    match spec
    case Ok(p) => r == Ok(p.value) && left == p.rest
    case Err(why) => r == Err(why)
  }

  class Parser {
    const tokens: seq<string>
    var at: nat

    ghost predicate Valid()
      reads this
    {
      at <= |tokens|
    }

    ghost function Left(): seq<string>
      requires Valid()
      reads this
    {
      tokens[at..]
    }

    constructor (tokens: seq<string>)
      ensures Valid() && this.tokens == tokens && Left() == tokens
    {
      this.tokens := tokens;
      at := 0;
    }

    predicate AtOperator(op: string)
      requires Valid()
      reads this
      ensures AtOperator(op) == NextIs(Left(), op)
    {
      at < |tokens| && SameIgnoringCase(tokens[at], op)
    }

    method Any() returns (r: Result<Expr, Refusal>)
      requires Valid()
      modifies this`at
      ensures Valid() && at >= old(at)
      ensures Agrees(r, Left(), ParseAny(old(Left())))
      decreases |tokens| - at, 4
    {
      var left :- All();
      while AtOperator(OR)
        invariant Valid() && at > old(at)
        invariant ParseAny(old(Left())) == MoreAny(left, Left())
        decreases |tokens| - at
      {
        at := at + 1;
        var right :- All();
        left := Or(left, right);
      }
      return Ok(left);
    }

    method All() returns (r: Result<Expr, Refusal>)
      requires Valid()
      modifies this`at
      ensures Valid() && at >= old(at) && (r.Ok? ==> at > old(at))
      ensures Agrees(r, Left(), ParseAll(old(Left())))
      decreases |tokens| - at, 3
    {
      var left :- With();
      while AtOperator(AND)
        invariant Valid() && at > old(at)
        invariant ParseAll(old(Left())) == MoreAll(left, Left())
        decreases |tokens| - at
      {
        at := at + 1;
        var right :- With();
        left := And(left, right);
      }
      return Ok(left);
    }

    method With() returns (r: Result<Expr, Refusal>)
      requires Valid()
      modifies this`at
      ensures Valid() && at >= old(at) && (r.Ok? ==> at > old(at))
      ensures Agrees(r, Left(), ParseWith(old(Left())))
      decreases |tokens| - at, 2
    {
      var base :- Primary();
      if !AtOperator(WITH) {
        return Ok(base);
      }
      at := at + 1;
      var exception :- Name();
      if !base.License? {
        return Err(WithAfterGroup);
      }
      return Ok(SpdxSyntax.With(base.id, exception));
    }

    method Primary() returns (r: Result<Expr, Refusal>)
      requires Valid()
      modifies this`at
      ensures Valid() && at >= old(at) && (r.Ok? ==> at > old(at))
      ensures Agrees(r, Left(), ParsePrimary(old(Left())))
      decreases |tokens| - at, 1
    {
      if at == |tokens| || tokens[at] != OPEN {
        var name :- Name();
        return Ok(License(name));
      }
      at := at + 1;
      var inner :- Any();
      if at == |tokens| || tokens[at] != CLOSE {
        return Err(NotClosed);
      }
      at := at + 1;
      return Ok(inner);
    }

    method Name() returns (r: Result<string, Refusal>)
      requires Valid()
      modifies this`at
      ensures Valid() && at >= old(at) && (r.Ok? ==> at > old(at))
      ensures Agrees(r, Left(), ParseName(old(Left())))
    {
      if at == |tokens| {
        return Err(EndsWhereName);
      }
      var t := tokens[at];
      if !IsName(t) {
        return Err(NameExpected(t));
      }
      at := at + 1;
      return Ok(t);
    }
  }

  method ParseText(text: string) returns (r: Result<Expr, Refusal>)
    ensures r == Parse(text)
  {
    var tokens := Tokens(text);
    if tokens == [] {
      return Err(Empty);
    }
    var p := new Parser(tokens);
    var expr :- p.Any();
    if p.at < |p.tokens| {
      return Err(Follows(p.tokens[p.at]));
    }
    return Ok(expr);
  }
}
