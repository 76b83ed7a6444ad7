/** cargo's `cfg(...)` expressions (crates/cargo-pwrs/src/cfg.rs): the tree, its
    meaning, the tokens, and the functions that say what the lexer and the
    recursive-descent parser compute. The loops and the moving parser themselves
    are in `CfgParser`. */
module CfgSyntax {
  import opened Results

  datatype Cfg = Name(name: string) | Pair(key: string, text: string)

  datatype Expr =
    | Not(inner: Expr)
    | All(items: seq<Expr>)
    | Any(items: seq<Expr>)
    | Value(cfg: Cfg)
    | True
    | False

  /** Whether a target whose cfg is `target` satisfies `e`. */
  predicate Matches(e: Expr, target: seq<Cfg>) {
    match e
    case Not(inner) => !Matches(inner, target)
    case All(items) => forall i | 0 <= i < |items| :: Matches(items[i], target)
    case Any(items) => exists i | 0 <= i < |items| :: Matches(items[i], target)
    case Value(c) => c in target
    case True => true
    case False => false
  }

  datatype Token =
    | LeftParen
    | RightParen
    | Comma
    | Equals
    | Ident(name: string, raw: bool)
    | Str(text: string)

  /** The three operators; written raw, each is a plain name. */
  const ALL := Ident("all", false)
  const ANY := Ident("any", false)
  const NOT := Ident("not", false)

  lemma OperatorsDiffer()
    ensures ALL != ANY && ALL != NOT && ANY != NOT
  {
    assert ALL.name[1] == 'l' && ANY.name[1] == 'n' && NOT.name[1] == 'o';
  }

  /** Why a text is refused, one case per message the source writes. */
  datatype Refusal =
    | StringNotClosed
    | CannotBeginRaw(c: char)
    | EndsAfterRawMark
    | CannotAppear(c: char)
    | Expected(want: Token, found: Token)
    | EndsWhere(want: Token)
    | EndsWherePredicate
    | IdentExpected(found: Token)
    | EndsWhereIdent
    | StringExpected(found: Token)
    | EndsWhereString
    | Follows(extra: Token)

  predicate IsIdentStart(c: char) {
    c == '_' || 'a' <= c <= 'z' || 'A' <= c <= 'Z'
  }

  predicate IsIdentRest(c: char) {
    IsIdentStart(c) || '0' <= c <= '9'
  }

  /** How many leading characters of `s` continue an identifier. */
  function IdentLength(s: string): (n: nat)
    ensures n <= |s|
    ensures forall i | 0 <= i < n :: IsIdentRest(s[i])
    ensures n < |s| ==> !IsIdentRest(s[n])
  {
    if s == [] || !IsIdentRest(s[0]) then 0 else 1 + IdentLength(s[1..])
  }

  /** The offset of the first `c` in `s`, or its length when there is none. */
  function Find(s: string, c: char): (n: nat)
    ensures n <= |s|
    ensures forall i | 0 <= i < n :: s[i] != c
    ensures n < |s| ==> s[n] == c
  {
    if s == [] || s[0] == c then 0 else 1 + Find(s[1..], c)
  }

  /** What reading at the start of a text gives: nothing, a token, or a refusal. */
  datatype Step = Blank(rest: string) | Emit(token: Token, rest: string) | Refuse(why: Refusal)

  function Next(s: string): (step: Step)
    requires s != []
    ensures !step.Refuse? ==> |step.rest| < |s|
  {
    var c := s[0];
    if c == ' ' then Blank(s[1..])
    else if c == '(' then Emit(LeftParen, s[1..])
    else if c == ')' then Emit(RightParen, s[1..])
    else if c == ',' then Emit(Comma, s[1..])
    else if c == '=' then Emit(Equals, s[1..])
    else if c == '"' then NextString(s)
    else if IsIdentStart(c) then NextIdent(s)
    else Refuse(CannotAppear(c))
  }

  function NextString(s: string): (step: Step)
    requires s != []
    ensures step.Emit? || step.Refuse?
    ensures step.Emit? ==> |step.rest| < |s|
  {
    var inner := s[1..];
    var n := Find(inner, '"');
    if n == |inner| then Refuse(StringNotClosed) else Emit(Str(inner[..n]), inner[n + 1..])
  }

  function NextIdent(s: string): (step: Step)
    requires s != [] && IsIdentStart(s[0])
    ensures step.Emit? || step.Refuse?
    ensures step.Emit? ==> |step.rest| < |s|
  {
    if s[0] == 'r' && |s| > 1 && s[1] == '#' then
      if |s| == 2 then Refuse(EndsAfterRawMark)
      else if !IsIdentStart(s[2]) then Refuse(CannotBeginRaw(s[2]))
      else NextName(s[2..], true)
    else NextName(s, false)
  }

  function NextName(s: string, raw: bool): (step: Step)
    requires s != [] && IsIdentStart(s[0])
    ensures step.Emit? && |step.rest| < |s|
  {
    var n := IdentLength(s);
    Emit(Ident(s[..n], raw), s[n..])
  }

  /** The tokens of a text. */
  function Lex(s: string): Result<seq<Token>, Refusal>
    decreases |s|
  {
    if s == [] then Ok([])
    else
      match Next(s)
      case Blank(rest) => Lex(rest)
      case Emit(token, rest) => Prepend([token], Lex(rest))
      case Refuse(why) => Err(why)
  }

  function Prepend<T, E>(front: seq<T>, r: Result<seq<T>, E>): Result<seq<T>, E> {
    match r
    case Ok(back) => Ok(front + back)
    case Err(why) => Err(why)
  }

  /** A value read from the front of a token list, and the tokens after it. */
  datatype Parsed<T> = Parsed(value: T, rest: seq<Token>)

  function ExpectToken(ts: seq<Token>, want: Token): (r: Result<seq<Token>, Refusal>)
    ensures r.Ok? <==> ts != [] && ts[0] == want
    ensures r.Ok? ==> r.value == ts[1..]
  {
    if ts == [] then Err(EndsWhere(want))
    else if ts[0] == want then Ok(ts[1..])
    else Err(Expected(want, ts[0]))
  }

  predicate IsOperator(t: Token) {
    t == ALL || t == ANY || t == NOT
  }

  function OfCfg(c: Cfg): Expr {
    if c == Name("true") then True
    else if c == Name("false") then False
    else Value(c)
  }

  function ParseExpr(ts: seq<Token>): (r: Result<Parsed<Expr>, Refusal>)
    ensures r.Ok? ==> |r.value.rest| < |ts|
    decreases |ts|, 0
  {
    if ts == [] then Err(EndsWherePredicate)
    else if ts[0] == ALL || ts[0] == ANY then
      var list :- ExpectToken(ts[1..], LeftParen);
      var items :- ParseItems(list);
      Ok(Parsed(if ts[0] == ALL then All(items.value) else Any(items.value), items.rest))
    else if ts[0] == NOT then
      var body :- ExpectToken(ts[1..], LeftParen);
      var inner :- ParseExpr(body);
      var rest :- ExpectToken(inner.rest, RightParen);
      Ok(Parsed(Not(inner.value), rest))
    else
      var value :- ParseValue(ts);
      Ok(Parsed(OfCfg(value.value), value.rest))
  }

  /** The items of an `all` or `any` and its closing parenthesis. */
  function ParseItems(ts: seq<Token>): (r: Result<Parsed<seq<Expr>>, Refusal>)
    ensures r.Ok? ==> |r.value.rest| < |ts|
    decreases |ts|, 1
  {
    if ts != [] && ts[0] == RightParen then Ok(Parsed([], ts[1..]))
    else
      var first :- ParseExpr(ts);
      if first.rest != [] && first.rest[0] == Comma then
        var more :- ParseItems(first.rest[1..]);
        Ok(Parsed([first.value] + more.value, more.rest))
      else
        var rest :- ExpectToken(first.rest, RightParen);
        Ok(Parsed([first.value], rest))
  }

  function ParseValue(ts: seq<Token>): (r: Result<Parsed<Cfg>, Refusal>)
    ensures r.Ok? ==> |r.value.rest| < |ts|
  {
    if ts == [] then Err(EndsWhereIdent)
    else if !ts[0].Ident? then Err(IdentExpected(ts[0]))
    else if |ts| == 1 || ts[1] != Equals then Ok(Parsed(Name(ts[0].name), ts[1..]))
    else if |ts| == 2 then Err(EndsWhereString)
    else if !ts[2].Str? then Err(StringExpected(ts[2]))
    else Ok(Parsed(Pair(ts[0].name, ts[2].text), ts[3..]))
  }

  function AtEnd<T>(p: Parsed<T>): Result<T, Refusal> {
    if p.rest == [] then Ok(p.value) else Err(Follows(p.rest[0]))
  }

  function ParseTokens(ts: seq<Token>): Result<Expr, Refusal> {
    var p :- ParseExpr(ts);
    AtEnd(p)
  }

  /** The expression a text between `cfg(` and `)` says. */
  function Parse(text: string): Result<Expr, Refusal> {
    var ts :- Lex(text);
    ParseTokens(ts)
  }

  /** The first name or key in `e` that describes the compilation rather than
      the target. */
  function NonTargetName(e: Expr): Option<string> {
    match e
    case Not(inner) => NonTargetName(inner)
    case All(items) => FirstNonTargetName(items)
    case Any(items) => FirstNonTargetName(items)
    case Value(Name(name)) => if name in ["test", "debug_assertions", "proc_macro"] then Some(name) else None
    case Value(Pair(key, _)) => if key == "feature" then Some(key) else None
    case True => None
    case False => None
  }

  function FirstNonTargetName(es: seq<Expr>): Option<string> {
    if es == [] then None
    else
      match NonTargetName(es[0])
      case Some(name) => Some(name)
      case None => FirstNonTargetName(es[1..])
  }
}
