/** SPDX license expressions as crates/cargo-pwrs/src/notices.rs reads them: the
    words of a text, the parser's functions, and which crates may ship. The word
    loop and the moving parser are in `SpdxParser`. */
module SpdxSyntax {
  import opened Results
  import opened Text

  datatype Expr =
    | License(id: string)
    | With(id: string, exception: string)
    | And(left: Expr, right: Expr)
    | Or(left: Expr, right: Expr)

  datatype Refusal =
    | Empty
    | WithAfterGroup
    | NotClosed
    | NameExpected(found: string)
    | EndsWhereName
    | Follows(extra: string)

  const OPEN := "("
  const CLOSE := ")"
  const OR := "OR"
  const AND := "AND"
  const WITH := "WITH"

  /** The words of `s` when `word` has been read of the one it starts in. */
  function Words(s: string, word: string): seq<string>
    decreases |s|
  {
    if s == [] then Flush(word)
    else if s[0] == '/' then Flush(word) + ([OR] + Words(s[1..], []))
    else if s[0] == '(' || s[0] == ')' then Flush(word) + ([[s[0]]] + Words(s[1..], []))
    else if IsSpace(s[0]) then Flush(word) + Words(s[1..], [])
    else Words(s[1..], word + [s[0]])
  }

  function Flush(word: string): seq<string> {
    if word == [] then [] else [word]
  }

  predicate Is(t: string, op: string) {
    SameIgnoringCase(t, op)
  }

  predicate IsOperator(t: string) {
    Is(t, AND) || Is(t, OR) || Is(t, WITH)
  }

  predicate IsName(t: string) {
    t != OPEN && t != CLOSE && !IsOperator(t)
  }

  predicate NextIs(ts: seq<string>, op: string) {
    ts != [] && Is(ts[0], op)
  }

  datatype Parsed<T> = Parsed(value: T, rest: seq<string>)

  function ParseAny(ts: seq<string>): (r: Result<Parsed<Expr>, Refusal>)
    ensures r.Ok? ==> |r.value.rest| < |ts|
    decreases |ts|, 4
  {
    var left :- ParseAll(ts);
    MoreAny(left.value, left.rest)
  }

  /** The loop of `any`, with `left` parsed so far. */
  function MoreAny(left: Expr, ts: seq<string>): (r: Result<Parsed<Expr>, Refusal>)
    ensures r.Ok? ==> |r.value.rest| <= |ts|
    decreases |ts|, 0
  {
    if NextIs(ts, OR) then
      var right :- ParseAll(ts[1..]);
      MoreAny(Or(left, right.value), right.rest)
    else Ok(Parsed(left, ts))
  }

  function ParseAll(ts: seq<string>): (r: Result<Parsed<Expr>, Refusal>)
    ensures r.Ok? ==> |r.value.rest| < |ts|
    decreases |ts|, 3
  {
    var left :- ParseWith(ts);
    MoreAll(left.value, left.rest)
  }

  function MoreAll(left: Expr, ts: seq<string>): (r: Result<Parsed<Expr>, Refusal>)
    ensures r.Ok? ==> |r.value.rest| <= |ts|
    decreases |ts|, 0
  {
    if NextIs(ts, AND) then
      var right :- ParseWith(ts[1..]);
      MoreAll(And(left, right.value), right.rest)
    else Ok(Parsed(left, ts))
  }

  function ParseWith(ts: seq<string>): (r: Result<Parsed<Expr>, Refusal>)
    ensures r.Ok? ==> |r.value.rest| < |ts|
    decreases |ts|, 2
  {
    var base :- ParsePrimary(ts);
    if !NextIs(base.rest, WITH) then Ok(base)
    else
      var exception :- ParseName(base.rest[1..]);
      if base.value.License? then Ok(Parsed(With(base.value.id, exception.value), exception.rest))
      else Err(WithAfterGroup)
  }

  function ParsePrimary(ts: seq<string>): (r: Result<Parsed<Expr>, Refusal>)
    ensures r.Ok? ==> |r.value.rest| < |ts|
    decreases |ts|, 1
  {
    if ts == [] || ts[0] != OPEN then
      var name :- ParseName(ts);
      Ok(Parsed(License(name.value), name.rest))
    else
      var inner :- ParseAny(ts[1..]);
      if inner.rest == [] || inner.rest[0] != CLOSE then Err(NotClosed)
      else Ok(Parsed(inner.value, inner.rest[1..]))
  }

  function ParseName(ts: seq<string>): (r: Result<Parsed<string>, Refusal>)
    ensures r.Ok? ==> |r.value.rest| < |ts|
  {
    if ts == [] then Err(EndsWhereName)
    else if IsName(ts[0]) then Ok(Parsed(ts[0], ts[1..]))
    else Err(NameExpected(ts[0]))
  }

  function ParseWords(ts: seq<string>): Result<Expr, Refusal> {
    if ts == [] then Err(Empty)
    else
      var p :- ParseAny(ts);
      if p.rest == [] then Ok(p.value) else Err(Follows(p.rest[0]))
  }

  function Parse(text: string): Result<Expr, Refusal> {
    ParseWords(Words(text, []))
  }
}
