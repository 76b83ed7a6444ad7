/** The grammar of Annex D of the SPDX Specification 2.3 as the parser reads it:
    WITH binds tighter than AND, AND tighter than OR, and both group to the left.
    The parser succeeds with a tree exactly when a derivation of the words stands
    for it. A name in parentheses may be followed by WITH, since the parser looks
    only at the tree the parentheses gave. */
module SpdxGrammar {
  import opened Results
  import opened SpdxSyntax

  datatype DAny = OneAll(all: DAll) | Either(left: DAny, or: string, right: DAll)
  datatype DAll = OneWith(with: DWith) | Both(left: DAll, and: string, right: DWith)
  datatype DWith = Bare(primary: DPrimary) | Excepted(primary: DPrimary, with: string, exception: string)
  datatype DPrimary = Named(name: string) | Group(inner: DAny)

  predicate AnyDerives(a: DAny) {
    match a
    case OneAll(all) => AllDerives(all)
    case Either(left, or, right) => AnyDerives(left) && Is(or, OR) && AllDerives(right)
  }

  predicate AllDerives(a: DAll) {
    match a
    case OneWith(with) => WithDerives(with)
    case Both(left, and, right) => AllDerives(left) && Is(and, AND) && WithDerives(right)
  }

  predicate WithDerives(w: DWith) {
    match w
    case Bare(primary) => PrimaryDerives(primary)
    case Excepted(primary, with, exception) =>
      PrimaryDerives(primary) && PrimaryTree(primary).License? && Is(with, WITH) && IsName(exception)
  }

  predicate PrimaryDerives(p: DPrimary) {
    match p
    case Named(name) => IsName(name)
    case Group(inner) => AnyDerives(inner)
  }

  function AnyYield(a: DAny): seq<string> {
    match a
    case OneAll(all) => AllYield(all)
    case Either(left, or, right) => AnyYield(left) + ([or] + AllYield(right))
  }

  function AllYield(a: DAll): seq<string> {
    match a
    case OneWith(with) => WithYield(with)
    case Both(left, and, right) => AllYield(left) + ([and] + WithYield(right))
  }

  function WithYield(w: DWith): seq<string> {
    match w
    case Bare(primary) => PrimaryYield(primary)
    case Excepted(primary, with, exception) => PrimaryYield(primary) + [with, exception]
  }

  function PrimaryYield(p: DPrimary): seq<string> {
    match p
    case Named(name) => [name]
    case Group(inner) => [OPEN] + (AnyYield(inner) + [CLOSE])
  }

  function AnyTree(a: DAny): Expr {
    match a
    case OneAll(all) => AllTree(all)
    case Either(left, _, right) => Or(AnyTree(left), AllTree(right))
  }

  function AllTree(a: DAll): Expr {
    match a
    case OneWith(with) => WithTree(with)
    case Both(left, _, right) => And(AllTree(left), WithTree(right))
  }

  function WithTree(w: DWith): Expr {
    match w
    case Bare(primary) => PrimaryTree(primary)
    case Excepted(primary, _, exception) =>
      if PrimaryTree(primary).License? then With(PrimaryTree(primary).id, exception) else PrimaryTree(primary)
  }

  function PrimaryTree(p: DPrimary): Expr {
    match p
    case Named(name) => License(name)
    case Group(inner) => AnyTree(inner)
  }

  /** No word is two of the operators and the marks. */
  lemma {:induction false} OneOperator(t: string)
    ensures !(Is(t, OR) && Is(t, AND)) && !(Is(t, OR) && Is(t, WITH)) && !(Is(t, AND) && Is(t, WITH))
    ensures IsOperator(t) ==> t != OPEN && t != CLOSE
  {}

  // ----- every derivation parses to its tree -----

  lemma {:induction false} AnyParses(a: DAny, rest: seq<string>)
    requires AnyDerives(a) && !NextIs(rest, AND) && !NextIs(rest, WITH)
    ensures ParseAny(AnyYield(a) + rest) == MoreAny(AnyTree(a), rest)
    decreases a
  {
    match a
    case OneAll(all) =>
      AllParses(all, rest);
      assert MoreAll(AllTree(all), rest) == Ok(Parsed(AllTree(all), rest));
    case Either(left, or, right) =>
      OneOperator(or);
      var tail := [or] + (AllYield(right) + rest);
      assert AnyYield(a) + rest == AnyYield(left) + tail;
      AnyParses(left, tail);
      assert tail[1..] == AllYield(right) + rest;
      AllParses(right, rest);
      assert MoreAll(AllTree(right), rest) == Ok(Parsed(AllTree(right), rest));
  }

  lemma {:induction false} AllParses(a: DAll, rest: seq<string>)
    requires AllDerives(a) && !NextIs(rest, WITH)
    ensures ParseAll(AllYield(a) + rest) == MoreAll(AllTree(a), rest)
    decreases a
  {
    match a
    case OneWith(with) => WithParses(with, rest);
    case Both(left, and, right) =>
      OneOperator(and);
      var tail := [and] + (WithYield(right) + rest);
      assert AllYield(a) + rest == AllYield(left) + tail;
      AllParses(left, tail);
      assert tail[1..] == WithYield(right) + rest;
      WithParses(right, rest);
  }

  lemma {:induction false} WithParses(w: DWith, rest: seq<string>)
    requires WithDerives(w) && !NextIs(rest, WITH)
    ensures ParseWith(WithYield(w) + rest) == Ok(Parsed(WithTree(w), rest))
    decreases w
  {
    match w
    case Bare(primary) => PrimaryParses(primary, rest);
    case Excepted(primary, with, exception) =>
      var tail := [with, exception] + rest;
      assert WithYield(w) + rest == PrimaryYield(primary) + tail;
      PrimaryParses(primary, tail);
      assert tail[1..] == [exception] + rest && ([exception] + rest)[1..] == rest;
  }

  lemma {:induction false} PrimaryParses(p: DPrimary, rest: seq<string>)
    requires PrimaryDerives(p)
    ensures ParsePrimary(PrimaryYield(p) + rest) == Ok(Parsed(PrimaryTree(p), rest))
    decreases p
  {
    match p
    case Named(name) => assert ([name] + rest)[1..] == rest;
    case Group(inner) =>
      var tail := [CLOSE] + rest;
      OneOperator(CLOSE);
      assert (PrimaryYield(p) + rest)[1..] == AnyYield(inner) + tail;
      AnyParses(inner, tail);
      assert MoreAny(AnyTree(inner), tail) == Ok(Parsed(AnyTree(inner), tail));
      assert tail[1..] == rest;
  }

  // ----- whatever parses has a derivation -----

  lemma {:induction false} AnyOf(ts: seq<string>) returns (a: DAny)
    requires ParseAny(ts).Ok?
    ensures AnyDerives(a) && AnyTree(a) == ParseAny(ts).value.value
    ensures ts == AnyYield(a) + ParseAny(ts).value.rest
    decreases |ts|, 4
  {
    var first := AllOf(ts);
    a := MoreAnyOf(OneAll(first), ParseAll(ts).value.rest);
  }

  lemma {:induction false} Regroup(left: seq<string>, ts: seq<string>, right: seq<string>, rest: seq<string>)
    requires ts != [] && ts[1..] == right + rest
    ensures left + ts == left + ([ts[0]] + right) + rest
  {
    assert ts == [ts[0]] + ts[1..];
  }

  lemma {:induction false} MoreAnyOf(left: DAny, ts: seq<string>) returns (a: DAny)
    requires AnyDerives(left) && MoreAny(AnyTree(left), ts).Ok?
    ensures AnyDerives(a) && AnyTree(a) == MoreAny(AnyTree(left), ts).value.value
    ensures AnyYield(left) + ts == AnyYield(a) + MoreAny(AnyTree(left), ts).value.rest
    decreases |ts|, 0
  {
    a := left;
    if NextIs(ts, OR) {
      var right := AllOf(ts[1..]);
      var next := Either(left, ts[0], right);
      var rest := ParseAll(ts[1..]).value.rest;
      a := MoreAnyOf(next, rest);
      Regroup(AnyYield(left), ts, AllYield(right), rest);
    }
  }

  lemma {:induction false} AllOf(ts: seq<string>) returns (a: DAll)
    requires ParseAll(ts).Ok?
    ensures AllDerives(a) && AllTree(a) == ParseAll(ts).value.value
    ensures ts == AllYield(a) + ParseAll(ts).value.rest
    decreases |ts|, 3
  {
    var first := WithOf(ts);
    a := MoreAllOf(OneWith(first), ParseWith(ts).value.rest);
  }

  lemma {:induction false} MoreAllOf(left: DAll, ts: seq<string>) returns (a: DAll)
    requires AllDerives(left) && MoreAll(AllTree(left), ts).Ok?
    ensures AllDerives(a) && AllTree(a) == MoreAll(AllTree(left), ts).value.value
    ensures AllYield(left) + ts == AllYield(a) + MoreAll(AllTree(left), ts).value.rest
    decreases |ts|, 0
  {
    a := left;
    if NextIs(ts, AND) {
      var right := WithOf(ts[1..]);
      var next := Both(left, ts[0], right);
      var rest := ParseWith(ts[1..]).value.rest;
      a := MoreAllOf(next, rest);
      Regroup(AllYield(left), ts, WithYield(right), rest);
    }
  }

  lemma {:induction false} WithOf(ts: seq<string>) returns (w: DWith)
    requires ParseWith(ts).Ok?
    ensures WithDerives(w) && WithTree(w) == ParseWith(ts).value.value
    ensures ts == WithYield(w) + ParseWith(ts).value.rest
    decreases |ts|, 2
  {
    var primary := PrimaryOf(ts);
    var left := ParsePrimary(ts).value.rest;
    if NextIs(left, WITH) {
      w := Excepted(primary, left[0], left[1]);
      var rest := left[1..][1..];
      assert left == [left[0], left[1]] + rest;
    } else {
      w := Bare(primary);
    }
  }

  lemma {:induction false} PrimaryOf(ts: seq<string>) returns (p: DPrimary)
    requires ParsePrimary(ts).Ok?
    ensures PrimaryDerives(p) && PrimaryTree(p) == ParsePrimary(ts).value.value
    ensures ts == PrimaryYield(p) + ParsePrimary(ts).value.rest
    decreases |ts|, 1
  {
    if ts == [] || ts[0] != OPEN {
      p := Named(ts[0]);
    } else {
      var inner := AnyOf(ts[1..]);
      p := Group(inner);
      var left := ParseAny(ts[1..]).value.rest;
      assert left == [CLOSE] + left[1..];
      assert ts == [OPEN] + ts[1..];
    }
  }

  /** The parser accepts exactly the grammar. */
  lemma {:induction false} ParserAcceptsTheGrammar(ts: seq<string>, e: Expr)
    ensures ParseWords(ts) == Ok(e) <==> exists a :: AnyDerives(a) && AnyYield(a) == ts && AnyTree(a) == e
  {
    if ParseWords(ts) == Ok(e) {
      var a := AnyOf(ts);
      assert AnyYield(a) + [] == AnyYield(a);
    }
    if a :| AnyDerives(a) && AnyYield(a) == ts && AnyTree(a) == e {
      AnyParses(a, []);
      assert AnyYield(a) + [] == AnyYield(a);
      assert MoreAny(AnyTree(a), []) == Ok(Parsed(AnyTree(a), []));
    }
  }

  // ----- the case of operators does not matter -----

  /** The same words, but for the case an operator is written in. */
  predicate SameButCase(ts: seq<string>, us: seq<string>) {
    |ts| == |us| && forall i | 0 <= i < |ts| :: SameWord(ts[i], us[i])
  }

  predicate SameWord(t: string, u: string) {
    t == u || (Is(t, OR) && Is(u, OR)) || (Is(t, AND) && Is(u, AND)) || (Is(t, WITH) && Is(u, WITH))
  }

  ghost predicate Alike<T>(r: Result<Parsed<T>, Refusal>, s: Result<Parsed<T>, Refusal>) {
    (r.Ok? <==> s.Ok?) && (r.Ok? ==> r.value.value == s.value.value && SameButCase(r.value.rest, s.value.rest))
  }

  lemma {:induction false} AnyAlike(ts: seq<string>, us: seq<string>)
    requires SameButCase(ts, us)
    ensures Alike(ParseAny(ts), ParseAny(us))
    decreases |ts|, 4
  {
    AllAlike(ts, us);
    var r := ParseAll(ts);
    if r.Ok? {
      MoreAnyAlike(r.value.value, r.value.rest, ParseAll(us).value.rest);
    }
  }

  lemma {:induction false} MoreAnyAlike(left: Expr, ts: seq<string>, us: seq<string>)
    requires SameButCase(ts, us)
    ensures Alike(MoreAny(left, ts), MoreAny(left, us))
    decreases |ts|, 0
  {
    if ts != [] {
      if Is(ts[0], OR) {
        AllAlike(ts[1..], us[1..]);
        var r := ParseAll(ts[1..]);
        if r.Ok? {
          MoreAnyAlike(Or(left, r.value.value), r.value.rest, ParseAll(us[1..]).value.rest);
        }
      }
    }
  }

  lemma {:induction false} AllAlike(ts: seq<string>, us: seq<string>)
    requires SameButCase(ts, us)
    ensures Alike(ParseAll(ts), ParseAll(us))
    decreases |ts|, 3
  {
    WithAlike(ts, us);
    var r := ParseWith(ts);
    if r.Ok? {
      MoreAllAlike(r.value.value, r.value.rest, ParseWith(us).value.rest);
    }
  }

  lemma {:induction false} MoreAllAlike(left: Expr, ts: seq<string>, us: seq<string>)
    requires SameButCase(ts, us)
    ensures Alike(MoreAll(left, ts), MoreAll(left, us))
    decreases |ts|, 0
  {
    if ts != [] {
      if Is(ts[0], AND) {
        WithAlike(ts[1..], us[1..]);
        var r := ParseWith(ts[1..]);
        if r.Ok? {
          MoreAllAlike(And(left, r.value.value), r.value.rest, ParseWith(us[1..]).value.rest);
        }
      }
    }
  }

  lemma {:induction false} WithAlike(ts: seq<string>, us: seq<string>)
    requires SameButCase(ts, us)
    ensures Alike(ParseWith(ts), ParseWith(us))
    decreases |ts|, 2
  {
    PrimaryAlike(ts, us);
  }

  lemma {:induction false} PrimaryAlike(ts: seq<string>, us: seq<string>)
    requires SameButCase(ts, us)
    ensures Alike(ParsePrimary(ts), ParsePrimary(us))
    decreases |ts|, 1
  {
    if ts != [] {
      if ts[0] == OPEN {
        AnyAlike(ts[1..], us[1..]);
      }
    }
  }

  /** Words that differ only in the case their operators are written in parse to
      the same tree, or neither parses. */
  lemma {:induction false} CaseOfOperatorsDoesNotMatter(ts: seq<string>, us: seq<string>)
    requires SameButCase(ts, us)
    ensures ParseWords(ts).Ok? <==> ParseWords(us).Ok?
    ensures ParseWords(ts).Ok? ==> ParseWords(ts) == ParseWords(us)
  {
    AnyAlike(ts, us);
  }
}
