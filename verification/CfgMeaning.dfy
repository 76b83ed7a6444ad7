/** What a `cfg(...)` expression asks of a target, as alternatives: `matches` of
    crates/cargo-pwrs/src/cfg.rs in disjunctive normal form. */
module CfgMeaning {
  import opened Results
  import opened CfgSyntax
  import opened CfgGrammar
  import opened CfgRoundTrip

  /** One alternative: what a target's cfg has and what it has not. */
  datatype Clause = Clause(has: set<Cfg>, lacks: set<Cfg>)

  predicate Meets(target: seq<Cfg>, clause: Clause) {
    (forall c | c in clause.has :: c in target) && (forall c | c in clause.lacks :: c !in target)
  }

  const NOTHING: Clause := Clause({}, {})

  function Both(a: Clause, b: Clause): Clause {
    Clause(a.has + b.has, a.lacks + b.lacks)
  }

  /** One clause of each of the two, put together. */
  function Pairs(a: set<Clause>, b: set<Clause>): set<Clause> {
    set x, y | x in a && y in b :: Both(x, y)
  }

  /** The alternatives under which `e` is true, or under which it is false. */
  function Clauses(e: Expr, truth: bool): set<Clause>
    decreases e
  {
    match e
    case Not(inner) => Clauses(inner, !truth)
    case All(items) => if truth then Together(items, true) else Apart(items, false)
    case Any(items) => if truth then Apart(items, true) else Together(items, false)
    case Value(c) => {if truth then Clause({c}, {}) else Clause({}, {c})}
    case True => if truth then {NOTHING} else {}
    case False => if truth then {} else {NOTHING}
  }

  /** The alternatives under which all of the items are so. */
  function Together(es: seq<Expr>, truth: bool): set<Clause>
    decreases es
  {
    if es == [] then {NOTHING} else Pairs(Clauses(es[0], truth), Together(es[1..], truth))
  }

  /** The alternatives under which some item is so. */
  function Apart(es: seq<Expr>, truth: bool): set<Clause>
    decreases es
  {
    if es == [] then {} else Clauses(es[0], truth) + Apart(es[1..], truth)
  }

  ghost predicate MeetsSome(target: seq<Cfg>, clauses: set<Clause>) {
    exists clause :: clause in clauses && Meets(target, clause)
  }

  lemma {:induction false} MeetsPair(target: seq<Cfg>, a: set<Clause>, b: set<Clause>)
    ensures MeetsSome(target, Pairs(a, b)) <==> MeetsSome(target, a) && MeetsSome(target, b)
  {
    if MeetsSome(target, a) && MeetsSome(target, b) {
      var x :| x in a && Meets(target, x);
      var y :| y in b && Meets(target, y);
      assert Both(x, y) in Pairs(a, b) && Meets(target, Both(x, y));
    }
    if clause :| clause in Pairs(a, b) && Meets(target, clause) {
      var x, y :| x in a && y in b && clause == Both(x, y);
      assert Meets(target, x) && Meets(target, y);
    }
  }

  lemma {:induction false} MeetsNothing(target: seq<Cfg>)
    ensures MeetsSome(target, {NOTHING}) && !MeetsSome(target, {})
  {
    assert NOTHING in {NOTHING} && Meets(target, NOTHING);
  }

  lemma {:induction false} MeetsEither(target: seq<Cfg>, a: set<Clause>, b: set<Clause>)
    ensures MeetsSome(target, a + b) <==> MeetsSome(target, a) || MeetsSome(target, b)
  {
    assert forall c :: c in a + b <==> c in a || c in b;
  }

  lemma {:induction false} MeetsOne(target: seq<Cfg>, clause: Clause)
    ensures MeetsSome(target, {clause}) <==> Meets(target, clause)
  {
    assert clause in {clause};
  }

  lemma {:induction false} TogetherAre(es: seq<Expr>, truth: bool, target: seq<Cfg>)
    ensures MeetsSome(target, Together(es, truth)) <==> forall i | 0 <= i < |es| :: Matches(es[i], target) == truth
    decreases es, 0
  {
    if es == [] {
      MeetsNothing(target);
    } else {
      MatchesSomeClause(es[0], truth, target);
      TogetherAre(es[1..], truth, target);
      MeetsPair(target, Clauses(es[0], truth), Together(es[1..], truth));
      assert forall i | 0 < i < |es| :: es[i] == es[1..][i - 1];
    }
  }

  lemma {:induction false} ApartAre(es: seq<Expr>, truth: bool, target: seq<Cfg>)
    ensures MeetsSome(target, Apart(es, truth)) <==> exists i | 0 <= i < |es| :: Matches(es[i], target) == truth
    decreases es, 0
  {
    if es == [] {
      MeetsNothing(target);
    } else {
      MatchesSomeClause(es[0], truth, target);
      ApartAre(es[1..], truth, target);
      MeetsEither(target, Clauses(es[0], truth), Apart(es[1..], truth));
      assert forall i | 0 < i < |es| :: es[i] == es[1..][i - 1];
    }
  }

  /** A target matches an expression exactly when it meets one of the alternatives that
      make it true, and does not exactly when it meets one that make it false. */
  lemma {:induction false} MatchesSomeClause(e: Expr, truth: bool, target: seq<Cfg>)
    ensures Matches(e, target) == truth <==> MeetsSome(target, Clauses(e, truth))
    decreases e, 1
  {
    MeetsNothing(target);
    match e
    case Not(inner) => MatchesSomeClause(inner, !truth, target);
    case All(items) =>
      if truth {
        TogetherAre(items, true, target);
      } else {
        ApartAre(items, false, target);
      }
    case Any(items) =>
      if truth {
        ApartAre(items, true, target);
      } else {
        TogetherAre(items, false, target);
      }
    case Value(c) => MeetsOne(target, if truth then Clause({c}, {}) else Clause({}, {c}));
    case _ =>
  }

  // ----- a name by itself -----

  /** An ASCII letter or the underscore, by its code. */
  predicate IsLetter(c: char) {
    0x41 <= c as int <= 0x5A || 0x61 <= c as int <= 0x7A || c as int == 0x5F
  }

  predicate IsDigit(c: char) {
    0x30 <= c as int <= 0x39
  }

  predicate IsWord(w: string) {
    w != [] && IsLetter(w[0]) && forall k | 0 <= k < |w| :: IsLetter(w[k]) || IsDigit(w[k])
  }

  /** A word by itself is a name the target has or has not, unless it is an operator or a
      constant. */
  lemma {:induction false} WordParses(w: string)
    requires IsWord(w) && w !in ["all", "any", "not", "true", "false"]
    ensures Parse(w) == Ok(Value(Name(w)))
  {
    var t := Ident(w, false);
    assert IsIdent(w);
    LexLexeme(t);
    assert Lexeme(t) == w;
    ParserAcceptsTheGrammar([t], Value(Name(w)));
    assert Derives(DName(w, false)) && Yield(DName(w, false)) == [t];
  }
}
