/** What the three operators of an SPDX expression say as they are written, by
    crates/cargo-pwrs/src/notices.rs. */
module SpdxReading {
  import opened Results
  import opened SpdxSyntax
  import opened SpdxGrammar
  import opened SpdxRoundTrip

  /** A word that names a license or an exception. */
  predicate Names(w: string) {
    IsWord(w) && IsName(w)
  }

  lemma {:induction false} WordsOfThree(x: string, op: string, y: string)
    requires IsWord(x) && IsWord(op) && IsWord(y)
    ensures Words(x + (" " + op + " " + y), []) == [x, op, y]
  {
    var tail := " " + op + " " + y;
    assert Words(y, []) == [y] by {
      WordsOverWord(y, []);
      assert y + [] == y;
    }
    assert tail == " " + (op + (" " + y));
    WordsOverGap(" ", y);
    WordsOverWord(op, " " + y);
    WordsOverGap(" ", op + (" " + y));
    WordsOverWord(x, tail);
  }

  lemma {:induction false} OperatorsAreWords()
    ensures IsWord("AND") && IsWord("OR") && IsWord("WITH")
  {}

  function Of(name: string): DWith {
    Bare(Named(name))
  }

  lemma {:induction false} OneName(x: string)
    requires Names(x)
    ensures WithDerives(Of(x)) && WithYield(Of(x)) == [x] && WithTree(Of(x)) == License(x)
    ensures AllDerives(OneWith(Of(x))) && AllYield(OneWith(Of(x))) == [x] && AllTree(OneWith(Of(x))) == License(x)
  {
    assert PrimaryDerives(Named(x)) && PrimaryYield(Named(x)) == [x] && PrimaryTree(Named(x)) == License(x);
  }

  lemma {:induction false} DerivedParses(a: DAny, ts: seq<string>, e: Expr)
    requires AnyDerives(a) && AnyYield(a) == ts && AnyTree(a) == e
    ensures ParseWords(ts) == Ok(e)
  {
    ParserAcceptsTheGrammar(ts, e);
  }

  lemma {:induction false} AndJoins(x: string, y: string)
    requires Names(x) && Names(y)
    ensures ParseWords([x, "AND", y]) == Ok(And(License(x), License(y)))
  {
    OneName(x);
    OneName(y);
    var both := Both(OneWith(Of(x)), "AND", Of(y));
    assert AllDerives(both) && AllYield(both) == [x, "AND", y] && AllTree(both) == And(License(x), License(y));
    var any := OneAll(both);
    assert AnyDerives(any) && AnyYield(any) == [x, "AND", y] && AnyTree(any) == And(License(x), License(y));
    DerivedParses(any, [x, "AND", y], And(License(x), License(y)));
  }

  lemma {:induction false} OrJoins(x: string, y: string)
    requires Names(x) && Names(y)
    ensures ParseWords([x, "OR", y]) == Ok(Or(License(x), License(y)))
  {
    OneName(x);
    OneName(y);
    var left := OneAll(OneWith(Of(x)));
    assert AnyDerives(left) && AnyYield(left) == [x] && AnyTree(left) == License(x);
    var either := Either(left, "OR", OneWith(Of(y)));
    assert AnyDerives(either) && AnyYield(either) == [x, "OR", y];
    assert AnyTree(either) == Or(License(x), License(y));
    DerivedParses(either, [x, "OR", y], Or(License(x), License(y)));
  }

  lemma {:induction false} WithJoins(x: string, y: string)
    requires Names(x) && Names(y)
    ensures ParseWords([x, "WITH", y]) == Ok(With(x, y))
  {
    assert PrimaryDerives(Named(x)) && PrimaryYield(Named(x)) == [x];
    var excepted := Excepted(Named(x), "WITH", y);
    assert WithDerives(excepted) && WithYield(excepted) == [x, "WITH", y] && WithTree(excepted) == With(x, y);
    var all := OneWith(excepted);
    assert AllDerives(all) && AllYield(all) == [x, "WITH", y] && AllTree(all) == With(x, y);
    var any := OneAll(all);
    assert AnyDerives(any) && AnyYield(any) == [x, "WITH", y] && AnyTree(any) == With(x, y);
    DerivedParses(any, [x, "WITH", y], With(x, y));
  }

  /** The operators, written in capitals between two names, join them as they say. */
  lemma {:induction false} OperatorsJoinNames(x: string, y: string)
    requires Names(x) && Names(y)
    ensures Parse(x + " AND " + y) == Ok(And(License(x), License(y)))
    ensures Parse(x + " OR " + y) == Ok(Or(License(x), License(y)))
    ensures Parse(x + " WITH " + y) == Ok(With(x, y))
  {
    OperatorsAreWords();
    WordsOfThree(x, "AND", y);
    WordsOfThree(x, "OR", y);
    WordsOfThree(x, "WITH", y);
    assert x + " AND " + y == x + (" " + "AND" + " " + y);
    assert x + " OR " + y == x + (" " + "OR" + " " + y);
    assert x + " WITH " + y == x + (" " + "WITH" + " " + y);
    AndJoins(x, y);
    OrJoins(x, y);
    WithJoins(x, y);
  }
}
