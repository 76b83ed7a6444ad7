/** Annex D of the SPDX Specification 2.3 lets WITH follow a license name only. The
    parser also takes it after a name in parentheses. This module says exactly on
    which words the two agree. */
module SpdxAnnexD {
  import opened Results
  import opened SpdxSyntax
  import opened SpdxGrammar

  predicate AnyStrict(a: DAny) {
    match a
    case OneAll(all) => AllStrict(all)
    case Either(left, _, right) => AnyStrict(left) && AllStrict(right)
  }

  predicate AllStrict(a: DAll) {
    match a
    case OneWith(with) => WithStrict(with)
    case Both(left, _, right) => AllStrict(left) && WithStrict(right)
  }

  predicate WithStrict(w: DWith) {
    match w
    case Bare(primary) => PrimaryStrict(primary)
    case Excepted(primary, _, _) => primary.Named?
  }

  predicate PrimaryStrict(p: DPrimary) {
    match p
    case Named(_) => true
    case Group(inner) => AnyStrict(inner)
  }

  /** A derivation Annex D has. */
  ghost predicate DerivesByAnnexD(ts: seq<string>, e: Expr) {
    exists a :: AnyDerives(a) && AnyStrict(a) && AnyYield(a) == ts && AnyTree(a) == e
  }

  /** Somewhere a WITH stands right behind a closing parenthesis. */
  predicate WithAfterClose(ts: seq<string>) {
    exists i | 0 < i < |ts| :: ts[i - 1] == CLOSE && Is(ts[i], WITH)
  }

  lemma {:induction false} Seam(a: seq<string>, b: seq<string>)
    requires a != [] && b != []
    ensures WithAfterClose(a + b) <==>
            WithAfterClose(a) || WithAfterClose(b) || (a[|a| - 1] == CLOSE && Is(b[0], WITH))
  {
    var ts := a + b;
    if i :| 0 < i < |ts| && ts[i - 1] == CLOSE && Is(ts[i], WITH) {
      if i < |a| {
        assert a[i - 1] == CLOSE && Is(a[i], WITH);
      } else if i > |a| {
        assert b[i - |a| - 1] == CLOSE && Is(b[i - |a|], WITH);
      }
    }
    if i :| 0 < i < |a| && a[i - 1] == CLOSE && Is(a[i], WITH) {
      assert ts[i - 1] == CLOSE && Is(ts[i], WITH);
    }
    if i :| 0 < i < |b| && b[i - 1] == CLOSE && Is(b[i], WITH) {
      assert ts[|a| + i - 1] == CLOSE && Is(ts[|a| + i], WITH);
    }
    if a[|a| - 1] == CLOSE && Is(b[0], WITH) {
      assert ts[|a| - 1] == CLOSE && Is(ts[|a|], WITH);
    }
  }

  // Every yield starts with a name or an opening parenthesis, never with WITH.

  ghost predicate StartsPlainly(ts: seq<string>) {
    ts != [] && !IsOperator(ts[0])
  }

  lemma {:induction false} AnyStarts(a: DAny)
    requires AnyDerives(a)
    ensures StartsPlainly(AnyYield(a))
  {
    match a
    case OneAll(all) => AllStarts(all);
    case Either(left, _, _) => AnyStarts(left);
  }

  lemma {:induction false} AllStarts(a: DAll)
    requires AllDerives(a)
    ensures StartsPlainly(AllYield(a))
  {
    match a
    case OneWith(with) => WithStarts(with);
    case Both(left, _, _) => AllStarts(left);
  }

  lemma {:induction false} WithStarts(w: DWith)
    requires WithDerives(w)
    ensures StartsPlainly(WithYield(w)) && StartsPlainly(PrimaryYield(w.primary))
  {
    OneOperator(OPEN);
  }

  lemma {:induction false} AnyStrictness(a: DAny)
    requires AnyDerives(a)
    ensures AnyStrict(a) <==> !WithAfterClose(AnyYield(a))
  {
    match a
    case OneAll(all) => AllStrictness(all);
    case Either(left, or, right) =>
      AnyStrictness(left);
      AllStrictness(right);
      AnyStarts(left);
      AllStarts(right);
      OneOperator(or);
      Joined(AnyYield(left), or, AllYield(right));
  }

  lemma {:induction false} AllStrictness(a: DAll)
    requires AllDerives(a)
    ensures AllStrict(a) <==> !WithAfterClose(AllYield(a))
  {
    match a
    case OneWith(with) => WithStrictness(with);
    case Both(left, and, right) =>
      AllStrictness(left);
      WithStrictness(right);
      AllStarts(left);
      WithStarts(right);
      OneOperator(and);
      Joined(AllYield(left), and, WithYield(right));
  }

  /** An operator other than WITH between two yields adds no such place. */
  lemma {:induction false} Joined(a: seq<string>, op: string, b: seq<string>)
    requires a != [] && StartsPlainly(b) && !Is(op, WITH) && op != CLOSE
    ensures WithAfterClose(a + ([op] + b)) <==> WithAfterClose(a) || WithAfterClose(b)
  {
    Seam([op], b);
    Seam(a, [op] + b);
  }

  lemma {:induction false} WithStrictness(w: DWith)
    requires WithDerives(w)
    ensures WithStrict(w) <==> !WithAfterClose(WithYield(w))
  {
    WithStarts(w);
    PrimaryStrictness(w.primary);
    if w.Excepted? {
      OneOperator(w.with);
      assert !WithAfterClose([w.with, w.exception]);
      Seam(PrimaryYield(w.primary), [w.with, w.exception]);
    }
  }

  lemma {:induction false} PrimaryStrictness(p: DPrimary)
    requires PrimaryDerives(p)
    ensures PrimaryStrict(p) <==> !WithAfterClose(PrimaryYield(p))
    ensures PrimaryYield(p) != [] && (p.Group? <==> PrimaryYield(p)[|PrimaryYield(p)| - 1] == CLOSE)
  {
    if p.Group? {
      var body := AnyYield(p.inner);
      AnyStrictness(p.inner);
      AnyStarts(p.inner);
      OneOperator(CLOSE);
      Seam(body, [CLOSE]);
      Seam([OPEN], body + [CLOSE]);
    }
  }

  /** The words parse to `e` as Annex D has it exactly when they parse to `e` and
      no WITH stands right behind a closing parenthesis. */
  lemma {:induction false} AgreesWithAnnexD(ts: seq<string>, e: Expr)
    ensures DerivesByAnnexD(ts, e) <==> ParseWords(ts) == Ok(e) && !WithAfterClose(ts)
  {
    ParserAcceptsTheGrammar(ts, e);
    if DerivesByAnnexD(ts, e) {
      var a :| AnyDerives(a) && AnyStrict(a) && AnyYield(a) == ts && AnyTree(a) == e;
      AnyStrictness(a);
    }
    if ParseWords(ts) == Ok(e) && !WithAfterClose(ts) {
      var a :| AnyDerives(a) && AnyYield(a) == ts && AnyTree(a) == e;
      AnyStrictness(a);
    }
  }

  /** `(MIT) WITH x` parses, and Annex D does not have it. */
  lemma {:induction false} GroupedNameTakesWith()
    ensures ParseWords([OPEN, "MIT", CLOSE, WITH, "x"]) == Ok(With("MIT", "x"))
    ensures !DerivesByAnnexD([OPEN, "MIT", CLOSE, WITH, "x"], With("MIT", "x"))
  {
    assert |"MIT"| == 3 && "MIT"[0] == 'M' && |"x"| == 1 && "x"[0] == 'x';
    GroupedNameParses("MIT", "x");
  }

  /** Any license in parentheses takes WITH any exception. */
  lemma {:induction false} GroupedNameParses(name: string, exception: string)
    requires IsName(name) && IsName(exception)
    ensures ParseWords([OPEN, name, CLOSE, WITH, exception]) == Ok(With(name, exception))
    ensures !DerivesByAnnexD([OPEN, name, CLOSE, WITH, exception], With(name, exception))
  {
    var ts := [OPEN, name, CLOSE, WITH, exception];
    var _ := GroupedName(name, exception);
    ParserAcceptsTheGrammar(ts, With(name, exception));
    assert ts[2] == CLOSE && Is(ts[3], WITH);
    AgreesWithAnnexD(ts, With(name, exception));
  }

  lemma {:induction false} GroupedName(name: string, exception: string) returns (a: DAny)
    requires IsName(name) && IsName(exception)
    ensures AnyDerives(a) && AnyTree(a) == With(name, exception) && AnyYield(a) == [OPEN, name, CLOSE, WITH, exception]
  {
    var inner := Lifted(Bare(Named(name)));
    assert PrimaryYield(Named(name)) == [name] && PrimaryTree(Named(name)) == License(name);
    var w := Excepted(Group(inner), WITH, exception);
    assert PrimaryYield(Group(inner)) == [OPEN, name, CLOSE] && PrimaryTree(Group(inner)) == License(name);
    assert WithYield(w) == [OPEN, name, CLOSE] + [WITH, exception];
    assert PrimaryDerives(Group(inner));
    a := Lifted(w);
  }

  lemma {:induction false} Lifted(w: DWith) returns (a: DAny)
    ensures AnyYield(a) == WithYield(w) && AnyTree(a) == WithTree(w) && (AnyDerives(a) <==> WithDerives(w))
  {
    a := OneAll(OneWith(w));
    assert AllYield(OneWith(w)) == WithYield(w) && AllTree(OneWith(w)) == WithTree(w);
    assert AllDerives(OneWith(w)) <==> WithDerives(w);
  }
}
