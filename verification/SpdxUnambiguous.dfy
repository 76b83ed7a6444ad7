/** The words of a license expression have one derivation at most, and the expressions
    some text parses to are exactly the well-formed ones. */
module SpdxUnambiguous {
  import opened Results
  import opened Text
  import opened SpdxSyntax
  import opened SpdxGrammar
  import opened SpdxRoundTrip

  // ----- reading the derivation itself -----

  datatype Read<D> = Read(read: D, rest: seq<string>)

  function ReadAny(ts: seq<string>): (r: Option<Read<DAny>>)
    ensures r.Some? ==> |r.value.rest| < |ts|
    decreases |ts|, 4
  {
    match ReadAll(ts)
    case None => None
    case Some(left) => MoreOfAny(OneAll(left.read), left.rest)
  }

  function MoreOfAny(left: DAny, ts: seq<string>): (r: Option<Read<DAny>>)
    ensures r.Some? ==> |r.value.rest| <= |ts|
    decreases |ts|, 0
  {
    if !NextIs(ts, OR) then Some(Read(left, ts))
    else
      match ReadAll(ts[1..])
      case None => None
      case Some(right) => MoreOfAny(Either(left, ts[0], right.read), right.rest)
  }

  function ReadAll(ts: seq<string>): (r: Option<Read<DAll>>)
    ensures r.Some? ==> |r.value.rest| < |ts|
    decreases |ts|, 3
  {
    match ReadWith(ts)
    case None => None
    case Some(left) => MoreOfAll(OneWith(left.read), left.rest)
  }

  function MoreOfAll(left: DAll, ts: seq<string>): (r: Option<Read<DAll>>)
    ensures r.Some? ==> |r.value.rest| <= |ts|
    decreases |ts|, 0
  {
    if !NextIs(ts, AND) then Some(Read(left, ts))
    else
      match ReadWith(ts[1..])
      case None => None
      case Some(right) => MoreOfAll(Both(left, ts[0], right.read), right.rest)
  }

  function ReadWith(ts: seq<string>): (r: Option<Read<DWith>>)
    ensures r.Some? ==> |r.value.rest| < |ts|
    decreases |ts|, 2
  {
    match ReadPrimary(ts)
    case None => None
    case Some(base) =>
      if !NextIs(base.rest, WITH) then Some(Read(Bare(base.read), base.rest))
      else if |base.rest| < 2 then None
      else Some(Read(Excepted(base.read, base.rest[0], base.rest[1]), base.rest[2..]))
  }

  function ReadPrimary(ts: seq<string>): (r: Option<Read<DPrimary>>)
    ensures r.Some? ==> |r.value.rest| < |ts|
    decreases |ts|, 1
  {
    if ts == [] then None
    else if ts[0] != OPEN then Some(Read(Named(ts[0]), ts[1..]))
    else
      match ReadAny(ts[1..])
      case None => None
      case Some(inner) => if inner.rest == [] then None else Some(Read(Group(inner.read), inner.rest[1..]))
  }

  lemma {:induction false} AnyIsRead(a: DAny, rest: seq<string>)
    requires AnyDerives(a) && !NextIs(rest, AND) && !NextIs(rest, WITH)
    ensures ReadAny(AnyYield(a) + rest) == MoreOfAny(a, rest)
    decreases a
  {
    match a
    case OneAll(all) =>
      AllIsRead(all, rest);
      assert MoreOfAll(all, rest) == Some(Read(all, rest));
    case Either(left, or, right) =>
      OneOperator(or);
      var tail := [or] + (AllYield(right) + rest);
      assert AnyYield(a) + rest == AnyYield(left) + tail;
      AnyIsRead(left, tail);
      assert tail[1..] == AllYield(right) + rest;
      AllIsRead(right, rest);
      assert MoreOfAll(right, rest) == Some(Read(right, rest));
  }

  lemma {:induction false} AllIsRead(a: DAll, rest: seq<string>)
    requires AllDerives(a) && !NextIs(rest, WITH)
    ensures ReadAll(AllYield(a) + rest) == MoreOfAll(a, rest)
    decreases a
  {
    match a
    case OneWith(with) => WithIsRead(with, rest);
    case Both(left, and, right) =>
      OneOperator(and);
      var tail := [and] + (WithYield(right) + rest);
      assert AllYield(a) + rest == AllYield(left) + tail;
      AllIsRead(left, tail);
      assert tail[1..] == WithYield(right) + rest;
      WithIsRead(right, rest);
  }

  lemma {:induction false} WithIsRead(w: DWith, rest: seq<string>)
    requires WithDerives(w) && !NextIs(rest, WITH)
    ensures ReadWith(WithYield(w) + rest) == Some(Read(w, rest))
    decreases w
  {
    match w
    case Bare(primary) => PrimaryIsRead(primary, rest);
    case Excepted(primary, with, exception) =>
      var tail := [with, exception] + rest;
      assert WithYield(w) + rest == PrimaryYield(primary) + tail;
      PrimaryIsRead(primary, tail);
      assert tail[2..] == rest;
  }

  lemma {:induction false} PrimaryIsRead(p: DPrimary, rest: seq<string>)
    requires PrimaryDerives(p)
    ensures ReadPrimary(PrimaryYield(p) + rest) == Some(Read(p, rest))
    decreases p
  {
    match p
    case Named(name) => assert ([name] + rest)[1..] == rest;
    case Group(inner) =>
      var tail := [CLOSE] + rest;
      OneOperator(CLOSE);
      assert (PrimaryYield(p) + rest)[1..] == AnyYield(inner) + tail;
      AnyIsRead(inner, tail);
      assert MoreOfAny(inner, tail) == Some(Read(inner, tail));
      assert tail[1..] == rest;
  }

  /** Two derivations of one word list are one. */
  lemma {:induction false} GrammarIsUnambiguous(a: DAny, b: DAny)
    requires AnyDerives(a) && AnyDerives(b) && AnyYield(a) == AnyYield(b)
    ensures a == b
  {
    AnyIsRead(a, []);
    AnyIsRead(b, []);
    assert MoreOfAny(a, []) == Some(Read(a, [])) && MoreOfAny(b, []) == Some(Read(b, []));
  }

  // ----- the expressions texts parse to -----

  predicate Wordlike(ts: seq<string>) {
    forall i | 0 <= i < |ts| :: IsMark(ts[i]) || IsWord(ts[i])
  }

  lemma {:induction false} WordsAreWordlike(s: string, word: string)
    requires forall i | 0 <= i < |word| :: !Breaks(word[i])
    ensures Wordlike(Words(s, word))
    decreases |s|
  {
    if s != [] {
      if Breaks(s[0]) {
        WordsAreWordlike(s[1..], []);
        assert IsWord(OR);
      } else {
        WordsAreWordlike(s[1..], word + [s[0]]);
      }
    }
  }

  lemma {:induction false} WordlikeParts(a: seq<string>, b: seq<string>)
    ensures Wordlike(a + b) <==> Wordlike(a) && Wordlike(b)
  {
    var ts := a + b;
    assert forall i | 0 <= i < |a| :: ts[i] == a[i];
    assert forall i | 0 <= i < |b| :: ts[|a| + i] == b[i];
  }

  lemma {:induction false} AnyIsWellFormed(a: DAny)
    requires AnyDerives(a) && Wordlike(AnyYield(a))
    ensures WellFormed(AnyTree(a))
    decreases a
  {
    match a
    case OneAll(all) => AllIsWellFormed(all);
    case Either(left, or, right) =>
      WordlikeParts(AnyYield(left), [or] + AllYield(right));
      WordlikeParts([or], AllYield(right));
      AnyIsWellFormed(left);
      AllIsWellFormed(right);
  }

  lemma {:induction false} AllIsWellFormed(a: DAll)
    requires AllDerives(a) && Wordlike(AllYield(a))
    ensures WellFormed(AllTree(a))
    decreases a
  {
    match a
    case OneWith(with) => WithIsWellFormed(with);
    case Both(left, and, right) =>
      WordlikeParts(AllYield(left), [and] + WithYield(right));
      WordlikeParts([and], WithYield(right));
      AllIsWellFormed(left);
      WithIsWellFormed(right);
  }

  lemma {:induction false} WithIsWellFormed(w: DWith)
    requires WithDerives(w) && Wordlike(WithYield(w))
    ensures WellFormed(WithTree(w))
    decreases w
  {
    match w
    case Bare(primary) => PrimaryIsWellFormed(primary);
    case Excepted(primary, with, exception) =>
      WordlikeParts(PrimaryYield(primary), [with, exception]);
      assert [with, exception][1] == exception;
      PrimaryIsWellFormed(primary);
  }

  lemma {:induction false} PrimaryIsWellFormed(p: DPrimary)
    requires PrimaryDerives(p) && Wordlike(PrimaryYield(p))
    ensures WellFormed(PrimaryTree(p))
    decreases p
  {
    match p
    case Named(name) => assert [name][0] == name;
    case Group(inner) =>
      WordlikeParts([OPEN], AnyYield(inner) + [CLOSE]);
      WordlikeParts(AnyYield(inner), [CLOSE]);
      AnyIsWellFormed(inner);
  }

  lemma {:induction false} OperatorsAreWords()
    ensures IsWord(OR) && IsWord(AND) && IsWord(WITH)
  {}

  lemma {:induction false} AnyPrintsWords(e: Expr)
    requires WellFormed(e)
    ensures Wordlike(AnyYield(PrintAny(e)))
    decreases e, if e.Or? then 0 else 2
  {
    if e.Or? {
      OperatorsAreWords();
      AnyPrintsWords(e.left);
      AllPrintsWords(e.right);
      WordlikeParts([OR], AllYield(PrintAll(e.right)));
      WordlikeParts(AnyYield(PrintAny(e.left)), [OR] + AllYield(PrintAll(e.right)));
    } else {
      AllPrintsWords(e);
    }
  }

  lemma {:induction false} AllPrintsWords(e: Expr)
    requires WellFormed(e)
    ensures Wordlike(AllYield(PrintAll(e)))
    decreases e, if e.Or? then 4 else 1
  {
    if e.And? {
      OperatorsAreWords();
      AllPrintsWords(e.left);
      WithPrintsWords(e.right);
      WordlikeParts([AND], WithYield(PrintWith(e.right)));
      WordlikeParts(AllYield(PrintAll(e.left)), [AND] + WithYield(PrintWith(e.right)));
    } else {
      WithPrintsWords(e);
    }
  }

  lemma {:induction false} WithPrintsWords(e: Expr)
    requires WellFormed(e)
    ensures Wordlike(WithYield(PrintWith(e)))
    decreases e, if e.License? || e.With? then 0 else 3
  {
    if e.With? {
      OperatorsAreWords();
      assert WithYield(PrintWith(e)) == [e.id] + [WITH, e.exception];
    } else if !e.License? {
      AnyPrintsWords(e);
      WordlikeParts(AnyYield(PrintAny(e)), [CLOSE]);
      WordlikeParts([OPEN], AnyYield(PrintAny(e)) + [CLOSE]);
    }
  }

  function OneSpaceEach(n: nat): (gaps: seq<string>)
    ensures |gaps| == n
  {
    seq(n, _ => " ")
  }

  lemma {:induction false} SpacesSeparate(ts: seq<string>)
    requires Wordlike(ts)
    ensures Separates(ts, OneSpaceEach(|ts| + 1))
    decreases |ts|
  {
    var gaps := OneSpaceEach(|ts| + 1);
    assert IsSpace(gaps[0][0]);
    if ts != [] {
      assert gaps[1..] == OneSpaceEach(|ts[1..]| + 1);
      assert Wordlike(ts[1..]) by {
        assert forall i | 0 <= i < |ts[1..]| :: ts[1..][i] == ts[i + 1];
      }
      SpacesSeparate(ts[1..]);
    }
  }

  /** The expressions some text parses to are exactly the well-formed ones. */
  lemma {:induction false} ParseGivesTheWellFormed(e: Expr)
    ensures WellFormed(e) <==> exists text :: Parse(text) == Ok(e)
  {
    if WellFormed(e) {
      var ts := AnyYield(PrintAny(e));
      AnyPrintsWords(e);
      SpacesSeparate(ts);
      PrintThenParse(e, OneSpaceEach(|ts| + 1));
    }
    if text :| Parse(text) == Ok(e) {
      var ts := Words(text, []);
      WordsAreWordlike(text, []);
      ParserAcceptsTheGrammar(ts, e);
      var a :| AnyDerives(a) && AnyYield(a) == ts && AnyTree(a) == e;
      AnyIsWellFormed(a);
    }
  }
}
