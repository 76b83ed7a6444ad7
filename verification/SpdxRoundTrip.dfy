/** Printing a license expression with the fewest parentheses its precedence needs,
    and reading the text back. */
module SpdxRoundTrip {
  import opened Results
  import opened Text
  import opened SpdxSyntax
  import opened SpdxGrammar

  /** A name a text can hold as one word. */
  predicate IsWord(t: string) {
    t != [] && forall i | 0 <= i < |t| :: !Breaks(t[i])
  }

  predicate Breaks(c: char) {
    c == '(' || c == ')' || c == '/' || IsSpace(c)
  }

  predicate WellFormed(e: Expr) {
    match e
    case License(id) => IsWord(id) && IsName(id)
    case With(id, exception) => IsWord(id) && IsName(id) && IsWord(exception) && IsName(exception)
    case And(left, right) => WellFormed(left) && WellFormed(right)
    case Or(left, right) => WellFormed(left) && WellFormed(right)
  }

  // An OR is bare at the top and on the left of an OR, an AND also beside an OR
  // and on the left of an AND, and a license anywhere; all else is grouped.

  function PrintAny(e: Expr): DAny
    decreases e, if e.Or? then 0 else 2
  {
    if e.Or? then Either(PrintAny(e.left), OR, PrintAll(e.right)) else OneAll(PrintAll(e))
  }

  function PrintAll(e: Expr): DAll
    decreases e, if e.Or? then 4 else 1
  {
    if e.And? then Both(PrintAll(e.left), AND, PrintWith(e.right)) else OneWith(PrintWith(e))
  }

  function PrintWith(e: Expr): DWith
    decreases e, if e.License? || e.With? then 0 else 3
  {
    match e
    case License(id) => Bare(Named(id))
    case With(id, exception) => Excepted(Named(id), WITH, exception)
    case _ => Bare(Group(PrintAny(e)))
  }

  lemma {:induction false} PrintedAny(e: Expr)
    requires WellFormed(e)
    ensures AnyDerives(PrintAny(e)) && AnyTree(PrintAny(e)) == e
    decreases e, if e.Or? then 0 else 2
  {
    if e.Or? {
      PrintedAny(e.left);
      PrintedAll(e.right);
    } else {
      PrintedAll(e);
    }
  }

  lemma {:induction false} PrintedAll(e: Expr)
    requires WellFormed(e)
    ensures AllDerives(PrintAll(e)) && AllTree(PrintAll(e)) == e
    decreases e, if e.Or? then 4 else 1
  {
    if e.And? {
      PrintedAll(e.left);
      PrintedWith(e.right);
    } else {
      PrintedWith(e);
    }
  }

  lemma {:induction false} PrintedWith(e: Expr)
    requires WellFormed(e)
    ensures WithDerives(PrintWith(e)) && WithTree(PrintWith(e)) == e
    decreases e, if e.License? || e.With? then 0 else 3
  {
    if e.And? || e.Or? {
      PrintedAny(e);
    }
  }

  // ----- the fewest parentheses -----

  function Groups(ts: seq<string>): nat {
    if ts == [] then 0 else (if ts[0] == OPEN then 1 else 0) + Groups(ts[1..])
  }

  lemma {:induction false} GroupsOver(a: seq<string>, b: seq<string>)
    ensures Groups(a + b) == Groups(a) + Groups(b)
    decreases |a|
  {
    if a == [] {
      assert a + b == b;
    } else {
      assert (a + b)[1..] == a[1..] + b;
      GroupsOver(a[1..], b);
    }
  }

  lemma {:induction false} GroupsOfThree(a: seq<string>, op: string, b: seq<string>)
    requires op != OPEN
    ensures Groups(a + ([op] + b)) == Groups(a) + Groups(b)
  {
    GroupsOver(a, [op] + b);
    assert ([op] + b)[1..] == b;
  }

  lemma {:induction false} GroupsOfGroup(a: seq<string>)
    ensures Groups([OPEN] + (a + [CLOSE])) == Groups(a) + 1
  {
    assert CLOSE[0] != OPEN[0];
    assert ([OPEN] + (a + [CLOSE]))[1..] == a + [CLOSE];
    assert [CLOSE][1..] == [];
    assert Groups([CLOSE]) == Groups([]);
    GroupsOver(a, [CLOSE]);
  }

  /** No words that parse to `e` have fewer parentheses than the printed ones. */
  lemma {:induction false} PrintAnyIsFewest(e: Expr, a: DAny)
    requires WellFormed(e) && AnyDerives(a) && AnyTree(a) == e
    ensures Groups(AnyYield(PrintAny(e))) <= Groups(AnyYield(a))
    decreases a
  {
    match a
    case OneAll(all) =>
      PrintAllIsFewest(e, all);
      AnyNeedsNoMore(e);
    case Either(left, or, right) =>
      OneOperator(or);
      OneOperator(OR);
      PrintAnyIsFewest(e.left, left);
      PrintAllIsFewest(e.right, right);
      GroupsOfThree(AnyYield(left), or, AllYield(right));
      GroupsOfThree(AnyYield(PrintAny(e.left)), OR, AllYield(PrintAll(e.right)));
  }

  lemma {:induction false} PrintAllIsFewest(e: Expr, a: DAll)
    requires WellFormed(e) && AllDerives(a) && AllTree(a) == e
    ensures Groups(AllYield(PrintAll(e))) <= Groups(AllYield(a))
    decreases a
  {
    match a
    case OneWith(with) =>
      PrintWithIsFewest(e, with);
      AllNeedsNoMore(e);
    case Both(left, and, right) =>
      OneOperator(and);
      OneOperator(AND);
      PrintAllIsFewest(e.left, left);
      PrintWithIsFewest(e.right, right);
      GroupsOfThree(AllYield(left), and, WithYield(right));
      GroupsOfThree(AllYield(PrintAll(e.left)), AND, WithYield(PrintWith(e.right)));
  }

  lemma {:induction false} PrintWithIsFewest(e: Expr, w: DWith)
    requires WellFormed(e) && WithDerives(w) && WithTree(w) == e
    ensures Groups(WithYield(PrintWith(e))) <= Groups(WithYield(w))
    decreases w
  {
    match e
    case License(id) =>
    case With(id, exception) =>
      assert [id] + [WITH, exception] == [id] + ([WITH] + [exception]);
      OneOperator(WITH);
      GroupsOfThree([id], WITH, [exception]);
    case _ =>
      assert w.Bare? && w.primary.Group?;
      PrintAnyIsFewest(e, w.primary.inner);
      GroupsOfGroup(AnyYield(w.primary.inner));
      GroupsOfGroup(AnyYield(PrintAny(e)));
  }

  /** Printed where any operator may stand, an expression needs no more
      parentheses than where only AND and WITH may. */
  lemma {:induction false} AnyNeedsNoMore(e: Expr)
    requires WellFormed(e)
    ensures Groups(AnyYield(PrintAny(e))) <= Groups(AllYield(PrintAll(e)))
  {
    if e.Or? {
      GroupsOfGroup(AnyYield(PrintAny(e)));
      var w := Bare(Group(PrintAny(e)));
      assert PrintAll(e) == OneWith(w);
      assert AllYield(OneWith(w)) == WithYield(w) == PrimaryYield(w.primary);
    }
  }

  lemma {:induction false} AllNeedsNoMore(e: Expr)
    requires WellFormed(e)
    ensures Groups(AllYield(PrintAll(e))) <= Groups(WithYield(PrintWith(e)))
  {
    if e.And? {
      GroupsOfGroup(AnyYield(PrintAny(e)));
      assert PrintAny(e) == OneAll(PrintAll(e)) && PrintWith(e) == Bare(Group(PrintAny(e)));
    }
  }

  // ----- words and their text -----

  /** The words written out, `gaps[i]` before word `i` and the last gap at the end. */
  function Spell(ts: seq<string>, gaps: seq<string>): string
    requires |gaps| == |ts| + 1
    decreases |ts|
  {
    if ts == [] then gaps[0] else gaps[0] + (ts[0] + Spell(ts[1..], gaps[1..]))
  }

  predicate IsMark(t: string) {
    t == OPEN || t == CLOSE
  }

  predicate AllSpace(s: string) {
    forall i | 0 <= i < |s| :: IsSpace(s[i])
  }

  /** The gaps are white space, and two words that are no parentheses have some. */
  predicate Separates(ts: seq<string>, gaps: seq<string>)
    requires |gaps| == |ts| + 1
    decreases |ts|
  {
    AllSpace(gaps[0]) &&
    (ts != [] ==>
       (IsMark(ts[0]) || IsWord(ts[0]))
       && (|ts| > 1 && !IsMark(ts[0]) && !IsMark(ts[1]) ==> gaps[1] != [])
       && Separates(ts[1..], gaps[1..]))
  }

  lemma {:induction false} WordsOverName(w: string, s: string, word: string)
    requires forall i | 0 <= i < |w| :: !Breaks(w[i])
    ensures Words(w + s, word) == Words(s, word + w)
    decreases |w|
  {
    if w == [] {
      assert w + s == s && word + w == word;
    } else {
      assert (w + s)[1..] == w[1..] + s;
      WordsOverName(w[1..], s, word + [w[0]]);
      assert word + [w[0]] + w[1..] == word + w;
    }
  }

  lemma {:induction false} WordsOverGap(gap: string, s: string)
    requires AllSpace(gap)
    ensures Words(gap + s, []) == Words(s, [])
    decreases |gap|
  {
    if gap == [] {
      assert gap + s == s;
    } else {
      assert !IsSpace('(') && !IsSpace(')') && !IsSpace('/');
      assert (gap + s)[1..] == gap[1..] + s;
      WordsOverGap(gap[1..], s);
      assert [] + Words(gap[1..] + s, []) == Words(gap[1..] + s, []);
    }
  }

  lemma {:induction false} WordsOverWord(t: string, s: string)
    requires IsWord(t) && (s == [] || Breaks(s[0]))
    ensures Words(t + s, []) == [t] + Words(s, [])
  {
    WordsOverName(t, s, []);
    assert [] + t == t;
  }

  lemma {:induction false} WordsOfSpelling(ts: seq<string>, gaps: seq<string>)
    requires |gaps| == |ts| + 1 && Separates(ts, gaps)
    ensures Words(Spell(ts, gaps), []) == ts
    decreases |ts|
  {
    if ts == [] {
      WordsOverGap(gaps[0], []);
      assert gaps[0] + [] == gaps[0];
    } else {
      var t, more := ts[0], Spell(ts[1..], gaps[1..]);
      WordsOfSpelling(ts[1..], gaps[1..]);
      WordsOverGap(gaps[0], t + more);
      if IsMark(t) {
      } else {
        WordsOverWord(t, more);
      }
      assert ts == [t] + ts[1..];
    }
  }

  /** Printing any expression with the fewest parentheses, with any white space
      that keeps its words apart, and parsing the text gives the expression back. */
  lemma {:induction false} PrintThenParse(e: Expr, gaps: seq<string>)
    requires WellFormed(e)
    requires |gaps| == |AnyYield(PrintAny(e))| + 1 && Separates(AnyYield(PrintAny(e)), gaps)
    ensures Parse(Spell(AnyYield(PrintAny(e)), gaps)) == Ok(e)
  {
    var ts := AnyYield(PrintAny(e));
    PrintedAny(e);
    WordsOfSpelling(ts, gaps);
    ParserAcceptsTheGrammar(ts, e);
  }

  /** `/` reads as ` OR ` wherever it stands. */
  lemma {:induction false} SlashReadsAsOr(a: string, b: string, word: string)
    ensures Words(a + ("/" + b), word) == Words(a + (" OR " + b), word)
    decreases |a|
  {
    if a == [] {
      assert a + ("/" + b) == "/" + b && a + (" OR " + b) == " OR " + b;
      assert ("/" + b)[1..] == b;
      OrBetweenSpaces(b, word);
    } else {
      assert (a + ("/" + b))[1..] == a[1..] + ("/" + b);
      assert (a + (" OR " + b))[1..] == a[1..] + (" OR " + b);
      SlashReadsAsOr(a[1..], b, []);
      SlashReadsAsOr(a[1..], b, word + [a[0]]);
    }
  }

  lemma {:induction false} OrBetweenSpaces(b: string, word: string)
    ensures Words(" OR " + b, word) == Flush(word) + ([OR] + Words(b, []))
  {
    var s := " OR " + b;
    assert s == " " + (OR + (" " + b));
    assert (" " + (OR + (" " + b)))[1..] == OR + (" " + b);
    assert IsWord(OR);
    WordsOverWord(OR, " " + b);
    assert (" " + b)[1..] == b;
    assert [] + Words(b, []) == Words(b, []);
  }

  lemma {:induction false} SlashParsesAsOr(a: string, b: string)
    ensures Parse(a + "/" + b) == Parse(a + " OR " + b)
  {
    SlashReadsAsOr(a, b, []);
    assert a + "/" + b == a + ("/" + b) && a + " OR " + b == a + (" OR " + b);
  }
}
