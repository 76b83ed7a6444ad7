/** What C# compiles of a text with `#if NET`, `#if !NET`, `#else` and `#endif` lines
    in it, with NET defined and without. */
module CSharpLines {
  import opened Results
  import opened Text

  const IF_NET: string := "#if NET"
  const IF_NOT_NET: string := "#if !NET"
  const ELSE: string := "#else"
  const ENDIF: string := "#endif"

  /** The lines of a text, without the newlines that end them. */
  function Lines(text: string): seq<string> {
    if text == [] then []
    else
      var rest := Lines(text[1..]);
      if text[0] == '\n' then [[]] + rest
      else if rest == [] then [[text[0]]]
      else [[text[0]] + rest[0]] + rest[1..]
  }

  function Unlines(lines: seq<string>): string {
    if lines == [] then [] else lines[0] + "\n" + Unlines(lines[1..])
  }

  /** Every line ends with a newline. */
  predicate Whole(text: string) {
    text == [] || text[|text| - 1] == '\n'
  }

  /** Another condition than the two on NET, or one spelt another way. */
  predicate IsConditional(line: string) {
    var hash := TrimStart(line, IsSpace);
    hash != [] && hash[0] == '#' && BeginsConditional(TrimStart(hash[1..], IsSpace))
  }

  predicate BeginsConditional(word: string) {
    (|word| >= 2 && word[0] == 'i' && word[1] == 'f')
    || (|word| >= 2 && word[0] == 'e' && word[1] == 'l')
    || (|word| >= 4 && word[0] == 'e' && word[1] == 'n' && word[2] == 'd' && word[3] == 'i')
  }

  datatype Directive = If(net: bool) | Else | EndIf | OtherConditional | Content

  function DirectiveOf(line: string): Directive {
    if line == IF_NET then If(true)
    else if line == IF_NOT_NET then If(false)
    else if line == ELSE then Else
    else if line == ENDIF then EndIf
    else if IsConditional(line) then OtherConditional
    else Content
  }

  /** An open `#if`: whether its current branch is compiled, and whether it is in its `#else`. */
  datatype Branch = Branch(taken: bool, turned: bool)

  predicate Live(open: seq<Branch>) {
    forall i | 0 <= i < |open| :: open[i].taken
  }

  function Put(before: string, after: Option<string>): Option<string> {
    if after.None? then None else Some(before + after.value)
  }

  /** What is compiled of the lines inside the open `#if`s; None when a directive is
      misplaced or not one of the four. */
  function Compiled(lines: seq<string>, net: bool, open: seq<Branch>): Option<string> {
    if lines == [] then
      if open == [] then Some([]) else None
    else
      match DirectiveOf(lines[0])
      case If(on) => Compiled(lines[1..], net, open + [Branch(on == net, false)])
      case Else =>
        if open == [] || open[|open| - 1].turned then None
        else Compiled(lines[1..], net, open[..|open| - 1] + [Branch(!open[|open| - 1].taken, true)])
      case EndIf => if open == [] then None else Compiled(lines[1..], net, open[..|open| - 1])
      case OtherConditional => None
      case Content => Put(if Live(open) then lines[0] + "\n" else [], Compiled(lines[1..], net, open))
  }

  function Preprocessed(text: string, net: bool): Option<string> {
    Compiled(Lines(text), net, [])
  }

  /** A text of whole lines with no condition of its own. */
  ghost predicate Plain(text: string) {
    Whole(text) && forall i | 0 <= i < |Lines(text)| :: DirectiveOf(Lines(text)[i]) == Content
  }

  // ----- lines -----

  lemma {:induction false} LinesJoin(a: string, b: string)
    requires Whole(a)
    ensures Lines(a + b) == Lines(a) + Lines(b)
  {
    if a == [] {
      assert a + b == b && Lines(a) + Lines(b) == Lines(b);
    } else {
      assert (a + b)[1..] == a[1..] + b;
      LinesJoin(a[1..], b);
      if a[0] != '\n' {
        assert Lines(a[1..]) != [];
      }
    }
  }

  lemma {:induction false} UnlinesOfLines(a: string)
    requires Whole(a)
    ensures Unlines(Lines(a)) == a
  {
    if a != [] {
      UnlinesOfLines(a[1..]);
      if a[0] != '\n' {
        var rest := Lines(a[1..]);
        assert rest != [];
        assert ([[a[0]] + rest[0]] + rest[1..])[1..] == rest[1..];
        assert [a[0]] + rest[0] + "\n" + Unlines(rest[1..]) == [a[0]] + (rest[0] + "\n" + Unlines(rest[1..]));
      } else {
        assert ([[]] + Lines(a[1..]))[1..] == Lines(a[1..]);
      }
    }
  }

  lemma {:induction false} OneLine(line: string)
    requires '\n' !in line
    ensures Lines(line + "\n") == [line] && Whole(line + "\n")
  {
    if line == [] {
      assert Lines("\n"[1..]) == [];
    } else {
      assert (line + "\n")[1..] == line[1..] + "\n";
      OneLine(line[1..]);
      assert line[0] in line;
      assert [line[0]] + line[1..] == line;
    }
  }

  // ----- what a plain text, and a condition around plain texts, compiles to -----

  lemma {:induction false} PutTwice(a: string, b: string, c: Option<string>)
    ensures Put(a, Put(b, c)) == Put(a + b, c)
  {
    if c.Some? {
      assert a + (b + c.value) == a + b + c.value;
    }
  }

  lemma {:induction false} PutNothing(c: Option<string>)
    ensures Put([], c) == c
  {
    if c.Some? {
      assert [] + c.value == c.value;
    }
  }

  lemma {:induction false} ContentCompiles(lines: seq<string>, rest: seq<string>, net: bool, open: seq<Branch>)
    requires forall i | 0 <= i < |lines| :: DirectiveOf(lines[i]) == Content
    ensures Compiled(lines + rest, net, open) ==
        Put(if Live(open) then Unlines(lines) else [], Compiled(rest, net, open))
  {
    if lines == [] {
      assert lines + rest == rest;
      PutNothing(Compiled(rest, net, open));
    } else {
      var after := Compiled(rest, net, open);
      assert (lines + rest)[1..] == lines[1..] + rest && (lines + rest)[0] == lines[0];
      ContentCompiles(lines[1..], rest, net, open);
      if Live(open) {
        PutTwice(lines[0] + "\n", Unlines(lines[1..]), after);
      } else {
        PutNothing(after);
      }
    }
  }

  lemma {:induction false} PlainCompiles(a: string, rest: seq<string>, net: bool, open: seq<Branch>)
    requires Plain(a)
    ensures Compiled(Lines(a) + rest, net, open) == Put(if Live(open) then a else [], Compiled(rest, net, open))
  {
    ContentCompiles(Lines(a), rest, net, open);
    UnlinesOfLines(a);
  }

  lemma {:induction false} LiveInside(open: seq<Branch>, last: Branch)
    ensures Live(open + [last]) <==> Live(open) && last.taken
  {
    if Live(open + [last]) {
      assert forall i | 0 <= i < |open| :: open[i] == (open + [last])[i];
      assert (open + [last])[|open|] == last;
    }
  }

  /** `a` in one `#if`, then `b` in its `#else`. */
  lemma {:induction false} IfElseCompiles(a: string, b: string, rest: seq<string>, net: bool, open: seq<Branch>)
    requires Plain(a) && Plain(b)
    ensures Compiled([IF_NET] + (Lines(a) + ([ELSE] + (Lines(b) + ([ENDIF] + rest)))), net, open)
            == Put(if Live(open) then (if net then a else b) else [], Compiled(rest, net, open))
  {
    var end := [ENDIF] + rest;
    var second := [ELSE] + (Lines(b) + end);
    var on, off := Branch(true == net, false), Branch(!(true == net), true);
    PlainCompiles(a, second, net, open + [on]);
    PlainCompiles(b, end, net, open + [off]);
    LiveInside(open, on);
    LiveInside(open, off);
    PutNothing(Compiled(rest, net, open));
    PutNothing(Put(b, Compiled(rest, net, open)));
  }

  /** `a` in one `#if` alone. */
  lemma {:induction false} IfAloneCompiles(
      line: string, on: bool, a: string, rest: seq<string>, net: bool, open: seq<Branch>)
    requires Plain(a) && DirectiveOf(line) == If(on)
    ensures Compiled([line] + (Lines(a) + ([ENDIF] + rest)), net, open) ==
        Put(if Live(open) && on == net then a else [], Compiled(rest, net, open))
  {
    var inside := Branch(on == net, false);
    PlainCompiles(a, [ENDIF] + rest, net, open + [inside]);
    LiveInside(open, inside);
  }

  // ----- texts by what they compile to wherever they stand -----

  /** Wherever the text stands, it compiles to `x`. */
  ghost predicate Means(text: string, net: bool, x: string) {
    Whole(text) && forall rest, open ::
      Compiled(Lines(text) + rest, net, open) == Put(if Live(open) then x else [], Compiled(rest, net, open))
  }

  lemma {:induction false} PlainMeansItself(a: string, net: bool)
    requires Plain(a)
    ensures Means(a, net, a)
  {
    forall rest, open ensures Compiled(Lines(a) + rest, net, open) ==
      Put(if Live(open) then a else [], Compiled(rest, net, open)) {
      PlainCompiles(a, rest, net, open);
    }
  }

  lemma {:induction false} NothingMeansNothing(net: bool)
    ensures Means([], net, [])
  {
    forall rest, open ensures Compiled(Lines([]) + rest, net, open) == Put([], Compiled(rest, net, open)) {
      assert Lines([]) + rest == rest;
      PutNothing(Compiled(rest, net, open));
    }
  }

  lemma {:induction false} JoinedCompiles(
      a: string, x: string, b: string, y: string, rest: seq<string>, net: bool, open: seq<Branch>)
    requires Means(a, net, x) && Means(b, net, y)
    ensures Compiled(Lines(a + b) + rest, net, open) == Put(if Live(open) then x + y else [], Compiled(rest, net, open))
  {
    LinesJoin(a, b);
    assert Lines(a) + Lines(b) + rest == Lines(a) + (Lines(b) + rest);
    var after := Compiled(rest, net, open);
    if Live(open) {
      PutTwice(x, y, after);
    } else {
      PutNothing(after);
    }
  }

  lemma {:induction false} JoinedMeans(a: string, x: string, b: string, y: string, net: bool)
    requires Means(a, net, x) && Means(b, net, y)
    ensures Means(a + b, net, x + y)
  {
    assert Whole(a + b) by {
      assert a + [] == a;
    }
    forall rest, open ensures Compiled(Lines(a + b) + rest, net, open) ==
      Put(if Live(open) then x + y else [], Compiled(rest, net, open)) {
      JoinedCompiles(a, x, b, y, rest, net, open);
    }
  }

  lemma {:induction false} MeansWhatIsPreprocessed(text: string, net: bool, x: string)
    requires Means(text, net, x)
    ensures Preprocessed(text, net) == Some(x)
  {
    var end: seq<string>, open: seq<Branch> := [], [];
    assert Live(open) && Compiled(end, net, open) == Some([]);
    assert Compiled(Lines(text) + end, net, open) == Put(if Live(open) then x else [], Compiled(end, net, open));
    assert Lines(text) + end == Lines(text);
    assert x + [] == x;
  }
}
