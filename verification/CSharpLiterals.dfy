/** C# string literals as crates/cargo-pwrs/src/generate.rs writes, skips and reads
    them: `cs_str`, `skip_literal`, `string_literal` and `string_literals`. A char
    stands for one byte of the source; none of these looks past ASCII. */
module CSharpLiterals {
  import opened Results

  // ----- writing -----

  function Doubled(s: string): string {
    if s == [] then [] else (if s[0] == '"' then "\"\"" else [s[0]]) + Doubled(s[1..])
  }

  /** A verbatim string literal. */
  function CsStr(s: string): string {
    ['@', '"'] + Doubled(s) + ['"']
  }

  // ----- skipping -----

  /** Just past the quote that ends a verbatim string, read from `i`; `""` is one quote. */
  function VerbatimEnd(b: string, i: nat): (r: nat)
    requires i <= |b| + 1
    ensures i <= r <= |b| + 1
    decreases |b| + 1 - i
  {
    if i >= |b| then i
    else if b[i] != '"' then VerbatimEnd(b, i + 1)
    else if i + 1 < |b| && b[i + 1] == '"' then VerbatimEnd(b, i + 2)
    else i + 1
  }

  /** Just past the quote that ends an ordinary literal, read from `i`. */
  function QuotedEnd(b: string, quote: char, i: nat): (r: nat)
    requires i <= |b| + 1
    ensures i <= r <= |b| + 1
    decreases |b| + 1 - i
  {
    if i >= |b| then i
    else if b[i] == '\\' then QuotedEnd(b, quote, i + 2)
    else if b[i] == quote then i + 1
    else QuotedEnd(b, quote, i + 1)
  }

  /** Past the end by one where the text ends in the middle of an escape. */
  function LiteralEnd(b: string, i: nat): (r: nat)
    requires i < |b|
    ensures i < r <= |b| + 1
  {
    if b[i] == '@' then VerbatimEnd(b, i + 2) else QuotedEnd(b, b[i], i + 1)
  }

  method SkipLiteral(b: string, i: nat) returns (end: nat)
    requires i < |b|
    ensures end == LiteralEnd(b, i)
  {
    end := i;
    if b[i] == '@' {
      end := end + 2;
      while end < |b|
        invariant end <= |b| + 1 && VerbatimEnd(b, i + 2) == VerbatimEnd(b, end)
      {
        if b[end] == '"' {
          if end + 1 < |b| && b[end + 1] == '"' {
            end := end + 2;
            continue;
          }
          return end + 1;
        }
        end := end + 1;
      }
      return end;
    }
    var quote := b[i];
    end := end + 1;
    while end < |b|
      invariant end <= |b| + 1 && QuotedEnd(b, quote, i + 1) == QuotedEnd(b, quote, end)
    {
      if b[end] == '\\' {
        end := end + 2;
        continue;
      }
      if b[end] == quote {
        return end + 1;
      }
      end := end + 1;
    }
  }

  // ----- reading -----

  /** Each `a` `b` replaced by `c`, from the left. */
  function Replaced(s: string, a: char, b: char, c: char): string {
    if s == [] then []
    else if |s| >= 2 && s[0] == a && s[1] == b then [c] + Replaced(s[2..], a, b, c)
    else [s[0]] + Replaced(s[1..], a, b, c)
  }

  /** The text a literal stands for. */
  function StringLiteral(lit: string): Option<string> {
    if |lit| >= 3 && lit[0] == '@' && lit[1] == '"' && lit[|lit| - 1] == '"' then
      Some(Replaced(lit[2..|lit| - 1], '"', '"', '"'))
    else if |lit| >= 2 && lit[0] == '"' && lit[|lit| - 1] == '"' then
      Some(Replaced(Replaced(lit[1..|lit| - 1], '\\', '"', '"'), '\\', '\\', '\\'))
    else None
  }

  predicate StartsString(b: string, i: nat) {
    i < |b| && (b[i] == '"' || (b[i] == '@' && i + 1 < |b| && b[i + 1] == '"'))
  }

  function With(first: Option<string>, rest: Option<seq<string>>): Option<seq<string>> {
    if first.Some? && rest.Some? then Some([first.value] + rest.value) else rest
  }

  /** Every string literal from `i` on; None where the text ends in the middle of an
      escape, which no slice of it reaches past. */
  function LiteralsFrom(args: string, i: nat): Option<seq<string>>
    decreases |args| + 1 - i
  {
    if i >= |args| then Some([])
    else if StartsString(args, i) then
      var end := LiteralEnd(args, i);
      if end > |args| then None
      else With(StringLiteral(args[i..end]), LiteralsFrom(args, end))
    else if args[i] == '\'' then LiteralsFrom(args, LiteralEnd(args, i))
    else LiteralsFrom(args, i + 1)
  }

  function AfterAll(before: seq<string>, rest: Option<seq<string>>): Option<seq<string>> {
    if rest.Some? then Some(before + rest.value) else None
  }

  method StringLiterals(args: string) returns (found: Option<seq<string>>)
    ensures found == LiteralsFrom(args, 0)
  {
    var out: seq<string> := [];
    var i := 0;
    NothingBefore(LiteralsFrom(args, 0));
    while i < |args|
      invariant i <= |args| + 1
      invariant LiteralsFrom(args, 0) == AfterAll(out, LiteralsFrom(args, i))
      decreases |args| + 1 - i
    {
      if StartsString(args, i) {
        var end := SkipLiteral(args, i);
        if end > |args| {
          return None;
        }
        var text := StringLiteral(args[i..end]);
        if text.Some? {
          OneMore(out, text.value, LiteralsFrom(args, end));
          out := out + [text.value];
        }
        i := end;
      } else if args[i] == '\'' {
        i := SkipLiteral(args, i);
      } else {
        i := i + 1;
      }
    }
    assert out + [] == out;
    return Some(out);
  }

  lemma {:induction false} NothingBefore(rest: Option<seq<string>>)
    ensures AfterAll([], rest) == rest
  {
    if rest.Some? {
      assert [] + rest.value == rest.value;
    }
  }

  lemma {:induction false} OneMore(out: seq<string>, text: string, rest: Option<seq<string>>)
    ensures AfterAll(out, With(Some(text), rest)) == AfterAll(out + [text], rest)
  {
    if rest.Some? {
      assert out + ([text] + rest.value) == out + [text] + rest.value;
    }
  }

  // ----- what is written is skipped and read back -----

  lemma {:induction false} HalvedDoubled(s: string)
    ensures Replaced(Doubled(s), '"', '"', '"') == s
  {
    if s != [] {
      var rest := Doubled(s[1..]);
      HalvedDoubled(s[1..]);
      if s[0] == '"' {
        assert Doubled(s)[2..] == rest;
      } else {
        assert Doubled(s)[1..] == rest;
      }
    }
  }

  /** Reading a literal the generator writes gives the text back. */
  lemma {:induction false} LiteralReadsBack(s: string)
    ensures StringLiteral(CsStr(s)) == Some(s)
  {
    HalvedDoubled(s);
    assert CsStr(s)[2..|CsStr(s)| - 1] == Doubled(s);
  }

  /** From inside a literal, at the rest of its text. */
  lemma {:induction false} SkipsDoubled(pre: string, s: string, post: string)
    ensures var b := pre + Doubled(s) + post; VerbatimEnd(b, |pre|) == VerbatimEnd(b, |pre| + |Doubled(s)|)
    decreases |s|
  {
    if s != [] {
      var one := if s[0] == '"' then "\"\"" else [s[0]];
      var b := pre + Doubled(s) + post;
      assert b == (pre + one) + Doubled(s[1..]) + post;
      SkipsDoubled(pre + one, s[1..], post);
      assert b[|pre|] == one[0];
      assert |one| == 2 ==> b[|pre| + 1] == '"';
    }
  }

  /** Skipping stops exactly at the end of a literal the generator writes, unless a
      quote comes next. */
  lemma {:induction false} SkipStopsAtTheEnd(pre: string, s: string, post: string)
    ensures LiteralEnd(pre + CsStr(s) + post, |pre|) == |pre| + |CsStr(s)| <==> !(post != [] && post[0] == '"')
  {
    var b, at := pre + CsStr(s) + post, |pre| + 2 + |Doubled(s)|;
    assert b[|pre|] == '@';
    assert b == (pre + ['@', '"']) + Doubled(s) + (['"'] + post);
    SkipsDoubled(pre + ['@', '"'], s, ['"'] + post);
    assert b[at] == '"';
    assert at + 1 < |b| ==> b[at + 1] == post[0];
  }

  const COMMA: string := ", "

  /** The literals of a list, as the generator joins them. */
  function Listed(list: seq<string>): string {
    if list == [] then []
    else if |list| == 1 then CsStr(list[0])
    else CsStr(list[0]) + COMMA + Listed(list[1..])
  }

  lemma {:induction false} ReadsFirst(pre: string, s: string, post: string)
    requires !(post != [] && post[0] == '"')
    ensures var args := pre + CsStr(s) + post;
            LiteralsFrom(args, |pre|) == With(Some(s), LiteralsFrom(args, |pre| + |CsStr(s)|))
  {
    var args := pre + CsStr(s) + post;
    SkipStopsAtTheEnd(pre, s, post);
    LiteralReadsBack(s);
    assert args[|pre|] == '@' && args[|pre| + 1] == '"';
    assert args[|pre|..|pre| + |CsStr(s)|] == CsStr(s);
  }

  lemma {:induction false} ReadsFirstOfMore(pre: string, s: string, rest: string)
    ensures var next := pre + CsStr(s) + COMMA;
            LiteralsFrom(pre + (CsStr(s) + COMMA + rest), |pre|) == With(Some(s), LiteralsFrom(next + rest, |next|))
  {
    var first := CsStr(s);
    ReadsFirst(pre, s, COMMA + rest);
    var args := pre + first + (COMMA + rest);
    assert args == pre + (first + COMMA + rest);
    assert args == pre + first + COMMA + rest;
  }

  lemma {:induction false} ReadsListed(pre: string, list: seq<string>)
    ensures LiteralsFrom(pre + Listed(list), |pre|) == Some(list)
    decreases |list|
  {
    if |list| == 1 {
      var args := pre + CsStr(list[0]);
      ReadsFirst(pre, list[0], []);
      assert args + [] == args;
      assert [list[0]] + [] == list;
      assert LiteralsFrom(args, |args|) == Some([]);
    } else if |list| > 1 {
      ReadsFirstOfMore(pre, list[0], Listed(list[1..]));
      ReadsListed(pre + CsStr(list[0]) + COMMA, list[1..]);
      assert [list[0]] + list[1..] == list;
    }
  }

  /** The literals of a joined list read back as the list. */
  lemma {:induction false} ListReadsBack(list: seq<string>)
    ensures LiteralsFrom(Listed(list), 0) == Some(list)
  {
    ReadsListed([], list);
    assert [] + Listed(list) == Listed(list);
  }

  /** The list's own text is what tells: a text ending inside an escape has no answer. */
  lemma {:induction false} EndingInAnEscape(pre: string)
    requires forall i | 0 <= i < |pre| :: pre[i] != '"' && pre[i] != '\'' && pre[i] != '@'
    ensures LiteralsFrom(pre + ['"', '\\'], 0) == None
  {
    PlainIsPassed(pre, ['"', '\\'], 0);
    var args := pre + ['"', '\\'];
    assert args[|pre|] == '"' && args[|pre| + 1] == '\\';
    assert QuotedEnd(args, '"', |pre| + 1) == QuotedEnd(args, '"', |pre| + 3);
  }

  lemma {:induction false} PlainIsPassed(pre: string, post: string, i: nat)
    requires i <= |pre|
    requires forall k | 0 <= k < |pre| :: pre[k] != '"' && pre[k] != '\'' && pre[k] != '@'
    ensures LiteralsFrom(pre + post, i) == LiteralsFrom(pre + post, |pre|)
    decreases |pre| - i
  {
    if i < |pre| {
      assert (pre + post)[i] == pre[i];
      PlainIsPassed(pre, post, i + 1);
    }
  }

  // ----- when there is no answer -----

  /** What a text, read one character at a time, is in the middle of. */
  datatype Reading =
    | Plain
    | AtSign               // an `@` outside a literal was last
    | Verbatim             // in a verbatim string
    | Quote                // a `"` in a verbatim string was last: its end, or half of `""`
    | Ordinary(mark: char) // in a literal that ends at `mark`
    | Escape(mark: char)   // the same, and a backslash that escapes the next was last

  function Next(r: Reading, c: char): Reading {
    match r
    case Verbatim => if c == '"' then Quote else Verbatim
    case Ordinary(mark) => if c == '\\' then Escape(mark) else if c == mark then Plain else r
    case Escape(mark) => Ordinary(mark)
    case _ =>
      if c == '"' && r == Quote then Verbatim
      else if c == '"' && r == AtSign then Verbatim
      else if c == '"' || c == '\'' then Ordinary(c)
      else if c == '@' then AtSign
      else Plain
  }

  /** What the text is in the middle of at its end, read on from `i`. */
  function ReadFrom(s: string, i: nat, r: Reading): Reading
    decreases |s| - i
  {
    if i >= |s| then r else ReadFrom(s, i + 1, Next(r, s[i]))
  }

  /** The last string opened is an ordinary one, is never closed, and ends in a
      backslash that escapes nothing. */
  predicate EndsInsideAnEscape(s: string) {
    ReadFrom(s, 0, Plain) == Escape('"')
  }

  predicate StuckFrom(s: string, i: nat, r: Reading) {
    ReadFrom(s, i, r) == Escape('"')
  }

  lemma {:induction false} OrdinaryReads(s: string, mark: char, i: nat)
    requires i <= |s| && mark != '\\'
    ensures var end := QuotedEnd(s, mark, i);
            if end > |s| then ReadFrom(s, i, Ordinary(mark)) == Escape(mark)
            else StuckFrom(s, i, Ordinary(mark)) == StuckFrom(s, end, Plain)
    decreases |s| - i
  {
    if i < |s| {
      if s[i] == '\\' {
        if i + 1 < |s| {
          OrdinaryReads(s, mark, i + 2);
          assert ReadFrom(s, i, Ordinary(mark)) == ReadFrom(s, i + 1, Escape(mark)) ==
              ReadFrom(s, i + 2, Ordinary(mark));
        } else {
          assert ReadFrom(s, i, Ordinary(mark)) == ReadFrom(s, i + 1, Escape(mark)) == Escape(mark);
        }
      } else if s[i] != mark {
        OrdinaryReads(s, mark, i + 1);
      }
    }
  }

  /** A quote or an `@` just read matters only when a quote comes next. */
  lemma {:induction false} LastOnlyMattersToAQuote(s: string, i: nat, r: Reading)
    requires i <= |s| && (r == Quote || r == AtSign) && !(i < |s| && s[i] == '"')
    ensures StuckFrom(s, i, r) == StuckFrom(s, i, Plain)
  {}

  lemma {:induction false} VerbatimReads(s: string, i: nat)
    requires i <= |s|
    ensures var end := VerbatimEnd(s, i); end <= |s| && StuckFrom(s, i, Verbatim) == StuckFrom(s, end, Plain)
    decreases |s| - i
  {
    if i < |s| {
      if s[i] != '"' {
        VerbatimReads(s, i + 1);
      } else if i + 1 < |s| && s[i + 1] == '"' {
        VerbatimReads(s, i + 2);
        assert ReadFrom(s, i, Verbatim) == ReadFrom(s, i + 1, Quote) == ReadFrom(s, i + 2, Verbatim);
      } else {
        LastOnlyMattersToAQuote(s, i + 1, Quote);
      }
    }
  }

  lemma {:induction false} LiteralReads(s: string, i: nat)
    requires StartsString(s, i)
    ensures var end := LiteralEnd(s, i);
            if end > |s| then StuckFrom(s, i, Plain) else StuckFrom(s, i, Plain) == StuckFrom(s, end, Plain)
  {
    if s[i] == '@' {
      VerbatimReads(s, i + 2);
      assert ReadFrom(s, i, Plain) == ReadFrom(s, i + 1, AtSign) == ReadFrom(s, i + 2, Verbatim);
    } else {
      OrdinaryReads(s, '"', i + 1);
    }
  }

  lemma {:induction false} NoneFromExactlyWhenStuck(s: string, i: nat)
    requires i <= |s|
    ensures LiteralsFrom(s, i).None? <==> StuckFrom(s, i, Plain)
    decreases |s| - i
  {
    if i < |s| {
      if StartsString(s, i) {
        LiteralReads(s, i);
        if LiteralEnd(s, i) <= |s| {
          NoneFromExactlyWhenStuck(s, LiteralEnd(s, i));
        }
      } else if s[i] == '\'' {
        OrdinaryReads(s, '\'', i + 1);
        if LiteralEnd(s, i) <= |s| {
          NoneFromExactlyWhenStuck(s, LiteralEnd(s, i));
        }
      } else {
        NoneFromExactlyWhenStuck(s, i + 1);
        if s[i] == '@' {
          LastOnlyMattersToAQuote(s, i + 1, AtSign);
        }
      }
    }
  }

  /** Reading the literals of a text slices past its end if and only if the text ends
      inside an escape of a string it leaves open. */
  lemma {:induction false} NoAnswerExactlyInsideAnEscape(s: string)
    ensures LiteralsFrom(s, 0).None? <==> EndsInsideAnEscape(s)
  {
    NoneFromExactlyWhenStuck(s, 0);
  }
}
