/** `cfg_predicate` of tools/wire_audit.py, which finds where a `#[cfg(...)]` ends:
    around any text `cfg::parse` accepts it finds exactly that text. */
module CfgPredicate {
  import opened Results
  import opened CfgSyntax
  import opened CfgGrammar
  import opened CfgRoundTrip
  import opened WireAudit

  /** The offset of the first `"` at or after `j`, or the end of `text`. */
  function QuoteAt(text: string, j: nat): (n: nat)
    requires j <= |text|
    ensures j <= n <= |text| && (n < |text| ==> text[n] == '"')
    ensures forall i | j <= i < n :: text[i] != '"'
    decreases |text| - j
  {
    if j == |text| || text[j] == '"' then j else QuoteAt(text, j + 1)
  }

  /** The offset just past the `)` that closes the `depth` parentheses open before
      `j`; `None` when `text` ends first. */
  function ClosingAt(text: string, j: nat, depth: int): Option<nat>
    requires j <= |text|
    decreases |text| - j
  {
    if j == |text| then None
    else if text[j] == '"' then
      var n := QuoteAt(text, j + 1);
      if n == |text| then None else ClosingAt(text, n + 1, depth)
    else if text[j] == '(' then ClosingAt(text, j + 1, depth + 1)
    else if text[j] == ')' then
      if depth == 1 then Some(j + 1) else ClosingAt(text, j + 1, depth - 1)
    else ClosingAt(text, j + 1, depth)
  }

  method FindPredicate(text: string, open: nat) returns (r: Option<(string, nat)>)
    requires open < |text| && text[open] == '('
    ensures match ClosingAt(text, open, 0)
            case None => r == None
            case Some(end) => open + 2 <= end <= |text| && r == Some((text[open + 1..end - 1], end))
  {
    var depth, j := 0, open;
    while j < |text|
      invariant open <= j <= |text|
      invariant j == open ==> depth == 0
      invariant ClosingAt(text, open, 0) == ClosingAt(text, j, depth)
    {
      var c := text[j];
      if c == '"' {
        var n := j + 1;
        while n < |text| && text[n] != '"'
          invariant j + 1 <= n <= |text|
          invariant QuoteAt(text, j + 1) == QuoteAt(text, n)
        {
          n := n + 1;
        }
        if n == |text| {
          return None;
        }
        j := n;
      } else if c == '(' {
        depth := depth + 1;
      } else if c == ')' {
        depth := depth - 1;
        if depth == 0 {
          return Some((text[open + 1..j], j + 1));
        }
      }
      j := j + 1;
    }
    return None;
  }

  // ----- depth over tokens -----

  function DepthOver(ts: seq<Token>, depth: int): int {
    if ts == [] then depth else DepthOver(ts[1..], DepthAfter(ts[0], depth))
  }

  /** No `)` among `ts` closes the first of the `depth` open parentheses. */
  predicate StaysOpen(ts: seq<Token>, depth: int) {
    ts == [] || (!(ts[0] == RightParen && depth == 1) && StaysOpen(ts[1..], DepthAfter(ts[0], depth)))
  }

  lemma {:induction false} StaysOpenOver(a: seq<Token>, b: seq<Token>, depth: int)
    ensures StaysOpen(a + b, depth) <==> StaysOpen(a, depth) && StaysOpen(b, DepthOver(a, depth))
    ensures DepthOver(a + b, depth) == DepthOver(b, DepthOver(a, depth))
    decreases |a|
  {
    if a == [] {
      assert a + b == b;
    } else {
      assert (a + b)[1..] == a[1..] + b;
      StaysOpenOver(a[1..], b, DepthAfter(a[0], depth));
    }
  }

  /** `s` stands at `j` in `text`. */
  predicate StandsAt(text: string, j: nat, s: string) {
    j + |s| <= |text| && text[j..j + |s|] == s
  }

  lemma {:induction false} StandsInParts(text: string, j: nat, a: string, b: string)
    requires StandsAt(text, j, a + b)
    ensures StandsAt(text, j, a) && StandsAt(text, j + |a|, b)
  {
    var s := a + b;
    assert text[j..j + |a|] == s[..|a|] == a;
    assert text[j + |a|..j + |s|] == s[|a|..] == b;
  }

  lemma {:induction false} ClosingOverPlain(text: string, j: nat, n: nat, depth: int)
    requires j + n <= |text|
    requires forall i | j <= i < j + n :: text[i] != '"' && text[i] != '(' && text[i] != ')'
    ensures ClosingAt(text, j, depth) == ClosingAt(text, j + n, depth)
    decreases n
  {
    if n > 0 {
      ClosingOverPlain(text, j + 1, n - 1, depth);
    }
  }

  lemma {:induction false} QuoteIsAt(text: string, j: nat, n: nat)
    requires j <= n < |text| && text[n] == '"' && forall i | j <= i < n :: text[i] != '"'
    ensures QuoteAt(text, j) == n
  {}

  lemma {:induction false} ClosingOverToken(text: string, j: nat, t: Token, depth: int)
    requires Spellable(t) && !(t == RightParen && depth == 1)
    requires StandsAt(text, j, Lexeme(t))
    ensures ClosingAt(text, j, depth) == ClosingAt(text, j + |Lexeme(t)|, DepthAfter(t, depth))
  {
    var w := Lexeme(t);
    assert forall i | j <= i < j + |w| :: text[i] == w[i - j];
    match t
    case Ident(name, raw) =>
      assert raw ==> forall i | 2 <= i < |w| :: w[i] == name[i - 2];
      ClosingOverPlain(text, j, |w|, depth);
    case Str(content) =>
      assert forall i | 0 <= i < |content| :: w[i + 1] == content[i];
      QuoteIsAt(text, j + 1, j + 1 + |content|);
    case _ =>
  }

  lemma {:induction false} ClosingOverText(text: string, j: nat, s: string, depth: int)
    requires Lex(s).Ok? && StaysOpen(Lex(s).value, depth) && StandsAt(text, j, s)
    ensures ClosingAt(text, j, depth) == ClosingAt(text, j + |s|, DepthOver(Lex(s).value, depth))
    decreases |s|, 2
  {
    if s == [] {
      assert Lex(s).value == [];
    } else if Next(s).Blank? {
      ClosingOverBlankFirst(text, j, s, depth);
    } else {
      ClosingOverTokenFirst(text, j, s, depth);
    }
  }

  lemma {:induction false} ClosingOverBlankFirst(text: string, j: nat, s: string, depth: int)
    requires s != [] && Next(s).Blank?
    requires Lex(s).Ok? && StaysOpen(Lex(s).value, depth) && StandsAt(text, j, s)
    ensures ClosingAt(text, j, depth) == ClosingAt(text, j + |s|, DepthOver(Lex(s).value, depth))
    decreases |s|, 1
  {
    var more := s[1..];
    BlankThenText(s);
    ClosingOverBlankAndText(text, j, more, depth);
  }

  lemma {:induction false} ClosingOverTokenFirst(text: string, j: nat, s: string, depth: int)
    requires s != [] && Next(s).Emit?
    requires Lex(s).Ok? && StaysOpen(Lex(s).value, depth) && StandsAt(text, j, s)
    ensures ClosingAt(text, j, depth) == ClosingAt(text, j + |s|, DepthOver(Lex(s).value, depth))
    decreases |s|, 1
  {
    var t, n, rest := TokenStands(text, j, s, depth);
    ClosingOverText(text, j + n, rest, DepthAfter(t, depth));
  }

  /** The first token of `s` in the text, and what is behind it. */
  lemma {:induction false} TokenStands(
      text: string, j: nat, s: string, depth: int) returns (t: Token, n: nat, rest: string)
    requires s != [] && Next(s).Emit?
    requires Lex(s).Ok? && StaysOpen(Lex(s).value, depth) && StandsAt(text, j, s)
    ensures n > 0 && |s| == n + |rest|
    ensures ClosingAt(text, j, depth) == ClosingAt(text, j + n, DepthAfter(t, depth))
    ensures StandsAt(text, j + n, rest) && Lex(rest).Ok? && StaysOpen(Lex(rest).value, DepthAfter(t, depth))
    ensures DepthOver(Lex(s).value, depth) == DepthOver(Lex(rest).value, DepthAfter(t, depth))
  {
    t, rest := TokenThenText(s);
    var w := Lexeme(t);
    n := |w|;
    OpenOverFirst(Lex(s).value, t, Lex(rest).value, depth);
    StandsApart(text, j, s, w, rest);
    LexemeIsSome(t);
    ClosingOverToken(text, j, t, depth);
  }

  lemma {:induction false} StandsApart(text: string, j: nat, s: string, a: string, b: string)
    requires s == a + b && StandsAt(text, j, s)
    ensures |s| == |a| + |b| && StandsAt(text, j, a) && StandsAt(text, j + |a|, b)
  {
    StandsInParts(text, j, a, b);
  }

  lemma {:induction false} BlankThenText(s: string)
    requires s != [] && Next(s).Blank? && Lex(s).Ok?
    ensures s == " " + s[1..] && Lex(s[1..]) == Lex(s)
  {}

  lemma {:induction false} ClosingOverBlankAndText(text: string, j: nat, more: string, depth: int)
    requires Lex(more).Ok? && StaysOpen(Lex(more).value, depth) && StandsAt(text, j, " " + more)
    ensures ClosingAt(text, j, depth) == ClosingAt(text, j + |" " + more|, DepthOver(Lex(more).value, depth))
    decreases |" " + more|, 0
  {
    StandsInParts(text, j, " ", more);
    ClosingOverPlain(text, j, 1, depth);
    ClosingOverText(text, j + 1, more, depth);
  }

  lemma {:induction false} LexemeIsSome(t: Token)
    requires Spellable(t)
    ensures Lexeme(t) != []
  {}

  lemma {:induction false} OpenOverFirst(all: seq<Token>, t: Token, ts: seq<Token>, depth: int)
    requires all == [t] + ts && StaysOpen(all, depth)
    ensures !(t == RightParen && depth == 1) && StaysOpen(ts, DepthAfter(t, depth))
    ensures DepthOver(all, depth) == DepthOver(ts, DepthAfter(t, depth))
  {
    assert all[1..] == ts;
  }

  lemma {:induction false} DerivationStaysOpen(d: Derivation, depth: int)
    requires depth > 0
    ensures StaysOpen(Yield(d), depth) && DepthOver(Yield(d), depth) == depth
    decreases d, 1
  {
    match d
    case DName(_, _) =>
    case DPair(_, _, _) => PlainStaysOpen(Yield(d), depth);
    case DNot(inner) =>
      DerivationStaysOpen(inner, depth + 1);
      FrameStaysOpen(NOT, Yield(inner), depth);
    case DList(all, items, trailing) =>
      ItemsStayOpen(items, trailing, depth + 1);
      FrameStaysOpen(if all then ALL else ANY, YieldItems(items, trailing), depth);
  }

  lemma {:induction false} PlainStaysOpen(ts: seq<Token>, depth: int)
    requires forall i | 0 <= i < |ts| :: !ts[i].LeftParen? && !ts[i].RightParen?
    ensures StaysOpen(ts, depth) && DepthOver(ts, depth) == depth
  {
    if ts != [] {
      PlainStaysOpen(ts[1..], depth);
    }
  }

  lemma {:induction false} FrameStaysOpen(op: Token, body: seq<Token>, depth: int)
    requires depth > 0 && op.Ident?
    requires StaysOpen(body, depth + 1) && DepthOver(body, depth + 1) == depth + 1
    ensures StaysOpen([op, LeftParen] + body + [RightParen], depth)
    ensures DepthOver([op, LeftParen] + body + [RightParen], depth) == depth
  {
    var head, close := [op, LeftParen], [RightParen];
    assert head[1..] == [LeftParen];
    assert DepthOver([LeftParen], depth) == DepthOver([], depth + 1) && StaysOpen([LeftParen], depth);
    assert DepthOver(close, depth + 1) == DepthOver([], depth) && StaysOpen(close, depth + 1);
    StaysOpenOver(head, body, depth);
    StaysOpenOver(head + body, close, depth);
  }

  lemma {:induction false} ItemsStayOpen(ds: seq<Derivation>, trailing: bool, depth: int)
    requires depth > 0
    ensures StaysOpen(YieldItems(ds, trailing), depth) && DepthOver(YieldItems(ds, trailing), depth) == depth
    decreases ds, 0
  {
    if ds != [] {
      var more := YieldMore(ds[1..], trailing);
      DerivationStaysOpen(ds[0], depth);
      StaysOpenOver(Yield(ds[0]), more, depth);
      if |ds| > 1 {
        assert more[1..] == YieldItems(ds[1..], trailing);
        ItemsStayOpen(ds[1..], trailing, depth);
      } else {
        PlainStaysOpen(more, depth);
      }
    }
  }

  /** Wherever it stands, the predicate of `#[cfg(predicate)]` is found whole when
      it is a cfg expression, its strings holding parentheses or not. */
  lemma {:induction false} PredicateIsFound(before: string, predicate_: string, after: string)
    requires Parse(predicate_).Ok?
    ensures ClosingAt(before + ("(" + predicate_ + ")" + after), |before|, 0) == Some(|before| + |predicate_| + 2)
  {
    var ts := Lex(predicate_).value;
    ParserAcceptsTheGrammar(ts, Parse(predicate_).value);
    var d :| Derives(d) && Yield(d) == ts && Tree(d) == Parse(predicate_).value;
    DerivationStaysOpen(d, 1);
    FoundAround(before, predicate_, after);
  }

  lemma {:induction false} FoundAround(before: string, middle: string, after: string)
    requires Lex(middle).Ok? && StaysOpen(Lex(middle).value, 1) && DepthOver(Lex(middle).value, 1) == 1
    ensures ClosingAt(before + ("(" + middle + ")" + after), |before|, 0) == Some(|before| + |middle| + 2)
  {
    var text := before + ("(" + middle + ")" + after);
    assert text[|before|] == '(' && text[|before| + 1 + |middle|] == ')';
    assert StandsAt(text, |before| + 1, middle);
    ClosingOverText(text, |before| + 1, middle, 1);
  }
}
