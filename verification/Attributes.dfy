/** Which attribute groups belong to a class, and what is in a group: `only_modifiers`,
    `attributes_of`, `split_top_level`, `attribute_parts` and `attribute_word` of
    crates/cargo-pwrs/src/generate.rs. */
module Attributes {
  import opened Results
  import opened Text
  import opened CSharpLiterals
  import opened Scanner

  // ----- the groups before a declaration -----

  const MODIFIERS: seq<string> :=
    ["public", "internal", "private", "protected", "sealed", "static", "abstract", "partial", "unsafe", "new", "file"]

  /** The words of a text, split at white space, with `word` begun. */
  function WordsFrom(s: string, word: string): seq<string> {
    if s == [] then
      if word == [] then [] else [word]
    else if IsSpace(s[0]) then (if word == [] then [] else [word]) + WordsFrom(s[1..], [])
    else WordsFrom(s[1..], word + [s[0]])
  }

  predicate OnlyModifiers(gap: string) {
    forall w | w in WordsFrom(gap, []) :: w in MODIFIERS
  }

  predicate AllForward(groups: seq<Group>) {
    forall k | 0 <= k < |groups| :: groups[k].start < groups[k].end
  }

  /** The groups among the first `n` that run up to `next` with modifiers alone between. */
  function RunBefore(source: string, groups: seq<Group>, n: nat, next: nat): seq<Group>
    requires n <= |groups| && next <= |source| && AllForward(groups)
  {
    if n == 0 then []
    else
      var g := groups[n - 1];
      if g.end > next then RunBefore(source, groups, n - 1, next)
      else if !OnlyModifiers(source[g.end..next]) then []
      else RunBefore(source, groups, n - 1, g.start) + [g]
  }

  function AttributesOf(source: string, groups: seq<Group>, decl: nat): seq<Group>
    requires decl <= |source| && AllForward(groups)
  {
    RunBefore(source, groups, |groups|, decl)
  }

  method FindAttributes(source: string, groups: seq<Group>, decl: nat) returns (run: seq<Group>)
    requires decl <= |source| && AllForward(groups)
    ensures run == AttributesOf(source, groups, decl)
  {
    run := [];
    var next: nat, n: nat := decl, |groups|;
    assert AttributesOf(source, groups, decl) + [] == AttributesOf(source, groups, decl);
    while n > 0
      invariant n <= |groups| && next <= |source|
      invariant AttributesOf(source, groups, decl) == RunBefore(source, groups, n, next) + run
    {
      n := n - 1;
      var g := groups[n];
      if g.end > next {
        continue;
      }
      if !OnlyModifiers(source[g.end..next]) {
        assert [] + run == run;
        return;
      }
      assert RunBefore(source, groups, n, g.start) + [g] + run == RunBefore(source, groups, n, g.start) + ([g] + run);
      run := [g] + run;
      next := g.start;
    }
    assert [] + run == run;
  }

  lemma {:induction false} NewlineIsAGap()
    ensures OnlyModifiers("\n")
  {
    assert "\n"[1..] == [];
    assert WordsFrom("\n", []) == [];
  }

  predicate HasCl(s: string) {
    exists k :: 0 <= k < |s| - 1 && s[k] == 'c' && s[k + 1] == 'l'
  }

  lemma {:induction false} ModifiersHaveNoCl(w: string)
    requires w in MODIFIERS
    ensures !HasCl(w)
  {}

  lemma {:induction false} WordIsKept(s: string, word: string)
    requires HasCl(word)
    ensures exists w :: w in WordsFrom(s, word) && HasCl(w)
  {
    if s != [] && !IsSpace(s[0]) {
      var next := word + [s[0]];
      var k :| 0 <= k < |word| - 1 && word[k] == 'c' && word[k + 1] == 'l';
      assert next[k] == 'c' && next[k + 1] == 'l';
      WordIsKept(s[1..], next);
    }
  }

  lemma {:induction false} ClIsInAWord(s: string, word: string, k: nat)
    requires k + 1 < |word + s| && (word + s)[k] == 'c' && (word + s)[k + 1] == 'l'
    ensures exists w :: w in WordsFrom(s, word) && HasCl(w)
    decreases |s|
  {
    if k + 1 < |word| {
      assert word[k] == 'c' && word[k + 1] == 'l';
      WordIsKept(s, word);
    } else if IsSpace(s[0]) {
      assert ([] + s[1..])[k - |word| - 1] == 'c';
      ClIsInAWord(s[1..], [], k - |word| - 1);
    } else {
      assert word + s == word + [s[0]] + s[1..];
      ClIsInAWord(s[1..], word + [s[0]], k);
    }
  }

  /** A gap with the keyword in it is no run of modifiers. */
  lemma {:induction false} KeywordBreaksTheGap(source: string, from: nat, c: nat, next: nat)
    requires from <= c && c + 5 <= next <= |source| && IsWordAt(source, c, CLASS)
    ensures !OnlyModifiers(source[from..next])
  {
    var gap := source[from..next];
    KeywordIsAt(source, c);
    assert gap[c - from] == 'c' && gap[c - from + 1] == 'l';
    assert [] + gap == gap;
    ClIsInAWord(gap, [], c - from);
    var w :| w in WordsFrom(gap, []) && HasCl(w);
    if w in MODIFIERS {
      ModifiersHaveNoCl(w);
    }
  }

  /** The groups of a run are among the groups, before the declaration. */
  lemma {:induction false} RunIsBefore(source: string, groups: seq<Group>, n: nat, next: nat)
    requires n <= |groups| && next <= |source|
    requires AllForward(groups)
    ensures forall g | g in RunBefore(source, groups, n, next) :: g in groups && g.end <= next
  {
    if n > 0 {
      var g := groups[n - 1];
      if g.end > next {
        RunIsBefore(source, groups, n - 1, next);
      } else if OnlyModifiers(source[g.end..next]) {
        RunIsBefore(source, groups, n - 1, g.start);
      }
    }
  }

  /** No run reaches back past another class. */
  lemma {:induction false} RunStopsAtTheClassBefore(source: string, groups: seq<Group>, n: nat, next: nat, c: nat)
    requires n <= |groups| && c + 5 <= next <= |source| && IsWordAt(source, c, CLASS)
    requires AllForward(groups) && forall k | 0 <= k < |groups| :: Outside(c, groups[k])
    ensures forall g | g in RunBefore(source, groups, n, next) :: c + 5 <= g.start
  {
    if n > 0 {
      var g := groups[n - 1];
      if g.end > next {
        RunStopsAtTheClassBefore(source, groups, n - 1, next, c);
      } else if g.end <= c {
        KeywordBreaksTheGap(source, g.end, c, next);
      } else if OnlyModifiers(source[g.end..next]) {
        RunStopsAtTheClassBefore(source, groups, n - 1, g.start, c);
      }
    }
  }

  /** The attributes of two classes of one source are apart. */
  lemma {:induction false} RunsAreDisjoint(source: string, j: nat, k: nat)
    requires NeverOverCloses(Events(source, 0), 0)
    requires j < k < |FoundIn(source).classes|
    ensures var f := FoundIn(source);
            AllForward(f.groups) && f.classes[j] <= |source| && f.classes[k] <= |source|
            && forall a, b | a in AttributesOf(source, f.groups, f.classes[j]) &&
               b in AttributesOf(source, f.groups, f.classes[k]) ::
                 a.end + 5 <= b.start
  {
    var f := FoundIn(source);
    WellPlacedExactlyWhenNeverOverClosed(source);
    ClassesAreKeywords(source, j);
    ClassesAreKeywords(source, k);
    assert forall i | 0 <= i < |f.groups| :: Spans(f.groups[i], Events(source, 0));
    RunIsBefore(source, f.groups, |f.groups|, f.classes[j]);
    RunStopsAtTheClassBefore(source, f.groups, |f.groups|, f.classes[k], f.classes[j]);
  }

  // ----- what is in a group -----

  /** The parts from `start` on, read up to `i` inside `depth` brackets. */
  function PartsFrom(s: string, i: nat, depth: nat, start: nat): seq<string>
    requires start <= |s|
    decreases |s| + 1 - i
  {
    if i >= |s| then [s[start..]]
    else if StartsString(s, i) || s[i] == '\'' then PartsFrom(s, LiteralEnd(s, i), depth, start)
    else if s[i] in "([{" then PartsFrom(s, i + 1, depth + 1, start)
    else if s[i] in ")]}" then PartsFrom(s, i + 1, Less(depth), start)
    else if s[i] == ',' && depth == 0 && start <= i then [s[start..i]] + PartsFrom(s, i + 1, depth, i + 1)
    else PartsFrom(s, i + 1, depth, start)
  }

  function PartsOf(s: string): seq<string> {
    PartsFrom(s, 0, 0, 0)
  }

  method SplitTopLevel(s: string) returns (parts: seq<string>)
    ensures parts == PartsOf(s)
  {
    parts := [];
    var depth: nat, start, i := 0, 0, 0;
    assert [] + PartsOf(s) == PartsOf(s);
    while i < |s|
      invariant start <= i <= |s| + 1 && start <= |s|
      invariant PartsOf(s) == parts + PartsFrom(s, i, depth, start)
      decreases |s| + 1 - i
    {
      if StartsString(s, i) || s[i] == '\'' {
        i := SkipLiteral(s, i);
      } else if s[i] in "([{" {
        depth, i := depth + 1, i + 1;
      } else if s[i] in ")]}" {
        depth, i := if depth == 0 then 0 else depth - 1, i + 1;
      } else if s[i] == ',' && depth == 0 {
        assert parts + ([s[start..i]] + PartsFrom(s, i + 1, depth, i + 1)) ==
            parts + [s[start..i]] + PartsFrom(s, i + 1, depth, i + 1);
        parts := parts + [s[start..i]];
        i := i + 1;
        start := i;
      } else {
        i := i + 1;
      }
    }
    parts := parts + [s[start..]];
  }

  function JoinedWithCommas(parts: seq<string>): string {
    if parts == [] then []
    else if |parts| == 1 then parts[0]
    else parts[0] + "," + JoinedWithCommas(parts[1..])
  }

  /** The parts with their commas are the text. */
  lemma {:induction false} PartsJoin(s: string, i: nat, depth: nat, start: nat)
    requires start <= |s|
    ensures PartsFrom(s, i, depth, start) != []
    ensures JoinedWithCommas(PartsFrom(s, i, depth, start)) == s[start..]
    decreases |s| + 1 - i
  {
    if i >= |s| {
    } else if StartsString(s, i) || s[i] == '\'' {
      PartsJoin(s, LiteralEnd(s, i), depth, start);
    } else if s[i] in "([{" {
      PartsJoin(s, i + 1, depth + 1, start);
    } else if s[i] in ")]}" {
      PartsJoin(s, i + 1, Less(depth), start);
    } else if s[i] == ',' && depth == 0 && start <= i {
      PartsJoin(s, i + 1, depth, i + 1);
      var rest := PartsFrom(s, i + 1, depth, i + 1);
      assert ([s[start..i]] + rest)[1..] == rest;
      assert s[start..] == s[start..i] + "," + s[i + 1..];
    } else {
      PartsJoin(s, i + 1, depth, start);
    }
  }

  /** The literals of a list as they stand between its commas. */
  function Between(lead: string, list: seq<string>): seq<string>
    decreases |list|
  {
    if list == [] then [] else [lead + CsStr(list[0])] + Between(" ", list[1..])
  }

  /** `s` is in `b` at `i`. */
  predicate Stands(b: string, i: nat, s: string) {
    i + |s| <= |b| && forall k | 0 <= k < |s| :: b[i + k] == s[k]
  }

  lemma {:induction false} LiteralEndsThere(b: string, i: nat, s: string)
    requires Stands(b, i, CsStr(s))
    requires var end := i + |CsStr(s)|; end < |b| ==> b[end] != '"'
    ensures LiteralEnd(b, i) == i + |CsStr(s)|
  {
    var end := i + |CsStr(s)|;
    assert b == b[..i] + CsStr(s) + b[end..];
    SkipStopsAtTheEnd(b[..i], s, b[end..]);
  }

  lemma {:induction false} LiteralIsPassed(b: string, i: nat, s: string, depth: nat, start: nat)
    requires Stands(b, i, CsStr(s)) && start <= |b|
    requires var end := i + |CsStr(s)|; end < |b| ==> b[end] != '"'
    ensures PartsFrom(b, i, depth, start) == PartsFrom(b, i + |CsStr(s)|, depth, start)
  {
    LiteralEndsThere(b, i, s);
    assert CsStr(s)[0] == '@' && CsStr(s)[1] == '"';
    assert b[i + 0] == '@' && b[i + 1] == '"';
  }

  lemma {:induction false} CommaSplits(b: string, i: nat, start: nat)
    requires start <= i && i + 1 < |b| && b[i] == ',' && b[i + 1] == ' '
    ensures PartsFrom(b, i, 0, start) == [b[start..i]] + PartsFrom(b, i + 2, 0, i + 1)
  {
    assert PartsFrom(b, i + 1, 0, i + 1) == PartsFrom(b, i + 2, 0, i + 1);
  }

  lemma {:induction false} CommaIsPassed(b: string, i: nat, depth: nat, start: nat)
    requires start <= |b| && i + 1 < |b| && b[i] == ',' && b[i + 1] == ' ' && depth > 0
    ensures PartsFrom(b, i, depth, start) == PartsFrom(b, i + 2, depth, start)
  {
    assert PartsFrom(b, i, depth, start) == PartsFrom(b, i + 1, depth, start);
  }

  lemma {:induction false} StandsInThree(b: string, i: nat, x: string, y: string, z: string)
    requires Stands(b, i, x + y + z)
    ensures |x + y + z| == |x| + |y| + |z|
    ensures Stands(b, i, x) && Stands(b, i + |x|, y) && Stands(b, i + |x| + |y|, z)
  {
    var all := x + y + z;
    forall k | 0 <= k < |x| ensures b[i + k] == x[k] {
      assert all[k] == x[k];
    }
    forall k | 0 <= k < |y| ensures b[i + |x| + k] == y[k] {
      assert b[i + (|x| + k)] == all[|x| + k];
    }
    forall k | 0 <= k < |z| ensures b[i + |x| + |y| + k] == z[k] {
      assert b[i + (|x| + |y| + k)] == all[|x| + |y| + k];
    }
  }

  lemma {:induction false} ListedStands(b: string, i: nat, list: seq<string>)
    requires |list| > 1 && Stands(b, i, Listed(list))
    ensures var end := i + |CsStr(list[0])|;
            && Stands(b, i, CsStr(list[0])) && end + 1 < |b| && b[end] == ',' && b[end + 1] == ' '
            && Stands(b, end + 2, Listed(list[1..])) && i + |Listed(list)| == end + 2 + |Listed(list[1..])|
  {
    StandsInThree(b, i, CsStr(list[0]), COMMA, Listed(list[1..]));
    var end := i + |CsStr(list[0])|;
    assert COMMA[0] == ',' && COMMA[1] == ' ';
    assert b[end + 0] == COMMA[0] && b[end + 1] == COMMA[1];
  }

  lemma {:induction false} FirstSplits(b: string, i: nat, start: nat, s: string)
    requires start <= i && Stands(b, i, CsStr(s))
    requires var end := i + |CsStr(s)|; end + 1 < |b| && b[end] == ',' && b[end + 1] == ' '
    ensures var end := i + |CsStr(s)|;
            PartsFrom(b, i, 0, start) == [b[start..i] + CsStr(s)] + PartsFrom(b, end + 2, 0, end + 1) &&
              b[end + 1..end + 2] == " "
  {
    LiteralIsPassed(b, i, s, 0, start);
    CommaSplits(b, i + |CsStr(s)|, start);
    assert b[start..i + |CsStr(s)|] == b[start..i] + CsStr(s);
  }

  lemma {:induction false} LastSplits(b: string, i: nat, start: nat, s: string)
    requires start <= i && Stands(b, i, CsStr(s)) && i + |CsStr(s)| == |b|
    ensures PartsFrom(b, i, 0, start) == [b[start..i] + CsStr(s)]
  {
    LiteralIsPassed(b, i, s, 0, start);
    assert b[start..] == b[start..i] + CsStr(s);
  }

  lemma {:induction false} ListedSplits(b: string, i: nat, start: nat, list: seq<string>)
    requires list != [] && start <= i && Stands(b, i, Listed(list)) && i + |Listed(list)| == |b|
    ensures PartsFrom(b, i, 0, start) == Between(b[start..i], list)
    decreases |list|
  {
    if |list| == 1 {
      LastSplits(b, i, start, list[0]);
    } else {
      var end := i + |CsStr(list[0])|;
      ListedStands(b, i, list);
      FirstSplits(b, i, start, list[0]);
      ListedSplits(b, end + 2, end + 1, list[1..]);
    }
  }

  /** A list of literals splits at its own commas and no other, whatever commas,
      brackets and quotes the literals hold. */
  lemma {:induction false} LiteralsSplitApart(list: seq<string>)
    requires list != []
    ensures PartsOf(Listed(list)) == Between("", list)
  {
    ListedSplits(Listed(list), 0, 0, list);
  }

  lemma {:induction false} ListedIsPassed(b: string, i: nat, list: seq<string>, depth: nat, start: nat)
    requires Stands(b, i, Listed(list)) && depth > 0 && start <= |b|
    requires var end := i + |Listed(list)|; end < |b| ==> b[end] != '"'
    ensures PartsFrom(b, i, depth, start) == PartsFrom(b, i + |Listed(list)|, depth, start)
    decreases |list|
  {
    if |list| == 1 {
      LiteralIsPassed(b, i, list[0], depth, start);
    } else if |list| > 1 {
      var n := |CsStr(list[0])|;
      ListedStands(b, i, list);
      LiteralIsPassed(b, i, list[0], depth, start);
      CommaIsPassed(b, i + n, depth, start);
      ListedIsPassed(b, i + n + 2, list[1..], depth, start);
    }
  }

  /** The same list in brackets, as an attribute's arguments are, does not split. */
  lemma {:induction false} ArgumentsStayTogether(list: seq<string>)
    ensures PartsOf("(" + Listed(list) + ")") == ["(" + Listed(list) + ")"]
  {
    var b, n := "(" + Listed(list) + ")", |Listed(list)|;
    StandsInThree(b, 0, "(", Listed(list), ")");
    assert b[n + 1] == ')';
    ListedIsPassed(b, 1, list, 1, 0);
    OpensAndCloses(b);
  }

  lemma {:induction false} OpensAndCloses(b: string)
    requires |b| > 1 && b[0] == '(' && b[|b| - 1] == ')'
    ensures PartsFrom(b, 0, 0, 0) == PartsFrom(b, 1, 1, 0) && PartsFrom(b, |b| - 1, 1, 0) == [b]
  {
    assert PartsFrom(b, |b| - 1, 1, 0) == PartsFrom(b, |b|, 0, 0);
    assert b[0..] == b;
  }

  function IndexOf(s: string, c: char): (r: nat)
    ensures r <= |s|
    ensures r < |s| ==> s[r] == c
  {
    if s == [] || s[0] == c then 0 else 1 + IndexOf(s[1..], c)
  }

  function LastIndexOf(s: string, c: char): (r: Option<nat>)
    ensures r.Some? ==> r.value < |s| && s[r.value] == c
  {
    if s == [] then None
    else if s[|s| - 1] == c then Some(|s| - 1)
    else LastIndexOf(s[..|s| - 1], c)
  }

  /** What of a text comes after the last `c`: all of it when there is none. */
  function AfterLast(s: string, c: char): string {
    var at := LastIndexOf(s, c);
    if at.Some? then s[at.value + 1..] else s
  }

  lemma {:induction false} IndexIs(s: string, c: char, n: nat)
    requires n < |s| && s[n] == c && forall k | 0 <= k < n :: s[k] != c
    ensures IndexOf(s, c) == n
  {
    if n > 0 {
      IndexIs(s[1..], c, n - 1);
    }
  }

  lemma {:induction false} NoLastIndex(s: string, c: char)
    requires forall k | 0 <= k < |s| :: s[k] != c
    ensures LastIndexOf(s, c).None?
  {
    if s != [] {
      NoLastIndex(s[..|s| - 1], c);
    }
  }

  const ATTRIBUTE: string := "Attribute"

  function WithoutSuffix(s: string, suffix: string): string {
    if |s| >= |suffix| && s[|s| - |suffix|..] == suffix then s[..|s| - |suffix|] else s
  }

  datatype Parts = Parts(name: string, args: string)

  function Bare(name: string): string {
    WithoutSuffix(Trim(AfterLast(Trim(name, IsSpace), '.'), IsSpace), ATTRIBUTE)
  }

  function Named(name: string, args: string): Option<Parts> {
    if Bare(name) == [] then None else Some(Parts(Bare(name), args))
  }

  /** An attribute's bare name and its argument text. */
  function AttributeParts(attribute: string): Option<Parts> {
    var a := Trim(attribute, IsSpace);
    var p := IndexOf(a, '(');
    if p == |a| then Named(a, [])
    else
      var rest := TrimEnd(a[p + 1..], IsSpace);
      if rest != [] && rest[|rest| - 1] == ')' then Named(a[..p], rest[..|rest| - 1]) else None
  }

  const VERB_CLASSES: seq<string> :=
    ["VerbsCommon", "VerbsCommunications", "VerbsData", "VerbsDiagnostic", "VerbsLifecycle", "VerbsOther",
      "VerbsSecurity"]

  /** A literal's text, or the name of one of PowerShell's verb constants. */
  function AttributeWord(argument: string): Option<string> {
    var arg := Trim(argument, IsSpace);
    if |arg| >= 2 && arg[0] == '"' && arg[|arg| - 1] == '"' then Some(arg[1..|arg| - 1])
    else
      var at := LastIndexOf(arg, '.');
      if at.None? then None
      else
        var name, class_ := arg[at.value + 1..], AfterLast(arg[..at.value], '.');
        if class_ in VERB_CLASSES && name != [] && (forall k | 0 <= k < |name| :: IsIdentByte(name[k]))
          then Some(name) else None
  }
}
