/** A hand-written cmdlet as C# spells it, and that the scan of crates/cargo-pwrs/src/generate.rs
    reads back its name and its aliases, whatever they are. */
module WrittenCmdlets {
  import opened Results
  import opened Text
  import opened CSharpLiterals
  import opened Scanner
  import opened Attributes
  import opened HybridCmdlets
  import opened WrittenAttributes

  // ----- the text of a class -----

  /** The modifiers, each with a space after it. */
  function ModifiersText(modifiers: seq<string>): string {
    if modifiers == [] then [] else modifiers[0] + " " + ModifiersText(modifiers[1..])
  }

  /** Both attributes, each on a line, then the modifiers and the keyword. */
  function Declared(cmdlet: string, alias: string, modifiers: string): string {
    "[" + cmdlet + "]\n[" + alias + "]\n" + modifiers + CLASS
  }

  // ----- what the scan sees inside brackets -----

  /** Nothing that is a literal, a comment or a bracket starts there. */
  predicate Ordinary(b: string, k: nat)
    requires k < |b|
  {
    && b[k] != '/' && b[k] != '"' && b[k] != '\'' && b[k] != '[' && b[k] != ']'
    && (b[k] == '@' && k + 1 < |b| ==> b[k + 1] != '"')
  }

  datatype Seen = Seen(found: Found, balanced: bool)

  /** What is found from `i` on, for each number of brackets it may be inside of and
      each place the first of them may be at. */
  ghost function Inside(b: string, i: nat): imap<(nat, nat), Seen> {
    imap p: (nat, nat) | p.0 > 0 :: Seen(Fold(Events(b, i), p.0, p.1), NeverOverCloses(Events(b, i), p.0))
  }

  /** Both places have one `f`. */
  ghost predicate SameAt<T>(f: (string, nat) -> T, b: string, i: nat, n: nat) {
    f(b, i) == f(b, n)
  }

  /** What is found from `i` on, inside brackets, is what is found from `n` on. */
  ghost predicate SameInside(b: string, i: nat, n: nat) {
    SameAt(Inside, b, i, n)
  }

  lemma {:induction false} SameEvents(b: string, i: nat, n: nat)
    requires Events(b, i) == Events(b, n)
    ensures SameInside(b, i, n)
  {}

  lemma {:induction false} AlikeInside(b: string, i: nat, n: nat)
    requires forall p: (nat, nat) | p.0 > 0 :: Inside(b, i)[p] == Inside(b, n)[p]
    ensures SameInside(b, i, n)
  {
    assert Inside(b, i) == Inside(b, n);
  }

  lemma {:induction false} ClassIsPassed(at: nat, es: seq<Event>, depth: nat, start: nat)
    requires depth > 0
    ensures Fold([Class(at)] + es, depth, start) == Fold(es, depth, start)
    ensures NeverOverCloses([Class(at)] + es, depth) <==> NeverOverCloses(es, depth)
  {
    FoldsOne(Class(at), es, depth, start);
    assert ([Class(at)] + es)[1..] == es;
  }

  lemma {:induction false} OrdinaryIsPassed(b: string, i: nat)
    requires i < |b| && Ordinary(b, i)
    ensures SameInside(b, i, i + 1)
  {
    if StepAt(b, i) == Keyword {
      KeywordHoldsNothing(b, i);
      forall p: (nat, nat) | p.0 > 0 ensures Inside(b, i)[p] == Inside(b, i + 1)[p] {
        ClassIsPassed(i, Events(b, i + 5), p.0, p.1);
      }
      AlikeInside(b, i, i + 1);
    } else {
      assert StepAt(b, i) == Passes(i + 1);
      SameEvents(b, i, i + 1);
    }
  }

  lemma {:induction false} OrdinaryArePassed(b: string, i: nat, n: nat)
    requires i <= n <= |b| && forall k | i <= k < n :: Ordinary(b, k)
    ensures SameInside(b, i, n)
    decreases n - i
  {
    if i < n {
      OrdinaryIsPassed(b, i);
      OrdinaryArePassed(b, i + 1, n);
    }
  }

  lemma {:induction false} ConstantIsOrdinary(b: string, i: nat, class_: string, word: string)
    requires CanSpell(Constant(class_), word) && Stands(b, i, Spelled(Constant(class_), word))
    requires var n := i + |Spelled(Constant(class_), word)|; n < |b| && b[n] != '"'
    ensures forall k | i <= k < i + |Spelled(Constant(class_), word)| :: Ordinary(b, k)
  {
    var text := Spelled(Constant(class_), word);
    VerbClassIs(class_);
    StandsInThree(b, i, class_, ".", word);
    forall k | i <= k < i + |text| ensures Ordinary(b, k) {
      assert b[i + (k - i)] == text[k - i];
      assert k + 1 < i + |text| ==> b[i + (k + 1 - i)] == text[k + 1 - i];
    }
  }

  lemma {:induction false} QuotedIsPassed(b: string, i: nat, word: string)
    requires CanSpell(Quoted, word) && Stands(b, i, Spelled(Quoted, word))
    ensures SameInside(b, i, i + 2 + |word|) && |Spelled(Quoted, word)| == 2 + |word|
  {
    QuotedStands(b, i, word);
    EventsOverString(b, i, i + 1 + |word|);
    SameEvents(b, i, i + 2 + |word|);
  }

  lemma {:induction false} SpellingIsPassed(b: string, i: nat, how: Spelling, word: string)
    requires CanSpell(how, word) && Stands(b, i, Spelled(how, word))
    requires var n := i + |Spelled(how, word)|; n < |b| && b[n] != '"'
    ensures SameInside(b, i, i + |Spelled(how, word)|)
  {
    match how
    case Quoted => QuotedIsPassed(b, i, word);
    case Constant(class_) =>
      ConstantIsOrdinary(b, i, class_, word);
      OrdinaryArePassed(b, i, i + |Spelled(how, word)|);
  }

  lemma {:induction false} ListedIsSeen(b: string, i: nat, list: seq<string>)
    requires Stands(b, i, Listed(list))
    requires var n := i + |Listed(list)|; n < |b| ==> b[n] != '"'
    ensures Events(b, i) == Events(b, i + |Listed(list)|)
    decreases |list|
  {
    if |list| == 1 {
      LiteralIsSeen(b, i, list[0]);
    } else if |list| > 1 {
      var next := FirstOfMoreIsSeen(b, i, list);
      ListedIsSeen(b, next, list[1..]);
    }
  }

  lemma {:induction false} FirstOfMoreIsSeen(b: string, i: nat, list: seq<string>) returns (next: nat)
    requires |list| > 1 && Stands(b, i, Listed(list))
    ensures Events(b, i) == Events(b, next) && Stands(b, next, Listed(list[1..]))
    ensures i + |Listed(list)| == next + |Listed(list[1..])|
  {
    next := i + |CsStr(list[0])| + 2;
    ListedStands(b, i, list);
    FirstIsSeen(b, i, i + |CsStr(list[0])|, list[0]);
  }

  lemma {:induction false} FirstIsSeen(b: string, i: nat, end: nat, s: string)
    requires Stands(b, i, CsStr(s)) && end == i + |CsStr(s)|
    requires end + 1 < |b| && b[end] == ',' && b[end + 1] == ' '
    ensures Events(b, i) == Events(b, end + 2)
  {
    LiteralIsSeen(b, i, s);
    CommaIsDull(b, end);
  }

  lemma {:induction false} CommaIsDull(b: string, i: nat)
    requires i + 1 < |b| && b[i] == ',' && b[i + 1] == ' '
    ensures Events(b, i) == Events(b, i + 2)
  {
    EventsOverDull(b, i, i + 2);
  }

  lemma {:induction false} LiteralIsSeen(b: string, i: nat, s: string)
    requires Stands(b, i, CsStr(s))
    requires var end := i + |CsStr(s)|; end < |b| ==> b[end] != '"'
    ensures Events(b, i) == Events(b, i + |CsStr(s)|)
  {
    LiteralEndsThere(b, i, s);
    LiteralStarts(b, i, s);
    VerbatimIsPassed(b, i);
  }

  lemma {:induction false} LiteralStarts(b: string, i: nat, s: string)
    requires Stands(b, i, CsStr(s))
    ensures i + 1 < |b| && b[i] == '@' && b[i + 1] == '"'
  {
    assert CsStr(s)[0] == '@' && CsStr(s)[1] == '"';
    assert b[i + 0] == '@' && b[i + 1] == '"';
  }

  lemma {:induction false} VerbatimIsPassed(b: string, i: nat)
    requires i + 1 < |b| && b[i] == '@' && b[i + 1] == '"'
    ensures Events(b, i) == Events(b, LiteralEnd(b, i))
  {
    PassesStep(b, i);
  }

  lemma {:induction false} DullStand(b: string, i: nat, s: string)
    requires Stands(b, i, s) && forall k | 0 <= k < |s| :: Dull(s[k])
    ensures Events(b, i) == Events(b, i + |s|) && SameInside(b, i, i + |s|)
  {
    forall k | i <= k < i + |s| ensures Dull(b[k]) {
      assert b[i + (k - i)] == s[k - i];
    }
    EventsOverDull(b, i, i + |s|);
  }

  lemma {:induction false} CommaIsSeen(b: string, i: nat)
    requires i + 1 < |b| && b[i] == ',' && b[i + 1] == ' '
    ensures SameInside(b, i, i + 2)
  {
    OrdinaryArePassed(b, i, i + 2);
  }

  /** Wherever the text is, inside brackets nothing is found in it. */
  ghost predicate Skips(text: string) {
    forall b: string, i: nat :: Stands(b, i, text) ==> SameInside(b, i, i + |text|)
  }

  /** Wherever the text is with something other than a quote behind it. */
  ghost predicate SkipsUnquoted(text: string) {
    forall b: string, i: nat :: Stands(b, i, text) && Unquoted(b, i + |text|) ==> SameInside(b, i, i + |text|)
  }

  predicate Unquoted(b: string, i: nat) {
    i < |b| && b[i] != '"'
  }

  lemma {:induction false} SpellingSkips(how: Spelling, word: string)
    requires CanSpell(how, word)
    ensures SkipsUnquoted(Spelled(how, word))
  {
    forall b: string, i: nat | Stands(b, i, Spelled(how, word)) && Unquoted(b, i + |Spelled(how, word)|)
      ensures SameInside(b, i, i + |Spelled(how, word)|)
    {
      SpellingIsPassed(b, i, how, word);
    }
  }

  lemma {:induction false} ListedSkips(aliases: seq<string>)
    ensures SkipsUnquoted(Listed(aliases))
  {
    forall b: string, i: nat | Stands(b, i, Listed(aliases)) && Unquoted(b, i + |Listed(aliases)|)
      ensures SameInside(b, i, i + |Listed(aliases)|)
    {
      ListedIsSeen(b, i, aliases);
      SameEvents(b, i, i + |Listed(aliases)|);
    }
  }

  lemma {:induction false} ArgumentsSkip(v: string, n: string)
    requires SkipsUnquoted(v) && SkipsUnquoted(n)
    ensures SkipsUnquoted(Arguments(v, n))
  {
    forall b: string, i: nat | Stands(b, i, Arguments(v, n)) && Unquoted(b, i + |Arguments(v, n)|)
      ensures SameInside(b, i, i + |Arguments(v, n)|)
    {
      ArgumentsStand(b, i, v, n);
      assert Unquoted(b, i + |v|);
      CommaIsSeen(b, i + |v|);
    }
  }

  lemma {:induction false} CallSkips(call: string, args: string)
    requires SkipsUnquoted(args) && forall k | 0 <= k < |call| :: Dull(call[k])
    ensures Skips(call + args + ")")
  {
    forall b: string, i: nat | Stands(b, i, call + args + ")")
      ensures SameInside(b, i, i + |call + args + ")"|)
    {
      CallStands(b, i, call, args);
      DullStand(b, i, call);
      assert Unquoted(b, i + |call| + |args|);
      OrdinaryIsPassed(b, i + |call| + |args|);
    }
  }

  lemma {:induction false} CmdletSkips(verbAs: Spelling, verb: string, nounAs: Spelling, noun: string)
    requires CanSpell(verbAs, verb) && CanSpell(nounAs, noun)
    ensures Skips(CmdletText(Spelled(verbAs, verb), Spelled(nounAs, noun)))
  {
    SpellingSkips(verbAs, verb);
    SpellingSkips(nounAs, noun);
    CallsAre();
    ArgumentsSkip(Spelled(verbAs, verb), Spelled(nounAs, noun));
    CallSkips(CMDLET_CALL, Arguments(Spelled(verbAs, verb), Spelled(nounAs, noun)));
  }

  lemma {:induction false} AliasSkips(aliases: seq<string>)
    ensures Skips(AliasText(aliases))
  {
    CallsAre();
    ListedSkips(aliases);
    CallSkips(ALIAS_CALL, Listed(aliases));
  }

  // ----- a group, a gap and the keyword -----

  lemma {:induction false} BracketOpens(b: string, i: nat, start: nat)
    requires i < |b| && b[i] == '['
    ensures Fold(Events(b, i), 0, start) == Fold(Events(b, i + 1), 1, i)
    ensures NeverOverCloses(Events(b, i), 0) <==> NeverOverCloses(Events(b, i + 1), 1)
  {
    FoldsOne(Open(i), Events(b, i + 1), 0, start);
    assert Events(b, i) == [Open(i)] + Events(b, i + 1);
    assert ([Open(i)] + Events(b, i + 1))[1..] == Events(b, i + 1);
  }

  lemma {:induction false} BracketCloses(b: string, n: nat, start: nat)
    requires n < |b| && b[n] == ']'
    ensures var rest := Fold(Events(b, n + 1), 0, start);
            Fold(Events(b, n), 1, start) == Found([Group(start, n + 1)] + rest.groups, rest.classes)
    ensures NeverOverCloses(Events(b, n), 1) <==> NeverOverCloses(Events(b, n + 1), 0)
  {
    FoldsOne(Close(n), Events(b, n + 1), 1, start);
    assert Events(b, n) == [Close(n)] + Events(b, n + 1);
    assert ([Close(n)] + Events(b, n + 1))[1..] == Events(b, n + 1);
  }

  lemma {:induction false} SameWithin(b: string, i: nat, n: nat, start: nat)
    requires SameInside(b, i, n)
    ensures Fold(Events(b, i), 1, start) == Fold(Events(b, n), 1, start)
    ensures NeverOverCloses(Events(b, i), 1) <==> NeverOverCloses(Events(b, n), 1)
  {
    assert Inside(b, i)[(1, start)] == Inside(b, n)[(1, start)];
  }

  lemma {:induction false} GroupIsFound(b: string, i: nat, n: nat, start: nat)
    requires i < n < |b| && b[i] == '[' && b[n] == ']' && SameInside(b, i + 1, n)
    ensures var rest := Fold(Events(b, n + 1), 0, i);
            Fold(Events(b, i), 0, start) == Found([Group(i, n + 1)] + rest.groups, rest.classes)
    ensures NeverOverCloses(Events(b, i), 0) <==> NeverOverCloses(Events(b, n + 1), 0)
  {
    BracketOpens(b, i, start);
    SameWithin(b, i + 1, n, i);
    BracketCloses(b, n, i);
  }

  predicate AreModifiers(modifiers: seq<string>) {
    modifiers == [] || (modifiers[0] in MODIFIERS && AreModifiers(modifiers[1..]))
  }

  /** A word in small letters that does not start as the keyword does. */
  predicate IsPlainWord(w: string) {
    w != [] && w[0] != 'c' && forall k | 0 <= k < |w| :: 'a' <= w[k] <= 'z'
  }

  predicate ArePlainWords(words: seq<string>) {
    words == [] || (IsPlainWord(words[0]) && ArePlainWords(words[1..]))
  }

  lemma {:induction false} ModifierIsPlain(w: string)
    requires w in MODIFIERS
    ensures IsPlainWord(w)
  {}

  lemma {:induction false} ModifiersArePlain(modifiers: seq<string>)
    requires AreModifiers(modifiers)
    ensures ArePlainWords(modifiers)
  {
    if modifiers != [] {
      ModifierIsPlain(modifiers[0]);
      ModifiersArePlain(modifiers[1..]);
    }
  }

  lemma {:induction false} EventsOverLetters(b: string, i: nat, n: nat)
    requires i <= n <= |b| && forall k | i <= k < n :: 'a' <= b[k] <= 'z'
    requires 0 < i && IsIdentByte(b[i - 1])
    ensures Events(b, i) == Events(b, n)
    decreases n - i
  {
    if i < n {
      assert StepAt(b, i) == Passes(i + 1);
      EventsOverLetters(b, i + 1, n);
    }
  }

  lemma {:induction false} EventsOverWord(b: string, i: nat, w: string)
    requires IsPlainWord(w) && Stands(b, i, w)
    ensures Events(b, i) == Events(b, i + |w|)
  {
    forall k | i <= k < i + |w| ensures 'a' <= b[k] <= 'z' {
      assert b[i + (k - i)] == w[k - i];
    }
    FirstStands(b, i, w);
    EventsOverDull(b, i, i + 1);
    EventsOverLetters(b, i + 1, i + |w|);
  }

  lemma {:induction false} WordStands(b: string, i: nat, w: string, rest: string)
    requires Stands(b, i, w + " " + rest)
    ensures Stands(b, i, w) && i + |w| < |b| && b[i + |w|] == ' '
    ensures Stands(b, i + |w| + 1, rest) && |w + " " + rest| == |w| + 1 + |rest|
  {
    StandsInThree(b, i, w, " ", rest);
    FirstStands(b, i + |w|, " ");
  }

  lemma {:induction false} EventsOverFirstWord(b: string, i: nat, w: string)
    requires IsPlainWord(w) && Stands(b, i, w) && i + |w| < |b| && b[i + |w|] == ' '
    ensures Events(b, i) == Events(b, i + |w| + 1)
  {
    EventsOverWord(b, i, w);
    EventsOverDull(b, i + |w|, i + |w| + 1);
  }

  lemma {:induction false} EventsOverWords(b: string, i: nat, words: seq<string>)
    requires Stands(b, i, ModifiersText(words)) && ArePlainWords(words)
    ensures Events(b, i) == Events(b, i + |ModifiersText(words)|)
    decreases |words|
  {
    if words != [] {
      var next := FirstWordIsPassed(b, i, words);
      EventsOverWords(b, next, words[1..]);
    }
  }

  lemma {:induction false} FirstWordIsPassed(b: string, i: nat, words: seq<string>) returns (next: nat)
    requires Stands(b, i, ModifiersText(words)) && words != [] && IsPlainWord(words[0])
    ensures Events(b, i) == Events(b, next) && Stands(b, next, ModifiersText(words[1..]))
    ensures i + |ModifiersText(words)| == next + |ModifiersText(words[1..])|
  {
    next := i + |words[0]| + 1;
    WordStands(b, i, words[0], ModifiersText(words[1..]));
    EventsOverFirstWord(b, i, words[0]);
  }

  // ----- the modifiers -----

  lemma {:induction false} WordIsRead(w: string, rest: string, word: string)
    requires forall k | 0 <= k < |w| :: !IsSpace(w[k])
    ensures WordsFrom(w + rest, word) == WordsFrom(rest, word + w)
    decreases |w|
  {
    if w == [] {
      assert w + rest == rest && word + w == word;
    } else {
      assert (w + rest)[1..] == w[1..] + rest;
      WordIsRead(w[1..], rest, word + [w[0]]);
      assert word + [w[0]] + w[1..] == word + w;
    }
  }

  lemma {:induction false} FirstWordIsRead(w: string, rest: string)
    requires IsPlainWord(w)
    ensures WordsFrom(w + " " + rest, []) == [w] + WordsFrom(rest, [])
  {
    var more := " " + rest;
    assert w + " " + rest == w + more;
    WordIsRead(w, more, []);
    assert [] + w == w && more[1..] == rest;
  }

  lemma {:induction false} WordsAreRead(words: seq<string>)
    requires ArePlainWords(words)
    ensures WordsFrom(ModifiersText(words), []) == words
  {
    if words != [] {
      FirstWordIsRead(words[0], ModifiersText(words[1..]));
      WordsAreRead(words[1..]);
    }
  }

  lemma {:induction false} ModifiersAreSuch(modifiers: seq<string>)
    requires AreModifiers(modifiers)
    ensures forall w | w in modifiers :: w in MODIFIERS
  {
    if modifiers != [] {
      ModifiersAreSuch(modifiers[1..]);
      assert modifiers == [modifiers[0]] + modifiers[1..];
    }
  }

  lemma {:induction false} ModifiersAreAGap(modifiers: seq<string>)
    requires AreModifiers(modifiers)
    ensures OnlyModifiers("\n" + ModifiersText(modifiers))
  {
    var text := ModifiersText(modifiers);
    assert ("\n" + text)[1..] == text;
    ModifiersArePlain(modifiers);
    WordsAreRead(modifiers);
    ModifiersAreSuch(modifiers);
    assert WordsFrom("\n" + text, []) == [] + WordsFrom(text, []) == modifiers;
  }

  // ----- where each part is -----

  /** Where the class's attributes, modifiers and keyword are. */
  datatype Places = Places(cmdlet: nat, alias: nat, modifiers: nat, keyword: nat)

  function PlacesOf(at: nat, cmdlet: string, alias: string, modifiers: string): Places {
    var second := at + |cmdlet| + 3;
    var third := second + |alias| + 3;
    Places(at, second, third, third + |modifiers|)
  }

  predicate Bracketed(b: string, i: nat, text: string) {
    && i + |text| + 2 < |b|
    && b[i] == '[' && Stands(b, i + 1, text) && b[i + 1 + |text|] == ']' && b[i + 2 + |text|] == '\n'
  }

  ghost predicate Laid(b: string, p: Places, cmdlet: string, alias: string, modifiers: string) {
    match p
    case Places(first, second, third, keyword) =>
      && p == PlacesOf(first, cmdlet, alias, modifiers) && keyword + 5 <= |b|
      && b[first..second] == "[" + cmdlet + "]\n"
      && b[second..third] == "[" + alias + "]\n"
      && b[third..keyword] == modifiers
      && b[keyword..keyword + 5] == CLASS
  }

  lemma {:induction false} SliceStands(b: string, i: nat, j: nat, s: string)
    requires i <= j <= |b| && b[i..j] == s
    ensures Stands(b, i, s)
  {}

  lemma {:induction false} StandsIsSlice(b: string, i: nat, s: string)
    requires Stands(b, i, s)
    ensures b[i..i + |s|] == s
  {}

  lemma {:induction false} LineIsBracketed(b: string, i: nat, j: nat, text: string)
    requires i <= j <= |b| && b[i..j] == "[" + text + "]\n"
    ensures Bracketed(b, i, text)
  {
    var close := "]\n";
    SliceStands(b, i, j, "[" + text + close);
    StandsInThree(b, i, "[", text, close);
    FirstStands(b, i, "[");
    FirstStands(b, i + 1 + |text|, close);
    assert b[i + 1 + |text| + 1] == close[1];
  }

  lemma {:induction false} LinesAreAt(source: string, p: Places, cmdlet: string, alias: string, modifiers: string)
    requires Laid(source, p, cmdlet, alias, modifiers)
    ensures p.alias == p.cmdlet + |cmdlet| + 3 && p.modifiers == p.alias + |alias| + 3
    ensures p.keyword == p.modifiers + |modifiers| && p.keyword + 5 <= |source|
  {}

  lemma {:induction false} LinesAreBracketed(
      source: string, p: Places, cmdlet: string, alias: string, modifiers: string)
    requires Laid(source, p, cmdlet, alias, modifiers)
    ensures Bracketed(source, p.cmdlet, cmdlet) && Bracketed(source, p.alias, alias)
  {
    LineIsBracketed(source, p.cmdlet, p.alias, cmdlet);
    LineIsBracketed(source, p.alias, p.modifiers, alias);
  }

  lemma {:induction false} ModifiersAreAt(source: string, p: Places, cmdlet: string, alias: string, modifiers: string)
    requires Laid(source, p, cmdlet, alias, modifiers)
    ensures p.modifiers > 0 && source[p.modifiers - 1] == '\n'
    ensures Stands(source, p.modifiers, modifiers) && Stands(source, p.keyword, CLASS)
  {
    LineIsBracketed(source, p.alias, p.modifiers, alias);
    SliceStands(source, p.modifiers, p.keyword, modifiers);
    SliceStands(source, p.keyword, p.keyword + 5, CLASS);
  }

  lemma {:induction false} LineStands(b: string, i: nat, text: string, more: string)
    requires Stands(b, i, "[" + text + ("]\n" + more))
    ensures i + |text| + 3 <= |b| && b[i..i + |text| + 3] == "[" + text + "]\n" && Stands(b, i + |text| + 3, more)
  {
    var line := "[" + text + "]\n";
    assert "[" + text + ("]\n" + more) == [] + line + more;
    StandsInThree(b, i, [], line, more);
    StandsIsSlice(b, i, line);
  }

  /** What comes after the first attribute's text. */
  function SecondLine(alias: string, modifiers: string): string {
    "[" + alias + ("]\n" + (modifiers + CLASS))
  }

  lemma {:induction false} DeclaredInLines(cmdlet: string, alias: string, modifiers: string)
    ensures Declared(cmdlet, alias, modifiers) == "[" + cmdlet + ("]\n" + SecondLine(alias, modifiers))
    ensures |Declared(cmdlet, alias, modifiers)| == |cmdlet| + |alias| + |modifiers| + 11
  {
    assert |CLASS| == 5;
  }

  lemma {:induction false} DeclaredIsLaid(
      before: string, cmdlet: string, alias: string, modifiers: string, after: string)
    ensures var b := before + Declared(cmdlet, alias, modifiers) + after;
            Laid(b, PlacesOf(|before|, cmdlet, alias, modifiers), cmdlet, alias, modifiers)
            && |b| == PlacesOf(|before|, cmdlet, alias, modifiers).keyword + 5 + |after|
  {
    var all := Declared(cmdlet, alias, modifiers);
    var b := before + all + after;
    DeclaredInLines(cmdlet, alias, modifiers);
    assert Stands(b, 0, b);
    StandsInThree(b, 0, before, all, after);
    LinesAreLaid(b, |before|, cmdlet, alias, modifiers);
  }

  lemma {:induction false} LinesAreLaid(b: string, at: nat, cmdlet: string, alias: string, modifiers: string)
    requires Stands(b, at, "[" + cmdlet + ("]\n" + SecondLine(alias, modifiers)))
    ensures Laid(b, PlacesOf(at, cmdlet, alias, modifiers), cmdlet, alias, modifiers)
  {
    var p := PlacesOf(at, cmdlet, alias, modifiers);
    LineStands(b, at, cmdlet, SecondLine(alias, modifiers));
    LineStands(b, p.alias, alias, modifiers + CLASS);
    assert modifiers + CLASS == modifiers + CLASS + [];
    StandsInThree(b, p.modifiers, modifiers, CLASS, []);
    StandsIsSlice(b, p.modifiers, modifiers);
    StandsIsSlice(b, p.keyword, CLASS);
  }

  // ----- what the scan finds -----

  /** From `i` on brackets never close more than they open, and there is no class. */
  ghost predicate NoMoreClasses(source: string, i: nat) {
    match Fold(Events(source, i), 0, 0)
    case Found(_, classes) => classes == [] && NeverOverCloses(Events(source, i), 0)
  }

  /** No class is declared from `i` on, and no attribute there declares a cmdlet. */
  ghost predicate NoneDeclared(source: string, i: nat) {
    match Fold(Events(source, i), 0, 0)
    case Found(groups, _) => NoMoreClasses(source, i) && forall g | g in groups :: DeclaresNone(source, g)
  }

  ghost predicate DeclaresNone(source: string, g: Group) {
    g.start + 1 < g.end <= |source| && CmdletsIn(source, g) == 0
  }

  /** Outside brackets the start of the last group does not matter. */
  lemma {:induction false} StartIsForgotten(es: seq<Event>, start: nat, other: nat)
    requires NeverOverCloses(es, 0)
    ensures Fold(es, 0, start) == Fold(es, 0, other)
  {
    if es != [] && es[0].Class? {
      StartIsForgotten(es[1..], start, other);
    }
  }

  lemma {:induction false} KeywordStands(b: string, at: nat)
    requires Stands(b, at, CLASS) && 0 < at && !IsIdentByte(b[at - 1])
    requires at + 5 < |b| ==> !IsIdentByte(b[at + 5])
    ensures IsWordAt(b, at, CLASS)
  {
    assert |CLASS| == 5;
    assert b[at..at + 5] == CLASS;
  }

  lemma {:induction false} KeywordIsFound(b: string, at: nat, start: nat)
    requires IsWordAt(b, at, CLASS) && NoMoreClasses(b, at + 5)
    ensures Fold(Events(b, at), 0, start) == Found(Fold(Events(b, at + 5), 0, 0).groups, [at])
    ensures NeverOverCloses(Events(b, at), 0)
  {
    KeywordIsAt(b, at);
    assert StepAt(b, at) == Keyword;
    FoldsOne(Class(at), Events(b, at + 5), 0, start);
    StartIsForgotten(Events(b, at + 5), start, 0);
    assert ([Class(at)] + Events(b, at + 5))[1..] == Events(b, at + 5);
  }

  lemma {:induction false} ModifiersArePassed(b: string, i: nat, modifiers: seq<string>)
    requires AreModifiers(modifiers) && 0 < i <= |b| && !IsIdentByte(b[i - 1]) && Stands(b, i, ModifiersText(modifiers))
    ensures var at := i + |ModifiersText(modifiers)|;
            Events(b, i) == Events(b, at) && 0 < at <= |b| && !IsIdentByte(b[at - 1])
  {
    ModifiersArePlain(modifiers);
    EventsOverWords(b, i, modifiers);
    EndsInASpace(b, i, modifiers);
  }

  lemma {:induction false} EndsInASpace(b: string, i: nat, words: seq<string>)
    requires Stands(b, i, ModifiersText(words)) && i > 0 && !IsIdentByte(b[i - 1])
    ensures !IsIdentByte(b[i + |ModifiersText(words)| - 1])
    decreases |words|
  {
    if words != [] {
      WordStands(b, i, words[0], ModifiersText(words[1..]));
      EndsInASpace(b, i + |words[0]| + 1, words[1..]);
    }
  }

  lemma {:induction false} LineSkips(b: string, i: nat, next: nat, text: string)
    requires i <= next <= |b| && b[i..next] == "[" + text + "]\n" && Skips(text)
    ensures Bracketed(b, i, text) && next == i + |text| + 3 && SameInside(b, i + 1, i + 1 + |text|)
  {
    LineIsBracketed(b, i, next, text);
    assert |"[" + text + "]\n"| == |text| + 3;
  }

  /** The line of an attribute is one group, and what follows is as read from the next line. */
  lemma {:induction false} LineIsFound(b: string, i: nat, next: nat, text: string, start: nat)
    requires i <= next <= |b| && b[i..next] == "[" + text + "]\n" && Skips(text)
    ensures FoundLine(b, i, next, start)
  {
    LineSkips(b, i, next, text);
    GroupIsFound(b, i, next - 2, start);
    EventsOverDull(b, next - 1, next);
  }

  /** From outside brackets at `i`, one group up to the end of the line before `next`. */
  ghost predicate FoundLine(b: string, i: nat, next: nat, start: nat) {
    match Fold(Events(b, next), 0, i)
    case Found(groups, classes) =>
      && 0 < next
      && Fold(Events(b, i), 0, start) == Found([Group(i, next - 1)] + groups, classes)
      && (NeverOverCloses(Events(b, i), 0) <==> NeverOverCloses(Events(b, next), 0))
  }

  /** The two groups of a class. */
  function GroupsAt(p: Places): seq<Group>
    requires 0 < p.alias && 0 < p.modifiers
  {
    [Group(p.cmdlet, p.alias - 1), Group(p.alias, p.modifiers - 1)]
  }

  lemma {:induction false} FoundInTurn(b: string, p: Places, start: nat, rest: seq<Group>)
    requires FoundLine(b, p.cmdlet, p.alias, start) && FoundLine(b, p.alias, p.modifiers, p.cmdlet)
    requires Fold(Events(b, p.modifiers), 0, p.alias) == Found(rest, [p.keyword])
    requires NeverOverCloses(Events(b, p.modifiers), 0)
    ensures Fold(Events(b, p.cmdlet), 0, start) == Found(GroupsAt(p) + rest, [p.keyword])
    ensures NeverOverCloses(Events(b, p.cmdlet), 0)
  {
    var first, second := Group(p.cmdlet, p.alias - 1), Group(p.alias, p.modifiers - 1);
    assert [first] + ([second] + rest) == GroupsAt(p) + rest;
  }

  lemma {:induction false} GroupsAreLater(b: string, i: nat)
    requires NoneDeclared(b, i)
    ensures forall k | 0 <= k < |Fold(Events(b, i), 0, 0).groups| :: i <= Fold(Events(b, i), 0, 0).groups[k].start
  {
    EventsIncrease(b, i);
    FoldPlaces(Events(b, i), 0, 0, i);
  }

  // ----- the class's own attributes -----

  /** The places of a class's parts in a source, with groups past the class after its own. */
  ghost predicate Placed(source: string, p: Places, groups: seq<Group>) {
    && 0 < p.alias && 0 < p.modifiers && p.cmdlet + 2 < p.alias - 1 && p.alias + 2 < p.modifiers - 1
    && p.modifiers <= p.keyword <= |source|
    && |groups| >= 2 && groups[..2] == GroupsAt(p)
    && (forall k | 2 <= k < |groups| :: p.keyword < groups[k].start && DeclaresNone(source, groups[k]))
  }

  lemma {:induction false} PlacedIsSliced(source: string, p: Places, groups: seq<Group>)
    requires Placed(source, p, groups)
    ensures Sliced(source, groups) && groups[0] == GroupsAt(p)[0] && groups[1] == GroupsAt(p)[1]
  {
    assert groups[0] == groups[..2][0] && groups[1] == groups[..2][1];
    forall k | 0 <= k < |groups| ensures groups[k].start + 1 < groups[k].end <= |source| {
      if k >= 2 {
        assert DeclaresNone(source, groups[k]);
      }
    }
  }

  lemma {:induction false} LaterAreSkipped(source: string, p: Places, groups: seq<Group>, n: nat)
    requires Placed(source, p, groups) && Sliced(source, groups) && 2 <= n <= |groups|
    ensures RunBefore(source, groups, n, p.keyword) == RunBefore(source, groups, 2, p.keyword)
    decreases n
  {
    if n > 2 {
      assert p.keyword < groups[n - 1].start;
      LaterAreSkipped(source, p, groups, n - 1);
    }
  }

  lemma {:induction false} RunGrows(source: string, groups: seq<Group>, n: nat, next: nat)
    requires AllForward(groups) && 0 < n <= |groups| && groups[n - 1].end <= next <= |source|
    requires OnlyModifiers(source[groups[n - 1].end..next])
    ensures RunBefore(source, groups, n, next) ==
        RunBefore(source, groups, n - 1, groups[n - 1].start) + [groups[n - 1]]
  {}

  lemma {:induction false} RunEnds(source: string, p: Places, groups: seq<Group>)
    requires Placed(source, p, groups) && Sliced(source, groups)
    requires OnlyModifiers(source[p.modifiers - 1..p.keyword])
    ensures AttributesOf(source, groups, p.keyword) == RunBefore(source, groups, 1, p.alias) + [groups[1]]
  {
    PlacedIsSliced(source, p, groups);
    LaterAreSkipped(source, p, groups, |groups|);
    RunGrows(source, groups, 2, p.keyword);
  }

  lemma {:induction false} RunStarts(source: string, p: Places, groups: seq<Group>)
    requires Placed(source, p, groups) && Sliced(source, groups)
    requires source[p.alias - 1..p.alias] == "\n"
    ensures RunBefore(source, groups, 1, p.alias) == [groups[0]]
  {
    PlacedIsSliced(source, p, groups);
    NewlineIsAGap();
    RunGrows(source, groups, 1, p.alias);
    NoRun(source, groups, p.cmdlet);
    assert [] + [groups[0]] == [groups[0]];
  }

  lemma {:induction false} RunIsBoth(source: string, p: Places, groups: seq<Group>)
    requires Placed(source, p, groups) && Sliced(source, groups)
    requires source[p.alias - 1..p.alias] == "\n" && OnlyModifiers(source[p.modifiers - 1..p.keyword])
    ensures AttributesOf(source, groups, p.keyword) == GroupsAt(p)
  {
    PlacedIsSliced(source, p, groups);
    RunEnds(source, p, groups);
    RunStarts(source, p, groups);
    assert [groups[0]] + [groups[1]] == GroupsAt(p);
  }

  lemma {:induction false} NoRun(source: string, groups: seq<Group>, next: nat)
    requires AllForward(groups) && next <= |source|
    ensures RunBefore(source, groups, 0, next) == []
  {}

  lemma {:induction false} GapsAre(b: string, p: Places, cmdlet: string, alias: string, modifiers: seq<string>)
    requires Laid(b, p, cmdlet, alias, ModifiersText(modifiers)) && AreModifiers(modifiers)
    ensures 0 < p.alias <= |b| && 0 < p.modifiers <= p.keyword <= |b|
    ensures b[p.alias - 1..p.alias] == "\n" && OnlyModifiers(b[p.modifiers - 1..p.keyword])
  {
    LinesAreAt(b, p, cmdlet, alias, ModifiersText(modifiers));
    LinesAreBracketed(b, p, cmdlet, alias, ModifiersText(modifiers));
    GapIs(b, p.modifiers, p.keyword, ModifiersText(modifiers));
    ModifiersAreAGap(modifiers);
  }

  lemma {:induction false} GapIs(b: string, i: nat, j: nat, text: string)
    requires 0 < i <= j <= |b| && b[i - 1] == '\n' && b[i..j] == text
    ensures b[i - 1..j] == "\n" + text
  {}

  lemma {:induction false} TextInGroup(b: string, i: nat, text: string)
    requires Bracketed(b, i, text)
    ensures b[i + 1..i + 1 + |text|] == text
  {}

  /** The two groups hold one attribute each. */
  ghost predicate Holds(source: string, p: Places, cmdlet: string, alias: string) {
    match p
    case Places(_, second, third, _) =>
      && 0 < second && 0 < third && Sliced(source, GroupsAt(p))
      && AttributesIn(source, GroupsAt(p)[0]) == [cmdlet]
      && AttributesIn(source, GroupsAt(p)[1]) == [alias]
  }

  lemma {:induction false} LaidHolds(source: string, p: Places, cmdlet: string, alias: string, modifiers: string)
    requires Laid(source, p, cmdlet, alias, modifiers) && cmdlet != [] && alias != []
    requires PartsOf(cmdlet) == [cmdlet] && PartsOf(alias) == [alias]
    ensures Holds(source, p, cmdlet, alias)
  {
    LinesAreAt(source, p, cmdlet, alias, modifiers);
    LinesAreBracketed(source, p, cmdlet, alias, modifiers);
    TextInGroup(source, p.cmdlet, cmdlet);
    TextInGroup(source, p.alias, alias);
  }

  lemma {:induction false} HearsBoth(
      source: string, run: seq<Group>, cmdlet: string, alias: string, h: Heard, next: Heard)
    requires |run| == 2 && Sliced(source, run)
    requires AttributesIn(source, run[0]) == [cmdlet] && AttributesIn(source, run[1]) == [alias]
    requires HearAll(Heard(None, []), [cmdlet], 0) == Some(h) && HearAll(h, [alias], 0) == Some(next)
    ensures HearRun(source, run) == Some(next)
  {
    assert HearGroups(source, run, 2, next) == Some(next);
    assert HearGroups(source, run, 1, h) == HearGroups(source, run, 2, next);
  }

  lemma {:induction false} HearsOne(h: Heard, attribute: string)
    ensures HearAll(h, [attribute], 0) == Hear(h, attribute)
  {
    var all := [attribute];
    if Hear(h, attribute).Some? {
      var next := Hear(h, attribute).value;
      assert HearAll(next, all, 1) == Some(next);
    }
  }

  lemma {:induction false} CountsOne(source: string, g: Group, attribute: string)
    requires g.start + 1 < g.end <= |source| && AttributesIn(source, g) == [attribute]
    ensures CmdletsIn(source, g) == if IsCmdlet(attribute) then 1 else 0
  {
    var attributes := [attribute];
    assert Count(attributes, 0, IsCmdlet) == 0;
    assert Count(attributes, 1, IsCmdlet) == if IsCmdlet(attribute) then 1 else 0;
  }

  lemma {:induction false} DeclaredInTwo(source: string, groups: seq<Group>)
    requires Sliced(source, groups) && |groups| >= 2
    ensures DeclaredIn(source, groups, 2) == CmdletsIn(source, groups[0]) + CmdletsIn(source, groups[1])
  {
    assert DeclaredIn(source, groups, 0) == 0;
    assert DeclaredIn(source, groups, 1) == CmdletsIn(source, groups[0]);
  }

  lemma {:induction false} NoMoreDeclared(source: string, groups: seq<Group>, n: nat)
    requires Sliced(source, groups) && 2 <= n <= |groups|
    requires forall k | 2 <= k < n :: DeclaresNone(source, groups[k])
    ensures DeclaredIn(source, groups, n) == DeclaredIn(source, groups, 2)
    decreases n
  {
    if n > 2 {
      NoMoreDeclared(source, groups, n - 1);
      assert DeclaresNone(source, groups[n - 1]);
    }
  }

  lemma {:induction false} DeclaresOne(source: string, p: Places, groups: seq<Group>)
    requires Placed(source, p, groups) && Sliced(source, groups) && Sliced(source, GroupsAt(p))
    requires CmdletsIn(source, GroupsAt(p)[0]) == 1 && CmdletsIn(source, GroupsAt(p)[1]) == 0
    ensures DeclaredIn(source, groups, |groups|) == 1
  {
    PlacedIsSliced(source, p, groups);
    DeclaredInTwo(source, groups);
    NoMoreDeclared(source, groups, |groups|);
  }

  // ----- the file -----

  /** A class's attributes, its modifiers and the keyword. */
  function ClassText(
      verbAs: Spelling, verb: string, nounAs: Spelling, noun: string,
      aliases: seq<string>, modifiers: seq<string>): string
  {
    Declared(CmdletText(Spelled(verbAs, verb), Spelled(nounAs, noun)), AliasText(aliases), ModifiersText(modifiers))
  }

  /** The scan of a source reads exactly this cmdlet, and no attribute is unclaimed. */
  ghost predicate ScansTo(source: string, cmdlet: Cmdlet) {
    match FoundIn(source)
    case Found(groups, classes) =>
      && NeverOverCloses(Events(source, 0), 0)
      && Read(source, FoundIn(source))
      && !SomeBreaksOff(source, FoundIn(source))
      && CmdletsOf(source, groups, classes, |classes|) == Some([cmdlet])
      && DeclaredIn(source, groups, |groups|) == 1
  }

  lemma {:induction false} OneClassScans(source: string, f: Found, at: nat, name: string, aliases: seq<string>)
    requires NeverOverCloses(Events(source, 0), 0) && f == FoundIn(source) && f.classes == [at]
    requires at <= |source| && Sliced(source, f.groups) && Sliced(source, AttributesOf(source, f.groups, at))
    requires HearRun(source, AttributesOf(source, f.groups, at)) == Some(Heard(Some(name), aliases))
    requires DeclaredIn(source, f.groups, |f.groups|) == 1
    ensures ScansTo(source, Cmdlet(name, aliases))
  {
    ScanIsRead(source);
    assert CmdletsOf(source, f.groups, f.classes, 0) == Some([]);
    assert [] + [Cmdlet(name, aliases)] == [Cmdlet(name, aliases)];
    assert CmdletsOf(source, f.groups, f.classes, 1) == Some([Cmdlet(name, aliases)]);
    NoAnswerExactlyWhenAnAliasBreaksOff(source, f.groups, f.classes, 1);
  }

  lemma {:induction false} KeywordEnds(source: string, at: nat, start: nat)
    requires Stands(source, at, CLASS) && 0 < at && !IsIdentByte(source[at - 1])
    requires (at + 5 < |source| ==> !IsIdentByte(source[at + 5])) && NoMoreClasses(source, at + 5)
    ensures Fold(Events(source, at), 0, start) == Found(Fold(Events(source, at + 5), 0, 0).groups, [at])
    ensures NeverOverCloses(Events(source, at), 0)
  {
    KeywordStands(source, at);
    KeywordIsFound(source, at, start);
  }

  lemma {:induction false} SliceReaches(b: string, i: nat, j: nat, modifiers: seq<string>)
    requires AreModifiers(modifiers) && 0 < i <= j <= |b| && b[i - 1] == '\n' && b[i..j] == ModifiersText(modifiers)
    ensures Events(b, i) == Events(b, j) && !IsIdentByte(b[j - 1])
  {
    SliceStands(b, i, j, ModifiersText(modifiers));
    ModifiersArePassed(b, i, modifiers);
  }

  lemma {:induction false} LaidReaches(source: string, p: Places, cmdlet: string, alias: string, modifiers: seq<string>)
    requires Laid(source, p, cmdlet, alias, ModifiersText(modifiers)) && AreModifiers(modifiers)
    ensures Events(source, p.modifiers) == Events(source, p.keyword)
    ensures 0 < p.keyword <= |source| && !IsIdentByte(source[p.keyword - 1]) && Stands(source, p.keyword, CLASS)
  {
    ModifiersAreAt(source, p, cmdlet, alias, ModifiersText(modifiers));
    SliceReaches(source, p.modifiers, p.keyword, modifiers);
  }

  lemma {:induction false} LaidEnds(source: string, p: Places, cmdlet: string, alias: string, modifiers: seq<string>)
    requires Laid(source, p, cmdlet, alias, ModifiersText(modifiers)) && AreModifiers(modifiers)
    requires p.keyword + 5 < |source| ==> !IsIdentByte(source[p.keyword + 5])
    requires NoMoreClasses(source, p.keyword + 5)
    ensures Fold(Events(source, p.modifiers), 0, p.alias) ==
            Found(Fold(Events(source, p.keyword + 5), 0, 0).groups, [p.keyword])
    ensures NeverOverCloses(Events(source, p.modifiers), 0)
  {
    LaidReaches(source, p, cmdlet, alias, modifiers);
    KeywordEnds(source, p.keyword, p.alias);
  }

  lemma {:induction false} FirstLineIsFound(source: string, p: Places, cmdlet: string, alias: string, modifiers: string)
    requires Laid(source, p, cmdlet, alias, modifiers) && Skips(cmdlet)
    ensures FoundLine(source, p.cmdlet, p.alias, 0)
  {
    LineIsFound(source, p.cmdlet, p.alias, cmdlet, 0);
  }

  lemma {:induction false} SecondLineIsFound(
      source: string, p: Places, cmdlet: string, alias: string, modifiers: string)
    requires Laid(source, p, cmdlet, alias, modifiers) && Skips(alias)
    ensures FoundLine(source, p.alias, p.modifiers, p.cmdlet)
  {
    LineIsFound(source, p.alias, p.modifiers, alias, p.cmdlet);
  }

  /** What the scan finds of a laid-out class with nothing found before it. */
  lemma {:induction false} LaidIsFound(
      source: string, p: Places, cmdlet: string, alias: string, modifiers: seq<string>)
    requires Laid(source, p, cmdlet, alias, ModifiersText(modifiers)) && AreModifiers(modifiers)
    requires Skips(cmdlet) && Skips(alias)
    requires p.keyword + 5 < |source| ==> !IsIdentByte(source[p.keyword + 5])
    requires NoMoreClasses(source, p.keyword + 5)
    ensures p.alias > 0 && p.modifiers > 0
    ensures var rest := Fold(Events(source, p.keyword + 5), 0, 0).groups;
            Fold(Events(source, p.cmdlet), 0, 0) == Found(GroupsAt(p) + rest, [p.keyword])
    ensures NeverOverCloses(Events(source, p.cmdlet), 0)
  {
    LaidEnds(source, p, cmdlet, alias, modifiers);
    LinesAreAt(source, p, cmdlet, alias, ModifiersText(modifiers));
    FirstLineIsFound(source, p, cmdlet, alias, ModifiersText(modifiers));
    SecondLineIsFound(source, p, cmdlet, alias, ModifiersText(modifiers));
    FoundInTurn(source, p, 0, Fold(Events(source, p.keyword + 5), 0, 0).groups);
  }

  lemma {:induction false} GroupsArePlaced(source: string, i: nat, both: seq<Group>, rest: seq<Group>)
    requires NoneDeclared(source, i) && rest == Fold(Events(source, i), 0, 0).groups && |both| == 2
    ensures var groups := both + rest;
            groups[..2] == both
            && forall k | 2 <= k < |groups| :: i <= groups[k].start && DeclaresNone(source, groups[k])
  {
    var groups := both + rest;
    GroupsAreLater(source, i);
    forall k | 2 <= k < |groups| ensures i <= groups[k].start && DeclaresNone(source, groups[k]) {
      assert groups[k] == rest[k - 2];
    }
    assert groups[..2] == both;
  }

  lemma {:induction false} FoundIsPlaced(
      source: string, p: Places, cmdlet: string, alias: string, modifiers: string, rest: seq<Group>)
    requires Laid(source, p, cmdlet, alias, modifiers) && cmdlet != [] && alias != []
    requires NoneDeclared(source, p.keyword + 5) && rest == Fold(Events(source, p.keyword + 5), 0, 0).groups
    ensures p.alias > 0 && p.modifiers > 0 && Placed(source, p, GroupsAt(p) + rest)
  {
    LinesAreAt(source, p, cmdlet, alias, modifiers);
    GroupsArePlaced(source, p.keyword + 5, GroupsAt(p), rest);
  }

  /** The class's own attributes name it so, and one of them is a `[Cmdlet]`. */
  ghost predicate Says(source: string, p: Places, name: string, aliases: seq<string>) {
    match p
    case Places(_, second, third, _) =>
      && 0 < second && 0 < third && Sliced(source, GroupsAt(p))
      && HearRun(source, GroupsAt(p)) == Some(Heard(Some(name), aliases))
      && CmdletsIn(source, GroupsAt(p)[0]) == 1 && CmdletsIn(source, GroupsAt(p)[1]) == 0
  }

  lemma {:induction false} LaidIsScanned(
      source: string, p: Places, cmdlet: string, alias: string, modifiers: seq<string>, name: string,
        aliases: seq<string>)
    requires Laid(source, p, cmdlet, alias, ModifiersText(modifiers)) && AreModifiers(modifiers)
    requires cmdlet != [] && alias != [] && Says(source, p, name, aliases)
    requires Fold(Events(source, 0), 0, 0) ==
             Found(GroupsAt(p) + Fold(Events(source, p.keyword + 5), 0, 0).groups, [p.keyword])
    requires NeverOverCloses(Events(source, 0), 0) && NoneDeclared(source, p.keyword + 5)
    ensures ScansTo(source, Cmdlet(name, aliases))
  {
    var f := FoundIn(source);
    FoundIsPlaced(source, p, cmdlet, alias, ModifiersText(modifiers), Fold(Events(source, p.keyword + 5), 0, 0).groups);
    PlacedIsSliced(source, p, f.groups);
    GapsAre(source, p, cmdlet, alias, modifiers);
    RunIsBoth(source, p, f.groups);
    DeclaresOne(source, p, f.groups);
    OneClassScans(source, f, p.keyword, name, aliases);
  }

  /** What two attributes say together, each one part and one of them a `[Cmdlet]`. */
  ghost predicate Announce(cmdlet: string, alias: string, name: string, aliases: seq<string>) {
    && cmdlet != [] && alias != []
    && PartsOf(cmdlet) == [cmdlet] && PartsOf(alias) == [alias]
    && IsCmdlet(cmdlet) && !IsCmdlet(alias)
    && HearAll(Heard(None, []), [cmdlet], 0) == Some(Heard(Some(name), []))
    && HearAll(Heard(Some(name), []), [alias], 0) == Some(Heard(Some(name), aliases))
  }

  lemma {:induction false} SpelledAnnounce(
      verbAs: Spelling, verb: string, nounAs: Spelling, noun: string, aliases: seq<string>)
    requires CanSpell(verbAs, verb) && CanSpell(nounAs, noun)
    ensures Announce(CmdletText(Spelled(verbAs, verb), Spelled(nounAs, noun)), AliasText(aliases), verb + "-" + noun,
                     aliases)
  {
    var cmdlet, alias := CmdletText(Spelled(verbAs, verb), Spelled(nounAs, noun)), AliasText(aliases);
    var h0, h1 := Heard(None, []), Heard(Some(verb + "-" + noun), []);
    assert [] + aliases == aliases;
    HearsCmdlet(h0, verbAs, verb, nounAs, noun);
    HearsAliases(h1, aliases);
    HearsOne(h0, cmdlet);
    HearsOne(h1, alias);
    CmdletStaysTogether(verbAs, verb, nounAs, noun);
    AliasStaysTogether(aliases);
  }

  lemma {:induction false} AnnouncedIsSaid(
      source: string, p: Places, cmdlet: string, alias: string, name: string, aliases: seq<string>)
    requires Holds(source, p, cmdlet, alias) && Announce(cmdlet, alias, name, aliases)
    ensures Says(source, p, name, aliases)
  {
    HearsBoth(source, GroupsAt(p), cmdlet, alias, Heard(Some(name), []), Heard(Some(name), aliases));
    CountsOne(source, GroupsAt(p)[0], cmdlet);
    CountsOne(source, GroupsAt(p)[1], alias);
  }

  lemma {:induction false} HeardIsScanned(
      source: string, p: Places, cmdlet: string, alias: string, modifiers: seq<string>, name: string,
      aliases: seq<string>)
    requires Laid(source, p, cmdlet, alias, ModifiersText(modifiers)) && AreModifiers(modifiers)
    requires Announce(cmdlet, alias, name, aliases) && Skips(cmdlet) && Skips(alias)
    requires Events(source, 0) == Events(source, p.cmdlet) && NoneDeclared(source, p.keyword + 5)
    requires p.keyword + 5 < |source| ==> !IsIdentByte(source[p.keyword + 5])
    ensures ScansTo(source, Cmdlet(name, aliases))
  {
    LaidHolds(source, p, cmdlet, alias, ModifiersText(modifiers));
    AnnouncedIsSaid(source, p, cmdlet, alias, name, aliases);
    LaidIsFound(source, p, cmdlet, alias, modifiers);
    LaidIsScanned(source, p, cmdlet, alias, modifiers, name, aliases);
  }

  /** Whatever its verb, noun, aliases and modifiers are, and whichever way the words are
      spelled, a class written with them scans to its one cmdlet: named by the verb, a
      hyphen and the noun, with all its aliases in order, and nothing unclaimed. Before
      it there may be anything the scan finds nothing in, and after its keyword anything
      that declares no more. */
  lemma {:induction false} WrittenIsScanned(
      before: string, text: string, after: string, verbAs: Spelling, verb: string, nounAs: Spelling, noun: string,
      aliases: seq<string>, modifiers: seq<string>)
    requires CanSpell(verbAs, verb) && CanSpell(nounAs, noun) && AreModifiers(modifiers)
    requires text == ClassText(verbAs, verb, nounAs, noun, aliases, modifiers)
    requires var source := before + text + after;
             && Events(source, 0) == Events(source, |before|)
             && (after != [] ==> !IsIdentByte(after[0]))
             && NoneDeclared(source, |before + text|)
    ensures ScansTo(before + text + after, Cmdlet(verb + "-" + noun, aliases))
  {
    var cmdlet, alias := CmdletText(Spelled(verbAs, verb), Spelled(nounAs, noun)), AliasText(aliases);
    SpelledAnnounce(verbAs, verb, nounAs, noun, aliases);
    CmdletSkips(verbAs, verb, nounAs, noun);
    AliasSkips(aliases);
    TextIsScanned(before + text + after, before, text, after, cmdlet, alias, modifiers, verb + "-" + noun, aliases);
  }

  lemma {:induction false} TextIsScanned(
      source: string, before: string, text: string, after: string, cmdlet: string, alias: string,
      modifiers: seq<string>, name: string, aliases: seq<string>)
    requires AreModifiers(modifiers) && Announce(cmdlet, alias, name, aliases) && Skips(cmdlet) && Skips(alias)
    requires text == Declared(cmdlet, alias, ModifiersText(modifiers)) && source == before + text + after
    requires Events(source, 0) == Events(source, |before|) && NoneDeclared(source, |before + text|)
    requires after != [] ==> !IsIdentByte(after[0])
    ensures ScansTo(source, Cmdlet(name, aliases))
  {
    var p := TextIsAt(source, before, text, cmdlet, alias, ModifiersText(modifiers), after);
    HeardIsScanned(source, p, cmdlet, alias, modifiers, name, aliases);
  }

  lemma {:induction false} TextIsAt(
      source: string, before: string, text: string, cmdlet: string, alias: string, modifiers: string, after: string)
    returns (p: Places)
    requires text == Declared(cmdlet, alias, modifiers) && source == before + text + after
    ensures Laid(source, p, cmdlet, alias, modifiers) && p.cmdlet == |before| && p.keyword + 5 == |before + text|
    ensures after == [] ==> |source| == p.keyword + 5
    ensures after != [] ==> p.keyword + 5 < |source| && source[p.keyword + 5] == after[0]
  {
    p := PlacesOf(|before|, cmdlet, alias, modifiers);
    DeclaredIsLaid(before, cmdlet, alias, modifiers, after);
    DeclaredEnds(before, cmdlet, alias, modifiers);
    AfterIsThere(before + text, after);
  }

  lemma {:induction false} AfterIsThere(front: string, after: string)
    ensures after != [] ==> |front| < |front + after| && (front + after)[|front|] == after[0]
    ensures after == [] ==> |front + after| == |front|
  {}

  lemma {:induction false} DeclaredEnds(before: string, cmdlet: string, alias: string, modifiers: string)
    ensures |before + Declared(cmdlet, alias, modifiers)| == PlacesOf(|before|, cmdlet, alias, modifiers).keyword + 5
  {
    DeclaredInLines(cmdlet, alias, modifiers);
  }

  lemma {:induction false} DullDeclaresNothing(text: string, after: string)
    requires forall k | 0 <= k < |after| :: Dull(after[k])
    ensures NoneDeclared(text + after, |text|)
  {
    var source := text + after;
    forall k | |text| <= k < |source| ensures Dull(source[k]) {
      assert source[k] == after[k - |text|];
    }
    EventsOverDull(source, |text|, |source|);
    assert Events(source, |source|) == [];
  }

  lemma {:induction false} NothingIsBefore(text: string, after: string)
    ensures [] + text + after == text + after && [] + text == text
  {}

  /** The whole of such a file, ` X {}` or the like being what follows its keyword. */
  lemma {:induction false} FileIsScanned(
      text: string, after: string, verbAs: Spelling, verb: string, nounAs: Spelling, noun: string,
      aliases: seq<string>, modifiers: seq<string>)
    requires CanSpell(verbAs, verb) && CanSpell(nounAs, noun) && AreModifiers(modifiers)
    requires text == ClassText(verbAs, verb, nounAs, noun, aliases, modifiers)
    requires (after != [] ==> !IsIdentByte(after[0])) && forall k | 0 <= k < |after| :: Dull(after[k])
    ensures ScansTo(text + after, Cmdlet(verb + "-" + noun, aliases))
  {
    DullDeclaresNothing(text, after);
    NothingIsBefore(text, after);
    WrittenIsScanned([], text, after, verbAs, verb, nounAs, noun, aliases, modifiers);
  }
}
