/** How C# spells a cmdlet's attributes, and that crates/cargo-pwrs/src/generate.rs reads
    their words back. */
module WrittenAttributes {
  import opened Results
  import opened Text
  import opened CSharpLiterals
  import opened Scanner
  import opened Attributes
  import opened HybridCmdlets

  // ----- how a cmdlet is written -----

  /** How an attribute's word is spelled: as a literal, or as a constant of a class. */
  datatype Spelling = Quoted | Constant(class_: string)

  predicate CanSpell(how: Spelling, word: string) {
    match how
    case Quoted => forall k | 0 <= k < |word| :: word[k] != '"' && word[k] != '\\'
    case Constant(class_) => class_ in VERB_CLASSES && word != [] && forall k | 0 <= k < |word| :: IsIdentByte(word[k])
  }

  function Spelled(how: Spelling, word: string): string {
    match how
    case Quoted => "\"" + word + "\""
    case Constant(class_) => class_ + "." + word
  }

  /** The verb and the noun of `[Cmdlet(..)]`, as spelled. */
  function Arguments(verb: string, noun: string): string {
    verb + COMMA + noun
  }

  const CMDLET_CALL: string := "Cmdlet("

  const ALIAS_CALL: string := "Alias("

  function CmdletText(verb: string, noun: string): string {
    CMDLET_CALL + Arguments(verb, noun) + ")"
  }

  function AliasText(aliases: seq<string>): string {
    ALIAS_CALL + Listed(aliases) + ")"
  }

  lemma {:induction false} VerbClassIs(class_: string)
    requires class_ in VERB_CLASSES
    ensures class_ != [] && class_[0] == 'V'
    ensures forall k | 0 <= k < |class_| :: 'A' <= class_[k] <= 'Z' || 'a' <= class_[k] <= 'z'
  {}

  lemma {:induction false} CallsAre()
    ensures |CMDLET_CALL| == 7 && CMDLET_CALL[6] == '(' && forall k | 0 <= k < 6 :: 'A' <= CMDLET_CALL[k] <= 'z'
    ensures |ALIAS_CALL| == 6 && ALIAS_CALL[5] == '(' && forall k | 0 <= k < 5 :: 'A' <= ALIAS_CALL[k] <= 'z'
    ensures forall k | 0 <= k < 7 :: Dull(CMDLET_CALL[k])
    ensures forall k | 0 <= k < 6 :: Dull(ALIAS_CALL[k])
    ensures |COMMA| == 2 && COMMA[0] == ',' && COMMA[1] == ' '
  {}

  lemma {:induction false} FirstStands(b: string, i: nat, s: string)
    requires s != [] && Stands(b, i, s)
    ensures i < |b| && b[i] == s[0]
  {
    assert b[i + 0] == s[0];
  }

  lemma {:induction false} CallStands(b: string, i: nat, call: string, args: string)
    requires Stands(b, i, call + args + ")")
    ensures |call + args + ")"| == |call| + |args| + 1
    ensures Stands(b, i, call) && Stands(b, i + |call|, args)
    ensures var n := i + |call| + |args|; n < |b| && b[n] == ')'
  {
    StandsInThree(b, i, call, args, ")");
    FirstStands(b, i + |call| + |args|, ")");
  }

  // ----- splitting -----

  /** Nothing there starts a literal, opens or closes a bracket or splits. */
  predicate Unsplit(b: string, k: nat)
    requires k < |b|
  {
    && b[k] != '"' && b[k] != '\'' && b[k] != ',' && b[k] !in "([{" && b[k] !in ")]}"
    && (b[k] == '@' && k + 1 < |b| ==> b[k + 1] != '"')
  }

  lemma {:induction false} UnsplitArePassed(b: string, i: nat, n: nat, depth: nat, start: nat)
    requires i <= n <= |b| && start <= |b| && forall k | i <= k < n :: Unsplit(b, k)
    ensures PartsFrom(b, i, depth, start) == PartsFrom(b, n, depth, start)
    decreases n - i
  {
    if i < n {
      assert Unsplit(b, i);
      UnsplitArePassed(b, i + 1, n, depth, start);
    }
  }

  lemma {:induction false} IdentByteIs(c: char)
    requires IsIdentByte(c)
    ensures c != '"' && c != '\'' && c != ',' && c !in "([{" && c !in ")]}" && c != '.' && !IsSpace(c)
  {}

  lemma {:induction false} ConstantIsUnsplit(b: string, i: nat, class_: string, word: string)
    requires CanSpell(Constant(class_), word) && Stands(b, i, Spelled(Constant(class_), word))
    requires var n := i + |Spelled(Constant(class_), word)|; n < |b| ==> b[n] != '"'
    ensures forall k | i <= k < i + |Spelled(Constant(class_), word)| :: Unsplit(b, k)
  {
    var text := Spelled(Constant(class_), word);
    ConstantIs(class_, word);
    forall k | i <= k < i + |text| ensures Unsplit(b, k) {
      assert b[i + (k - i)] == text[k - i];
      if text[k - i] != '.' {
        IdentByteIs(text[k - i]);
      }
      assert k + 1 < i + |text| ==> b[i + (k + 1 - i)] == text[k + 1 - i];
    }
  }

  lemma {:induction false} ConstantIs(class_: string, word: string)
    requires CanSpell(Constant(class_), word)
    ensures var text := Spelled(Constant(class_), word);
            && |text| == |class_| + 1 + |word| && class_ != [] && text[0] == 'V' && text[|class_|] == '.'
            && (forall k | 0 <= k < |text| && k != |class_| :: IsIdentByte(text[k]))
            && text[..|class_|] == class_ && text[|class_| + 1..] == word
  {
    VerbClassIs(class_);
    var text := Spelled(Constant(class_), word);
    assert text == class_ + ("." + word);
    assert forall k | 0 <= k < |class_| :: text[k] == class_[k];
    assert forall k | |class_| < k < |text| :: text[k] == word[k - |class_| - 1];
  }

  lemma {:induction false} QuotedStands(b: string, i: nat, word: string)
    requires CanSpell(Quoted, word) && Stands(b, i, Spelled(Quoted, word))
    ensures var n := i + 1 + |word|;
            n < |b| && b[i] == '"' && b[n] == '"' && forall k | i < k < n :: b[k] != '"' && b[k] != '\\'
  {
    StandsInThree(b, i, "\"", word, "\"");
    var n := i + 1 + |word|;
    FirstStands(b, i, "\"");
    FirstStands(b, n, "\"");
    forall k | i < k < n ensures b[k] != '"' && b[k] != '\\' {
      assert b[i + 1 + (k - i - 1)] == word[k - i - 1];
    }
  }

  lemma {:induction false} SpellingKeepsTogether(b: string, i: nat, how: Spelling, word: string, depth: nat, start: nat)
    requires CanSpell(how, word) && Stands(b, i, Spelled(how, word)) && start <= |b|
    requires var n := i + |Spelled(how, word)|; n < |b| ==> b[n] != '"'
    ensures PartsFrom(b, i, depth, start) == PartsFrom(b, i + |Spelled(how, word)|, depth, start)
  {
    match how
    case Quoted =>
      QuotedStands(b, i, word);
      StringEnds(b, i + 1, i + 1 + |word|);
    case Constant(class_) =>
      ConstantIsUnsplit(b, i, class_, word);
      UnsplitArePassed(b, i, i + |Spelled(how, word)|, depth, start);
  }

  lemma {:induction false} SpellingIs(how: Spelling, word: string)
    requires CanSpell(how, word)
    ensures var text := Spelled(how, word);
            text != [] && !IsSpace(text[0]) && !IsSpace(text[|text| - 1]) && text[0] != '('
  {
    match how
    case Quoted =>
    case Constant(class_) =>
      ConstantIs(class_, word);
      var text := Spelled(how, word);
      IdentByteIs(text[|text| - 1]);
  }

  /** The verb and the noun are the two arguments. */
  lemma {:induction false} ArgumentsSplit(verbAs: Spelling, verb: string, nounAs: Spelling, noun: string)
    requires CanSpell(verbAs, verb) && CanSpell(nounAs, noun)
    ensures PartsOf(Arguments(Spelled(verbAs, verb), Spelled(nounAs, noun))) ==
            [Spelled(verbAs, verb), " " + Spelled(nounAs, noun)]
  {
    var v, n := Spelled(verbAs, verb), Spelled(nounAs, noun);
    var b := Arguments(v, n);
    ArgumentsStand(b, 0, v, n);
    SplitInTwo(b, verbAs, verb, nounAs, noun);
    ArgumentsSliced(v, n);
  }

  lemma {:induction false} ArgumentsSliced(v: string, n: string)
    ensures var b := Arguments(v, n); |b| == |v| + 2 + |n| && b[..|v|] == v && b[|v| + 1..] == " " + n
  {
    assert COMMA == "," + " ";
  }

  lemma {:induction false} SplitInTwo(b: string, verbAs: Spelling, verb: string, nounAs: Spelling, noun: string)
    requires CanSpell(verbAs, verb) && CanSpell(nounAs, noun)
    requires var v, n := Spelled(verbAs, verb), Spelled(nounAs, noun);
             && Stands(b, 0, v) && Stands(b, |v| + 2, n) && |b| == |v| + 2 + |n|
             && b[|v|] == ',' && b[|v| + 1] == ' '
    ensures PartsOf(b) == [b[..|Spelled(verbAs, verb)|], b[|Spelled(verbAs, verb)| + 1..]]
  {
    var at := |Spelled(verbAs, verb)|;
    SpellingKeepsTogether(b, 0, verbAs, verb, 0, 0);
    SpellingKeepsTogether(b, at + 2, nounAs, noun, 0, at + 1);
    TwoParts(b, at);
  }

  lemma {:induction false} ArgumentsStand(b: string, i: nat, v: string, n: string)
    requires Stands(b, i, Arguments(v, n))
    ensures |Arguments(v, n)| == |v| + 2 + |n|
    ensures Stands(b, i, v) && Stands(b, i + |v| + 2, n)
    ensures i + |v| + 1 < |b| && b[i + |v|] == ',' && b[i + |v| + 1] == ' '
  {
    CallsAre();
    StandsInThree(b, i, v, COMMA, n);
    FirstStands(b, i + |v|, COMMA);
    assert b[i + |v| + 1] == COMMA[1];
  }

  lemma {:induction false} TwoParts(b: string, n: nat)
    requires n + 1 < |b| && b[n] == ',' && b[n + 1] == ' '
    requires PartsFrom(b, 0, 0, 0) == PartsFrom(b, n, 0, 0)
    requires PartsFrom(b, n + 2, 0, n + 1) == PartsFrom(b, |b|, 0, n + 1)
    ensures PartsOf(b) == [b[..n], b[n + 1..]]
  {
    CommaSplits(b, n, 0);
    assert b[0..n] == b[..n];
  }

  lemma {:induction false} LettersAreUnsplit(b: string, i: nat, n: nat)
    requires i <= n <= |b| && forall k | i <= k < n :: IsLetter(b[k])
    ensures forall k | i <= k < n :: Unsplit(b, k)
  {}

  predicate IsLetter(c: char) {
    'A' <= c <= 'Z' || 'a' <= c <= 'z'
  }

  /** A name, then arguments in parentheses. */
  predicate IsCall(b: string, n: nat) {
    0 < n < |b| - 1 && (forall k | 0 <= k < n :: IsLetter(b[k])) && b[n] == '(' && b[|b| - 1] == ')'
  }

  /** An attribute with its arguments in parentheses is one part. */
  lemma {:induction false} CallStaysTogether(b: string, n: nat)
    requires IsCall(b, n) && PartsFrom(b, n + 1, 1, 0) == PartsFrom(b, |b| - 1, 1, 0)
    ensures PartsOf(b) == [b]
  {
    LettersAreUnsplit(b, 0, n);
    UnsplitArePassed(b, 0, n, 0, 0);
    assert PartsFrom(b, n, 0, 0) == PartsFrom(b, n + 1, 1, 0);
    assert PartsFrom(b, |b| - 1, 1, 0) == PartsFrom(b, |b|, 0, 0);
    assert b[0..] == b;
  }

  lemma {:induction false} TextsAreCalls(verb: string, noun: string, aliases: seq<string>)
    ensures var b := CmdletText(verb, noun);
            && IsCall(b, 6) && b[..6] == CMDLET
            && b[7..|b| - 1] == Arguments(verb, noun) && Stands(b, 7, Arguments(verb, noun))
    ensures var b := AliasText(aliases);
            IsCall(b, 5) && b[..5] == ALIAS && b[6..|b| - 1] == Listed(aliases) && Stands(b, 6, Listed(aliases))
  {
    IsACall(CMDLET_CALL, Arguments(verb, noun));
    IsACall(ALIAS_CALL, Listed(aliases));
  }

  lemma {:induction false} IsACall(call: string, args: string)
    requires call == CMDLET_CALL || call == ALIAS_CALL
    ensures var b := call + args + ")";
            && IsCall(b, |call| - 1) && b[..|call| - 1] == call[..|call| - 1]
            && b[|call|..|b| - 1] == args && Stands(b, |call|, args)
  {
    CallsAre();
    var b := call + args + ")";
    assert forall k | 0 <= k < |call| :: b[k] == call[k];
    assert b[|call| - 1] == '(' && b[|b| - 1] == ')';
  }

  lemma {:induction false} ArgumentsKeepTogether(
      b: string, i: nat, verbAs: Spelling, verb: string, nounAs: Spelling, noun: string)
    requires CanSpell(verbAs, verb) && CanSpell(nounAs, noun)
    requires Stands(b, i, Arguments(Spelled(verbAs, verb), Spelled(nounAs, noun)))
    requires var n := i + |Arguments(Spelled(verbAs, verb), Spelled(nounAs, noun))|; n < |b| ==> b[n] != '"'
    ensures PartsFrom(b, i, 1, 0) == PartsFrom(b, i + |Arguments(Spelled(verbAs, verb), Spelled(nounAs, noun))|, 1, 0)
  {
    var v, n := Spelled(verbAs, verb), Spelled(nounAs, noun);
    ArgumentsStand(b, i, v, n);
    SpellingKeepsTogether(b, i, verbAs, verb, 1, 0);
    CommaIsPassed(b, i + |v|, 1, 0);
    SpellingKeepsTogether(b, i + |v| + 2, nounAs, noun, 1, 0);
  }

  lemma {:induction false} CmdletStaysTogether(verbAs: Spelling, verb: string, nounAs: Spelling, noun: string)
    requires CanSpell(verbAs, verb) && CanSpell(nounAs, noun)
    ensures var text := CmdletText(Spelled(verbAs, verb), Spelled(nounAs, noun)); PartsOf(text) == [text]
  {
    var b := CmdletText(Spelled(verbAs, verb), Spelled(nounAs, noun));
    TextsAreCalls(Spelled(verbAs, verb), Spelled(nounAs, noun), []);
    ArgumentsKeepTogether(b, 7, verbAs, verb, nounAs, noun);
    CallStaysTogether(b, 6);
  }

  lemma {:induction false} AliasStaysTogether(aliases: seq<string>)
    ensures PartsOf(AliasText(aliases)) == [AliasText(aliases)]
  {
    var b := AliasText(aliases);
    TextsAreCalls([], [], aliases);
    ListedIsPassed(b, 6, aliases, 1, 0);
    CallStaysTogether(b, 5);
  }

  // ----- reading -----

  lemma {:induction false} NothingToTrim(s: string)
    requires s != [] && !IsSpace(s[0]) && !IsSpace(s[|s| - 1])
    ensures Trim(s, IsSpace) == s && TrimEnd(s, IsSpace) == s && Trim(" " + s, IsSpace) == s
  {
    assert (" " + s)[1..] == s;
  }

  lemma {:induction false} LastIndexIs(s: string, c: char, n: nat)
    requires n < |s| && s[n] == c && forall k | n < k < |s| :: s[k] != c
    ensures LastIndexOf(s, c) == Some(n)
  {
    if n < |s| - 1 {
      LastIndexIs(s[..|s| - 1], c, n);
    }
  }

  lemma {:induction false} ConstantReads(class_: string, word: string)
    requires CanSpell(Constant(class_), word)
    ensures AttributeWord(Spelled(Constant(class_), word)) == Some(word)
    ensures AttributeWord(" " + Spelled(Constant(class_), word)) == Some(word)
  {
    var text, n := Spelled(Constant(class_), word), |class_|;
    SpellingIs(Constant(class_), word);
    NothingToTrim(text);
    ConstantIs(class_, word);
    forall k | 0 <= k < |text| && k != n ensures text[k] != '.' {
      IdentByteIs(text[k]);
    }
    LastIndexIs(text, '.', n);
    forall k | 0 <= k < |class_| ensures class_[k] != '.' {
      assert class_[k] == text[k];
    }
    NoLastIndex(class_, '.');
  }

  lemma {:induction false} QuotedReads(word: string)
    requires CanSpell(Quoted, word)
    ensures AttributeWord(Spelled(Quoted, word)) == Some(word)
    ensures AttributeWord(" " + Spelled(Quoted, word)) == Some(word)
  {
    var text := Spelled(Quoted, word);
    SpellingIs(Quoted, word);
    NothingToTrim(text);
    assert text[1..|text| - 1] == word;
  }

  lemma {:induction false} SpellingReads(how: Spelling, word: string)
    requires CanSpell(how, word)
    ensures AttributeWord(Spelled(how, word)) == Some(word)
    ensures AttributeWord(" " + Spelled(how, word)) == Some(word)
  {
    match how
    case Quoted => QuotedReads(word);
    case Constant(class_) => ConstantReads(class_, word);
  }

  /** A cmdlet is named by its verb, a hyphen and its noun, however each is spelled. */
  lemma {:induction false} NameReadsBack(verbAs: Spelling, verb: string, nounAs: Spelling, noun: string)
    requires CanSpell(verbAs, verb) && CanSpell(nounAs, noun)
    ensures NameIn(Arguments(Spelled(verbAs, verb), Spelled(nounAs, noun))) == Some(verb + "-" + noun)
  {
    ArgumentsSplit(verbAs, verb, nounAs, noun);
    SpellingReads(verbAs, verb);
    SpellingReads(nounAs, noun);
  }

  /** An attribute's name and arguments are the text before and inside its parentheses. */
  lemma {:induction false} CallReads(a: string, n: nat)
    requires IsCall(a, n) && n < |ATTRIBUTE|
    ensures AttributeParts(a) == Some(Parts(a[..n], a[n + 1..|a| - 1]))
  {
    NothingToTrim(a);
    IndexIs(a, '(', n);
    RestIsClosed(a, n);
    NameIsBare(a[..n]);
  }

  lemma {:induction false} RestIsClosed(a: string, n: nat)
    requires n + 1 < |a| && a[|a| - 1] == ')'
    ensures var rest := TrimEnd(a[n + 1..], IsSpace);
            rest != [] && rest[|rest| - 1] == ')' && rest[..|rest| - 1] == a[n + 1..|a| - 1]
  {
    var rest := a[n + 1..];
    assert TrimEnd(rest, IsSpace) == rest;
    assert rest[..|rest| - 1] == a[n + 1..|a| - 1];
  }

  lemma {:induction false} NameIsBare(name: string)
    requires name != [] && |name| < |ATTRIBUTE| && forall k | 0 <= k < |name| :: IsLetter(name[k])
    ensures Bare(name) == name
  {
    NothingToTrim(name);
    NoLastIndex(name, '.');
  }

  lemma {:induction false} HearsCmdlet(h: Heard, verbAs: Spelling, verb: string, nounAs: Spelling, noun: string)
    requires CanSpell(verbAs, verb) && CanSpell(nounAs, noun)
    ensures var text := CmdletText(Spelled(verbAs, verb), Spelled(nounAs, noun));
            Hear(h, text) == Some(h.(name := Some(verb + "-" + noun))) && IsCmdlet(text)
  {
    TextsAreCalls(Spelled(verbAs, verb), Spelled(nounAs, noun), []);
    CallReads(CmdletText(Spelled(verbAs, verb), Spelled(nounAs, noun)), 6);
    NameReadsBack(verbAs, verb, nounAs, noun);
  }

  lemma {:induction false} HearsAliases(h: Heard, aliases: seq<string>)
    ensures Hear(h, AliasText(aliases)) == Some(h.(aliases := h.aliases + aliases)) && !IsCmdlet(AliasText(aliases))
  {
    TextsAreCalls([], [], aliases);
    CallReads(AliasText(aliases), 5);
    ListReadsBack(aliases);
    assert |CMDLET| == 6 && |ALIAS| == 5;
  }
}
