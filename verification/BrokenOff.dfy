/** A C# file that compiles and has no answer: its `[Alias]` ends in a comment the
    scanner skips and the reading of the attribute's arguments does not. */
module BrokenOff {
  import opened Results
  import opened Text
  import opened CSharpLiterals
  import opened Scanner
  import opened Attributes
  import opened HybridCmdlets
  import opened Comments

  /** A first line `[Cmdlet("Get", "X")]`. */
  const FIRST: string := "[Cmdlet(\"Get\", \"X\")]"

  /** What `Alias(` and `)` are around, the comment's text in it. */
  const ARGUMENTS: string := "\"a\") // \"\\"

  const CALL: string := "Alias("

  /** `Alias("a") // "\)` and the end of its line. */
  const ALIASED: string := CALL + ARGUMENTS + ")" + "\n"

  const LAST: string := "]\nclass C {}"

  const SOURCE: string := FIRST + "\n[" + ALIASED + LAST

  /** The characters the scan stops at, and that all others are dull. */
  lemma {:induction false} FirstIs()
    ensures |FIRST| == 20 && FIRST[0] == '[' && FIRST[19] == ']'
    ensures FIRST[8] == FIRST[12] == FIRST[15] == FIRST[17] == '"'
    ensures forall k | 0 < k < 19 && k != 8 && k != 12 && k != 15 && k != 17 :: Dull(FIRST[k]) && FIRST[k] != '\\'
  {}

  lemma {:induction false} AliasedIs()
    ensures |ARGUMENTS| == 10 && |CALL| == 6 && |ALIASED| == 18 && CALL[5] == '('
    ensures ARGUMENTS[0] == ARGUMENTS[2] == ARGUMENTS[8] == '"' && ARGUMENTS[9] == '\\' && ARGUMENTS[3] == ')'
    ensures ARGUMENTS[5] == ARGUMENTS[6] == '/'
    ensures forall k | 0 <= k < 10 && k !in {0, 2, 5, 6, 8, 9} :: Dull(ARGUMENTS[k])
    ensures ARGUMENTS[1] == 'a' && ARGUMENTS[4] == ARGUMENTS[7] == ' '
    ensures forall k | 0 <= k < 5 :: Dull(CALL[k]) && CALL[k] !in "([{" && CALL[k] !in ")]}" && CALL[k] != ','
    ensures Dull(CALL[5])
    ensures forall k | 0 <= k < 10 :: ARGUMENTS[k] != '\n' && ARGUMENTS[k] != '\''
  {}

  lemma {:induction false} LastIs()
    ensures |LAST| == 12 && LAST[0] == ']' && LAST[1] == '\n' && LAST[2..7] == CLASS
    ensures forall k | 7 <= k < 12 :: Dull(LAST[k])
    ensures LAST[7] == ' '
  {}

  lemma {:induction false} EventsOfLast(b: string, i: nat)
    requires i + |LAST| == |b| && b[i..] == LAST
    ensures Events(b, i) == [Close(i), Class(i + 2)]
  {
    LastIs();
    assert forall k | 0 <= k < 12 :: b[i + k] == LAST[k];
    assert b[i + 2..i + 7] == LAST[2..7];
    assert forall k | i + 7 <= k < |b| :: b[k] == LAST[k - i];
    EventsOverDull(b, i + 7, |b|);
    assert b[i + 1] == '\n' && !IsIdentByte('\n') && b[i + 7] == ' ';
    assert StepAt(b, i + 2) == Keyword;
    EventsOverDull(b, i + 1, i + 2);
  }

  lemma {:induction false} EventsOfAliased(b: string, i: nat)
    requires i + 18 < |b| && b[i..i + 18] == ALIASED && b[i + 18] == ']'
    ensures Events(b, i) == Events(b, i + 18)
  {
    AliasedIs();
    assert forall k | 0 <= k < 18 :: b[i + k] == ALIASED[k];
    assert forall k | 0 <= k < 6 :: b[i + k] == CALL[k];
    assert forall k | 0 <= k < 10 :: b[i + 6 + k] == ARGUMENTS[k];
    assert b[i + 16] == ')' && b[i + 17] == '\n';
    ArgumentsAreAt(b, i + 6);
    EventsOfArguments(b, i + 6);
    assert forall k | i <= k < i + 6 :: b[k] == CALL[k - i];
    EventsOverDull(b, i, i + 6);
  }

  /** `"a") // "\)` and the end of its line are in `b` at `i`. */
  predicate ArgumentsAt(b: string, i: nat) {
    && i + 12 < |b|
    && b[i] == '"' && b[i + 1] == 'a' && b[i + 2] == '"' && b[i + 3] == ')' && b[i + 4] == ' ' && b[i + 5] == '/'
    && b[i + 6] == '/' && b[i + 7] == ' ' && b[i + 8] == '"' && b[i + 9] == '\\' && b[i + 10] == ')' &&
       b[i + 11] == '\n'
  }

  lemma {:induction false} ArgumentsAreAt(b: string, i: nat)
    requires i + 12 < |b| && b[i + 10] == ')' && b[i + 11] == '\n'
    requires forall k | 0 <= k < 10 :: b[i + k] == ARGUMENTS[k]
    ensures ArgumentsAt(b, i)
  {
    AliasedIs();
    assert b[i + 0] == b[i];
  }

  lemma {:induction false} EventsOfString(b: string, i: nat)
    requires ArgumentsAt(b, i)
    ensures Events(b, i) == Events(b, i + 5)
  {
    EventsOverDull(b, i + 3, i + 5);
    EventsOverString(b, i, i + 2);
  }

  lemma {:induction false} EventsOfArguments(b: string, i: nat)
    requires ArgumentsAt(b, i)
    ensures Events(b, i) == Events(b, i + 12)
  {
    EventsOverDull(b, i + 11, i + 12);
    EventsOverComment(b, i + 5, i + 11);
    EventsOfString(b, i);
  }

  lemma {:induction false} EventsOfTheWords(b: string)
    requires |b| > 20 && b[8] == b[12] == b[15] == b[17] == '"' && Dull(b[13]) && Dull(b[14]) && Dull(b[18])
    requires forall k | 8 < k < 12 || k == 16 :: b[k] != '"' && b[k] != '\\'
    ensures Events(b, 8) == Events(b, 19)
  {
    EventsOverDull(b, 18, 19);
    EventsOverString(b, 15, 17);
    EventsOverDull(b, 13, 15);
    EventsOverString(b, 8, 12);
  }

  lemma {:induction false} EventsOfFirst(b: string)
    requires |b| > 20 && b[..20] == FIRST
    ensures Events(b, 0) == [Open(0), Close(19)] + Events(b, 20)
  {
    FirstIs();
    assert forall k | 0 <= k < 20 :: b[k] == FIRST[k];
    EventsOfTheWords(b);
    EventsOverDull(b, 1, 8);
    assert Events(b, 19) == [Close(19)] + Events(b, 20);
    assert Events(b, 0) == [Open(0)] + Events(b, 1);
  }

  lemma {:induction false} SourceIs()
    ensures |SOURCE| == 52 && SOURCE[..20] == FIRST && SOURCE[20] == '\n' && SOURCE[21] == '['
    ensures SOURCE[22..40] == ALIASED && SOURCE[40..] == LAST && SOURCE[40] == ']' && SOURCE[41] == '\n'
  {
    FirstIs();
    AliasedIs();
    LastIs();
    var line := "\n[";
    assert SOURCE == FIRST + (line + ALIASED + LAST) && SOURCE == FIRST + line + (ALIASED + LAST);
  }

  lemma {:induction false} EventsOfSource()
    ensures Events(SOURCE, 0) == [Open(0), Close(19), Open(21), Close(40), Class(42)]
  {
    SourceIs();
    LastIs();
    EventsOfLast(SOURCE, 40);
    EventsOfAliased(SOURCE, 22);
    assert Events(SOURCE, 21) == [Open(21)] + Events(SOURCE, 22);
    EventsOverDull(SOURCE, 20, 21);
    EventsOfFirst(SOURCE);
  }

  lemma {:induction false} FoundInSource()
    ensures NeverOverCloses(Events(SOURCE, 0), 0)
    ensures FoundIn(SOURCE) == Found([Group(0, 20), Group(21, 41)], [42])
  {
    EventsOfSource();
    FoldsOne(Open(0), [Close(19), Open(21), Close(40), Class(42)], 0, 0);
    FoldsOne(Close(19), [Open(21), Close(40), Class(42)], 1, 0);
    FoldsOne(Open(21), [Close(40), Class(42)], 0, 0);
    FoldsOne(Close(40), [Class(42)], 1, 21);
    FoldsOne(Class(42), [], 0, 21);
    assert [Close(19), Open(21), Close(40), Class(42)][1..] == [Open(21), Close(40), Class(42)];
    assert [Open(21), Close(40), Class(42)][1..] == [Close(40), Class(42)];
    assert [Close(40), Class(42)][1..] == [Class(42)];
    assert [Class(42)][1..] == [];
    var es := [Open(0), Close(19), Open(21), Close(40), Class(42)];
    assert es[1..] == [Close(19), Open(21), Close(40), Class(42)];
  }

  // ----- the alias -----

  lemma {:induction false} AliasedParts()
    ensures PartsOf(ALIASED) == [ALIASED]
  {
    var b := ALIASED;
    AliasedIs();
    assert forall k | 0 <= k < 6 :: b[k] == CALL[k];
    assert forall k | 6 <= k < 16 :: b[k] == ARGUMENTS[k - 6];
    PlainParts(b, 0, 5, 0);
    assert PartsFrom(b, 5, 0, 0) == PartsFrom(b, 6, 1, 0);
    StringEnds(b, 7, 8);
    assert PartsFrom(b, 6, 1, 0) == PartsFrom(b, 9, 1, 0);
    assert PartsFrom(b, 9, 1, 0) == PartsFrom(b, 10, 0, 0);
    CommentParts(b);
  }

  lemma {:induction false} CommentParts(b: string)
    requires |b| == 18 && b[14] == '"' && b[15] == '\\' && b[17] != '"' && b[17] != '\\'
    requires b[11] == b[12] == '/' && b[10] == b[13] == ' '
    ensures PartsFrom(b, 10, 0, 0) == [b]
  {
    PlainParts(b, 10, 14, 0);
    assert LiteralEnd(b, 14) == QuotedEnd(b, '"', 15) == QuotedEnd(b, '"', 17);
    assert QuotedEnd(b, '"', 17) == QuotedEnd(b, '"', 18) == 18;
    assert PartsFrom(b, 14, 0, 0) == PartsFrom(b, 18, 0, 0);
    assert b[0..] == b;
  }

  lemma {:induction false} PlainParts(b: string, i: nat, n: nat, depth: nat)
    requires i <= n <= |b|
    requires forall k | i <= k < n :: Dull(b[k]) || b[k] == '/'
    requires forall k | i <= k < n :: b[k] !in "([{" && b[k] !in ")]}" && b[k] != ','
    ensures PartsFrom(b, i, depth, 0) == PartsFrom(b, n, depth, 0)
    decreases n - i
  {
    if i < n {
      PlainParts(b, i + 1, n, depth);
    }
  }

  lemma {:induction false} DullReads(s: string, i: nat, n: nat)
    requires i <= n <= |s| && forall k | i <= k < n :: s[k] != '"' && s[k] != '\'' && s[k] != '@'
    ensures ReadFrom(s, i, Plain) == ReadFrom(s, n, Plain)
    decreases n - i
  {
    if i < n {
      DullReads(s, i + 1, n);
    }
  }

  lemma {:induction false} ArgumentsEndInsideAnEscape()
    ensures EndsInsideAnEscape(ARGUMENTS)
  {
    var s := ARGUMENTS;
    AliasedIs();
    assert ReadFrom(s, 9, Ordinary('"')) == ReadFrom(s, 10, Escape('"'));
    assert ReadFrom(s, 8, Plain) == ReadFrom(s, 9, Ordinary('"'));
    DullReads(s, 3, 8);
    assert ReadFrom(s, 0, Plain) == ReadFrom(s, 1, Ordinary('"')) == ReadFrom(s, 2, Ordinary('"')) ==
        ReadFrom(s, 3, Plain);
  }

  lemma {:induction false} AliasBreaksOff()
    ensures BreaksOff(ALIASED)
  {
    AliasedReads();
    ArgumentsEndInsideAnEscape();
  }

  lemma {:induction false} AliasedTrimmed()
    ensures Trim(ALIASED, IsSpace) == CALL + ARGUMENTS + ")"
  {
    AliasedIs();
    var trimmed := CALL + ARGUMENTS + ")";
    assert ALIASED == trimmed + "\n";
    assert ALIASED[0] == CALL[0] == 'A';
    assert TrimStart(ALIASED, IsSpace) == ALIASED;
    assert trimmed[|trimmed| - 1] == ')';
    assert TrimEnd(trimmed, IsSpace) == trimmed;
    assert ALIASED[..|ALIASED| - 1] == trimmed;
  }

  lemma {:induction false} AliasedReads()
    ensures AttributeParts(ALIASED) == Some(Parts(ALIAS, ARGUMENTS))
  {
    var trimmed := CALL + ARGUMENTS + ")";
    AliasedIs();
    AliasedTrimmed();
    assert forall k | 0 <= k < 6 :: trimmed[k] == CALL[k];
    IndexIs(trimmed, '(', 5);
    var rest := trimmed[6..];
    assert rest == ARGUMENTS + ")";
    assert TrimEnd(rest, IsSpace) == rest;
    assert rest[..|rest| - 1] == ARGUMENTS;
    assert trimmed[..5] == CALL[..5] == ALIAS;
    AliasIsBare();
  }

  lemma {:induction false} AliasIsBare()
    ensures Bare(ALIAS) == ALIAS
  {
    assert Trim(ALIAS, IsSpace) == ALIAS;
    NoLastIndex(ALIAS, '.');
    assert |ALIAS| == 5 && |ATTRIBUTE| == 9;
  }

  // ----- the file -----

  /** The code brackets of the file balance, and it has no answer. */
  lemma {:induction false} FileHasNoAnswer()
    ensures NeverOverCloses(Events(SOURCE, 0), 0)
    ensures Read(SOURCE, FoundIn(SOURCE)) && SomeBreaksOff(SOURCE, FoundIn(SOURCE))
    ensures var f := FoundIn(SOURCE); f.classes == [42] && CmdletsOf(SOURCE, f.groups, f.classes, 1) == None
  {
    var f := Found([Group(0, 20), Group(21, 41)], [42]);
    FoundInSource();
    ScanIsRead(SOURCE);
    SourceIs();
    AliasIsInTheRun();
    AliasGroupBreaksOff();
    ClassBreaksOffIs(SOURCE, f.groups, 42);
    NoAnswerExactlyWhenAnAliasBreaksOff(SOURCE, f.groups, f.classes, 1);
  }

  lemma {:induction false} AliasIsInTheRun()
    ensures |SOURCE| == 52 && Group(21, 41) in AttributesOf(SOURCE, [Group(0, 20), Group(21, 41)], 42)
  {
    var groups := [Group(0, 20), Group(21, 41)];
    SourceIs();
    assert SOURCE[41..42] == "\n";
    NewlineIsAGap();
    assert RunBefore(SOURCE, groups, 2, 42) == RunBefore(SOURCE, groups, 1, 21) + [Group(21, 41)];
  }

  lemma {:induction false} AliasGroupBreaksOff()
    ensures GroupBreaksOff(SOURCE, Group(21, 41))
  {
    SourceIs();
    AliasedParts();
    AliasBreaksOff();
    assert AttributesIn(SOURCE, Group(21, 41)) == [ALIASED];
    AnyFromIs([ALIASED], 0, BreaksOff);
    assert [ALIASED][0] == ALIASED;
  }
}
