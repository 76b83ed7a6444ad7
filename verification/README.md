# A verified model of cargo-pwrs

`cargo-pwrs` turns a Rust crate into a PowerShell module. This project models its
algorithms in Dafny and proves what each of them is for. Run `dafny verify dfyconfig.toml`
to check all of it.

The model has seven groups. Each imperative part of the source is a method proved equal to
a specification function, or against the property itself; the theorems are lemmas about
those functions.

- **`cfg(...)` expressions** (`CfgSyntax`, `CfgParser`, `CfgGrammar`, `CfgRoundTrip`,
  `CfgMeaning`, `NativeFiles`, `WireAudit`, `TestPredicates`, `CfgPredicate`). A lexer and
  a recursive-descent parser over mutable state, proved sound, complete and unambiguous
  against a grammar stated as derivation trees, with a print-then-parse round trip over
  text and the meaning of a tree as its disjunctive normal form. `test_only`, a Python
  script's reading of the same text, is proved to say yes of exactly the derivations it
  should, and so sound against the same meaning.
- **SPDX expressions and linked crates** (`SpdxSyntax`, `SpdxParser`, `SpdxGrammar`,
  `SpdxUnambiguous`, `SpdxRoundTrip`, `SpdxReading`, `SpdxAnnexD`, `Licenses`,
  `LinkedCrates`, `Ordering`). The grammar is that of Annex D of SPDX Specification 2.3 but
  for one production, and the model says exactly when the two agree.
- **The download store** (`DownloadStore`, `FetchAlone`). Every file-system call is a step;
  any number of builds interleave, crash, and meet renames that replace or fail. With one
  build at work the steps are proved to do what the whole of `fetch` does.
- **The .NET member planner** (`Conversions`, `Members`, `MemberFit`, `FitExactly`,
  `GivesComplete`, `MethodBody`, `PlanTarget`, `RenderMembers`, `OverloadKeys`, `Overloads`,
  `CSharpLines`, `TargetMerge`, `DeclaredMembers`). From how one value converts, through
  exactly which methods fit which members, where each value of a call goes and what the
  generated body does when it runs, to the one text two targets compile: every abstract
  part of a planned class is declared once and runs what backs it.
- **Hand-written C#** (`CSharpLiterals`, `Scanner`, `Comments`, `Attributes`,
  `HybridCmdlets`, `WrittenAttributes`, `WrittenCmdlets`, `BrokenOff`, `ShowOverride`). The
  byte scanner, the literals it shares with the generator, the cmdlets it reads back from
  any class written with them, and the format compiler.
- **Generated cmdlets** (`CmdletMasks`). 64-bit word masks as a refinement of sets of
  parameters over any run of calls.
- **Merging and publishing** (`ModuleFolders`, `ModuleMerge`, `MergeExactly`, `Publish`).
  When builds merge, and to what, both as the loops go and said of all of them at once.

## What the code does that its documentation does not say

The model follows the code. Each of these is proved, as a concrete input, as the exact
condition under which the documented behaviour holds, or as both.

- A download whose own name ends in `.partial-<pid>` can be overwritten after `fetch`
  returned it. `DownloadStore.NeverWrongExactlyWhenApart` is the exact condition.
- `(MIT) WITH x` is accepted, which Annex D does not derive
  (`SpdxAnnexD.AgreesWithAnnexD`, `SpdxAnnexD.GroupedNameTakesWith`).
- Any type becomes `object`, and `object` becomes `object?`, but no other type becomes
  `object?`: implicit conversion composes except through `object`
  (`Conversions.ImplicitComposes`).
- `widens`, which its comment calls C#'s implicit numeric conversions, has no `nint` to
  `long`, which C# converts; it is otherwise exactly the types that hold every value on
  32-bit and 64-bit platforms alike (`Conversions.WidensExactlyToWhatHoldsIt`).
- A stray `]` makes a group of a stale start. The scan's promises hold exactly when code
  brackets never close more than they open
  (`Scanner.WellPlacedExactlyWhenNeverOverClosed`), and a file beginning with one gives a
  group that cannot be sliced (`Scanner.StrayBracketGivesAnEmptyGroup`).
- Text ending inside an escape makes `skip_literal` return one past the end, which
  `string_literals` then slices by. That is exactly when the last string opened is an
  ordinary one, is never closed, and ends in a backslash that escapes nothing
  (`CSharpLiterals.NoAnswerExactlyInsideAnEscape`), and a file has no answer exactly when
  an `[Alias]` of one of its classes does (`HybridCmdlets.NoAnswerExactlyWhenAnAliasBreaksOff`).
  `BrokenOff.FileHasNoAnswer` is a file whose brackets balance: the scanner skips a comment
  that the reading of the arguments does not.
- Two pieces of one key would lose the second text in the target merge
  (`TargetMerge.RepeatedKeyLosesText`). `RenderMembers.Render` proves that the keys of the
  methods and properties it declares on one target are distinct.
- A matched getter and setter of one key are declared together exactly when the first match
  of the key is no method (`RenderMembers.AccessorsLandTogether`), which holds of every
  planned class (`DeclaredMembers.PlannedAccessorsLandTogether`).
- A merged folder also needs a `runtimes` folder in every bundled module, not only clean
  records (`Publish.PublishableAfterMerge`).
- `merge_runtimes` refuses a runtime identifier that is already there when it comes to it,
  and its comment says before anything is copied. A folder listed linux-x64 before win-x64
  has the first copied when the second is refused
  (`ModuleMerge.LinuxIsCopiedBeforeWindowsIsRefused`). The comment holds, whatever order the
  folder is listed in, exactly when none of the runtimes is there yet or all of them are
  (`ModuleMerge.RefusedBeforeCopyingExactlyWhen`).
- `r#true` and `r#false` are the constants, not names
  (`CfgRoundTrip.RawConstantIsTheConstant`).

## Model

| member | source | states |
|---|---|---|
| CfgParser.Tokens | crates/cargo-pwrs/src/cfg.rs:84-120 | the lexer's loop computes `CfgSyntax.Lex` on every text, refusals included |
| CfgParser.Parser.Expr | crates/cargo-pwrs/src/cfg.rs:149-179 | the mutable parser takes from its tokens exactly what the grammar's reading takes and leaves the same tokens, or refuses alike |
| CfgParser.Parser.Items | crates/cargo-pwrs/src/cfg.rs:153-167 | the loop over a list's items, trailing comma included, does the same |
| CfgParser.Parser.Value | crates/cargo-pwrs/src/cfg.rs:181-201 | a name or a key and string, with what it refuses |
| CfgParser.ParseText | crates/cargo-pwrs/src/cfg.rs:218-223 | lexing, parsing and the check that nothing is left give `CfgSyntax.Parse` |
| CfgGrammar.ParserAcceptsTheGrammar | crates/cargo-pwrs/src/cfg.rs:149-209 | the parser gives a tree for a token list if and only if the grammar derives that tree from it |
| CfgGrammar.GrammarIsUnambiguous | crates/cargo-pwrs/src/cfg.rs:149-201 | two derivations of one token list are the same derivation |
| CfgRoundTrip.LexerReadsSpellings | crates/cargo-pwrs/src/cfg.rs:84-120 | a text lexes to a token list exactly when it spells that list with some spaces, enough to keep names apart |
| CfgRoundTrip.PrintThenParse | crates/cargo-pwrs/src/cfg.rs:84-223 | printing a well-formed tree, its names raw, with any spaces between its tokens, and parsing the text gives the tree |
| CfgRoundTrip.ParseGivesTheWellFormed | crates/cargo-pwrs/src/cfg.rs:218-223 | the trees some text parses to are exactly the well-formed ones |
| CfgRoundTrip.RawConstantIsTheConstant | crates/cargo-pwrs/src/cfg.rs:172-176 | the constants are read the same written raw |
| CfgMeaning.MatchesSomeClause | crates/cargo-pwrs/src/cfg.rs:34-47 | a target matches an expression exactly when it has all and lacks all that some alternative of its disjunctive normal form says, `not` carried to the names |
| CfgMeaning.WordParses | crates/cargo-pwrs/src/cfg.rs:84-223 | a word of ASCII letters, digits and underscores that is no operator or constant parses to its name |
| NativeFiles.NonTargetNameFindsAny | crates/cargo-pwrs/src/cfg.rs:228-236 | a name is found exactly when the expression mentions `test`, `debug_assertions`, `proc_macro` or a feature |
| NativeFiles.ScopeExactlyWhen | crates/cargo-pwrs/src/native_files.rs:72-86 | a table's key scopes its entries by an expression exactly when it is `cfg(...)` around a text that parses to it and mentions nothing of the compilation |
| NativeFiles.MatchesSeesOnlyTheTarget | crates/cargo-pwrs/src/cfg.rs:34-47 | an expression with no such name matches alike on targets that differ in nothing else |
| NativeFiles.Applying | crates/cargo-pwrs/src/native_files.rs:178-190 | the loop gives the entries in scope, or the first two that are one file |
| NativeFiles.EachAppliesByItself | crates/cargo-pwrs/src/native_files.rs:178-190 | an entry applies exactly when it has no scope or the target satisfies it, whatever is listed around it, and stays in its place |
| NativeFiles.ApplyingGivesTheApplicable | crates/cargo-pwrs/src/native_files.rs:178-190 | it succeeds exactly when no two applicable entries are named alike, case aside, and then gives all of them in order |
| NativeFiles.ApplyingSeesOnlyTheTarget | crates/cargo-pwrs/src/native_files.rs:72-86 | scopes read from a manifest make the same entries, or the same refusal, whatever is being compiled for one target |
| WireAudit.SplitTerms | tools/wire_audit.py:98-116 | the loop computes the terms between top-level commas |
| WireAudit.TermsAreItems | tools/wire_audit.py:98-116 | on the tokens of a list's items the terms are exactly the items, a trailing comma adding none |
| WireAudit.SplitLexes | tools/wire_audit.py:98-116 | each term of a text lexes to the term of its tokens at that place, strings with commas and parentheses included |
| WireAudit.TermsParse | tools/wire_audit.py:98-132 | each term of a list's text parses to the item the parser has at that place |
| WireAudit.TestOnlyIsSound | tools/wire_audit.py:119-132 | text the cfg parser accepts and `test_only` says yes to matches no target without `test` |
| TestPredicates.TestOnlyExactlyWhen | tools/wire_audit.py:119-132 | on every text that parses `test_only` says yes if and only if its derivation is the name `test` not written raw, an `all` with such an item, or a non-empty `any` of such items |
| CfgPredicate.FindPredicate | tools/wire_audit.py:77-95 | the loop finds the closing parenthesis `ClosingAt` specifies, or that there is none |
| CfgPredicate.PredicateIsFound | tools/wire_audit.py:77-95 | the predicate of any cfg attribute is found whole wherever it stands in a file |
| SpdxParser.Tokens | crates/cargo-pwrs/src/notices.rs:95-116 | the loop computes the words, `/` read as `OR` |
| SpdxParser.Parser.Any | crates/cargo-pwrs/src/notices.rs:134-141 | the loop over OR takes what the grammar's reading takes, left-associated |
| SpdxParser.Parser.All | crates/cargo-pwrs/src/notices.rs:143-150 | the loop over AND likewise |
| SpdxParser.Parser.With | crates/cargo-pwrs/src/notices.rs:152-163 | WITH binds to one license, by the tree alone |
| SpdxParser.Parser.Primary | crates/cargo-pwrs/src/notices.rs:165-176 | a group in parentheses or a name |
| SpdxParser.ParseText | crates/cargo-pwrs/src/notices.rs:190-200 | words, parse and the check for words left over give `SpdxSyntax.Parse` |
| SpdxGrammar.ParserAcceptsTheGrammar | crates/cargo-pwrs/src/notices.rs:124-200 | a word list parses to a tree if and only if the grammar with WITH over AND over OR, both left-associative, derives it |
| SpdxGrammar.CaseOfOperatorsDoesNotMatter | crates/cargo-pwrs/src/notices.rs:118-132 | words that differ in the case of operators alone parse alike |
| SpdxUnambiguous.GrammarIsUnambiguous | crates/cargo-pwrs/src/notices.rs:124-188 | two derivations of one word list are the same derivation |
| SpdxUnambiguous.ParseGivesTheWellFormed | crates/cargo-pwrs/src/notices.rs:190-200 | the expressions some text parses to are exactly the well-formed ones |
| SpdxRoundTrip.PrintThenParse | crates/cargo-pwrs/src/notices.rs:95-200 | printing any expression with minimal parentheses and any white space that separates its words, and parsing it, gives it back |
| SpdxRoundTrip.PrintAnyIsFewest | crates/cargo-pwrs/src/notices.rs:134-176 | no derivation of the expression has fewer parentheses than its print |
| SpdxRoundTrip.SlashParsesAsOr | crates/cargo-pwrs/src/notices.rs:95-116 | `/` anywhere parses as ` OR ` there |
| SpdxReading.OperatorsJoinNames | crates/cargo-pwrs/src/notices.rs:118-200 | between two names `AND`, `OR` and `WITH` parse to the expressions they say |
| SpdxAnnexD.AgreesWithAnnexD | crates/cargo-pwrs/src/notices.rs:152-163 | the parser agrees with Annex D exactly where no WITH follows a closing parenthesis |
| SpdxAnnexD.GroupedNameTakesWith | crates/cargo-pwrs/src/notices.rs:152-163 | `(MIT) WITH x` parses and Annex D does not derive it |
| Licenses.SatisfiedBySomeClause | crates/cargo-pwrs/src/notices.rs:219-227 | satisfied exactly when some clause of the disjunctive normal form is wholly allowed |
| Licenses.OrLaterAsksNoMore | crates/cargo-pwrs/src/notices.rs:203-227 | a license with `+` is satisfied exactly when the license itself is, alone or with an exception |
| Licenses.CaseOfNamesDoesNotMatter | crates/cargo-pwrs/src/notices.rs:219-221 | a name is allowed exactly when an entry has its characters but for the case of ASCII letters |
| Licenses.OnlyFromCratesIoExactlyWhen | crates/cargo-pwrs/src/notices.rs:417-433 | the refusal that names crates.io is given exactly to a refused crate that would ship had it come from there |
| Licenses.RefusalIsMonotone | crates/cargo-pwrs/src/notices.rs:417-433 | allowing more licenses refuses no crate that could ship |
| Licenses.ShipsExactlyWhenAllowed | crates/cargo-pwrs/src/notices.rs:417-433 | a crate ships exactly when some clause is allowed by the list, and for one from crates.io by the list with the license allowed from there |
| LinkedCrates.Walk | crates/cargo-pwrs/src/notices.rs:351-396 | the worklist ends on every graph, cyclic ones included, with exactly the ids reachable by one or more normal edges through packages that are not proc macros, or a node it cannot read |
| LinkedCrates.SortBySorts | crates/cargo-pwrs/src/notices.rs:405-411 | the order by name and version is a permutation of what is sorted |
| LinkedCrates.FromMetadata | crates/cargo-pwrs/src/notices.rs:351-411 | those crates, each once, sorted, exactly when every node visited can be read and every crate has a name and version |
| DownloadStore.PartialsDiffer | crates/cargo-pwrs/src/native_files.rs:251-299 | no two builds download to one file |
| DownloadStore.StepKeeps | crates/cargo-pwrs/src/native_files.rs:251-299 | every step of every build keeps what each build past its check relies on |
| DownloadStore.FetchedIsNeverWrong | crates/cargo-pwrs/src/native_files.rs:251-299 | in every state of every interleaving, from any store and with crashes, what a build fetched is absent or has its pinned hash |
| DownloadStore.FetchedStays | crates/cargo-pwrs/src/native_files.rs:251-299 | from a store with no wrong file, what a build fetched is there with its hash in every later state |
| DownloadStore.ClashBreaksIt | crates/cargo-pwrs/src/native_files.rs:209-221 | a run in which a file another build downloads to replaces a fetched one |
| DownloadStore.NeverWrongExactlyWhenApart | crates/cargo-pwrs/src/native_files.rs:251-299 | safety over all runs holds if and only if no entry keeps its file where another downloads to |
| DownloadStore.Store.Fetch | crates/cargo-pwrs/src/native_files.rs:251-299 | one build alone, whatever the system answers: exactly when it succeeds, the store it leaves, when a wrong file stays, what is left of the download, and that it touches no other file |
| FetchAlone.RunRefinesFetch | crates/cargo-pwrs/src/native_files.rs:251-299 | from any store the run of steps the system's answers lead one build through ends with the file fetched exactly when `Store.Fetch` returns it, failed otherwise, in the store that call leaves |
| FetchAlone.RefusedRename | crates/cargo-pwrs/src/native_files.rs:291-298 | a build whose rename is refused has its file exactly when another's is there by then, and discards its own download |
| Conversions.WideningComposes | crates/cargo-pwrs/src/bases.rs:308-323 | numeric widening composes and no type widens to itself |
| Conversions.WidensExactlyToWhatHoldsIt | crates/cargo-pwrs/src/bases.rs:308-323 | a number widens exactly to the others that hold its every value, but to no char and not from `nint` to `long` |
| Conversions.ImplicitExactlyWhen | crates/cargo-pwrs/src/bases.rs:355-373 | with no conversion at the call a value reaches exactly its own type, an object or a wider number, nulls where they may be |
| Conversions.ImplicitComposes | crates/cargo-pwrs/src/bases.rs:345-373 | implicit conversion composes if and only if it does not go through `object` to `object?` |
| MemberFit.ArgsFit | crates/cargo-pwrs/src/bases.rs:620-644 | the loop finds the first argument that does not fit, or none |
| MemberFit.MethodGives | crates/cargo-pwrs/src/bases.rs:663-727 | the accumulated writes and result are those specified, or the refusal |
| MemberFit.RefWrites | crates/cargo-pwrs/src/bases.rs:732-742 | the loop adds a write for each ref argument |
| MemberFit.Fit | crates/cargo-pwrs/src/bases.rs:746-821 | the source's branches for methods and properties, each with the argument loop, compute `FitOf` |
| FitExactly.MethodFitsExactlyWhen | crates/cargo-pwrs/src/bases.rs:746-772 | a method fits a method member if and only if a class can override it, the type arguments agree, every type is supported, each parameter pairs with the argument at its place, and the call's values reach the result and the out parameters, or the try pattern's one does |
| FitExactly.CandidateFitsExactlyWhen | crates/cargo-pwrs/src/bases.rs:746-821 | a method fits a candidate exactly as the method or the property accessor it is, by an interface's rules or a base's |
| FitExactly.ArgumentTakesExactlyWhen | crates/cargo-pwrs/src/bases.rs:292-298 | the parameter types an argument's declared type takes, by the argument's own type, whether it is a value's and whether it is optional |
| FitExactly.ValueReachesExactlyWhen | crates/cargo-pwrs/src/bases.rs:301-373 | the places a value Rust gives reaches, by its own type, whether it is a value's and whether it is optional |
| MemberFit.PropertyFitsExactlyWhen | crates/cargo-pwrs/src/bases.rs:774-818 | a method fits a property exactly as its getter or as its setter: the accessor can be overridden, every index converts implicitly, the value converts the way it goes, and nothing is packed |
| GivesComplete.FitIsABijection | crates/cargo-pwrs/src/bases.rs:663-742 | the result and writes use each value the call gives exactly once, in order, if and only if neither the object nor the type arguments are taken by `&mut` |
| GivesComplete.FitWritesEach | crates/cargo-pwrs/src/bases.rs:663-742 | no ref argument is dropped, each write has its parameter and conversion, and a result is there exactly when the member returns a value outside the try pattern |
| GivesComplete.WrittenAreTheOutAndRef | crates/cargo-pwrs/src/bases.rs:663-742 | the out and ref parameters and no others are written, none twice |
| GivesComplete.RefsArePaired | crates/cargo-pwrs/src/bases.rs:620-644 | the arguments fit exactly so that the ref parameters pair with the `&mut` arguments |
| MethodBody.WriteBody | crates/cargo-pwrs/src/bases.rs:916-966 | the loop writes the statements specified |
| MethodBody.BodyDoesWhatItGives | crates/cargo-pwrs/src/bases.rs:916-966 | running the body, with a value or without, assigns every out and ref parameter its value, returns on every path, and reads only values the call gives |
| PlanTarget.MatchMember | crates/cargo-pwrs/src/bases.rs:835-865 | a method's one fit among the members it names, none, or several |
| OverloadKeys.FoundExactlyWhen | crates/cargo-pwrs/src/bases.rs:835-865 | a method has no hit exactly when it names and fits no member, several exactly when it does two |
| OverloadKeys.SameKeyExactlyWhen | crates/cargo-pwrs/src/bases.rs:502-530 | two members are one exactly when one type declares both by one name, with as many type parameters, and parameters alike in type and in being passed by value |
| OverloadKeys.OverloadsAreBackedApart | crates/cargo-pwrs/src/bases.rs:1404-1490 | two abstract methods declared apart, each fitted by a method of its own alone, are both hits of a planned target and are run by two declarations |
| OverloadKeys.UnfitIsStubbed | crates/cargo-pwrs/src/bases.rs:1437-1490 | an abstract method nothing fits is stubbed whatever backs its overloads |
| PlanTarget.Hits | crates/cargo-pwrs/src/bases.rs:1404-1436 | succeeds exactly when no marked method fits several members and no two back one part, with each method's hit in order |
| PlanTarget.Stubs | crates/cargo-pwrs/src/bases.rs:1437-1490 | every abstract part nothing backs has a stub some name in stubs names, and a part without one refuses the class |
| PlanTarget.PlanFor | crates/cargo-pwrs/src/bases.rs:1404-1490 | a target is planned exactly when its methods match and every abstract part none of them backs is named in stubs |
| PlanTarget.EveryAbstractPartIsCovered | crates/cargo-pwrs/src/bases.rs:1404-1490 | on a planned target every abstract method and accessor is backed by exactly one method that names and fits it, or stubbed and backed by none |
| PlanTarget.Check | crates/cargo-pwrs/src/bases.rs:1641-1701 | both targets pass exactly when every name in stubs is used and every marked method backs a member on one of them |
| PlanTarget.PlanClass | crates/cargo-pwrs/src/bases.rs:1641-1701 | a class is planned exactly when both targets can be, every name in stubs stubs some part, and every marked method backs a member |
| PlanTarget.EveryMemberMethodBacksOne | crates/cargo-pwrs/src/bases.rs:1670-1701 | a marked method of a planned class is itself a hit, on a member it names and fits, on one target or the other |
| PlanTarget.EveryStubNameIsUsed | crates/cargo-pwrs/src/bases.rs:1650-1654 | a used stubs name names an abstract part that no method backs on that target |
| RenderMembers.Render | crates/cargo-pwrs/src/bases.rs:1019-1125 | through the whole loop: keys once each, no signature shown twice, no public property sharing a name, explicit only where something before forced it |
| RenderMembers.AddingKeeps | crates/cargo-pwrs/src/bases.rs:1047-1121 | a declaration the loop may choose keeps the whole invariant |
| RenderMembers.AccessorsLandTogether | crates/cargo-pwrs/src/bases.rs:1076-1119 | a matched getter and setter of one key land in one declaration if and only if the first match of the key is no method |
| DeclaredMembers.EveryAbstractPartIsDeclared | crates/cargo-pwrs/src/bases.rs:1404-1490 | every abstract method and accessor of a planned target is in exactly one declaration, which runs the method that names and fits it or, where none backs it, its stub |
| DeclaredMembers.PlannedAccessorsLandTogether | crates/cargo-pwrs/src/bases.rs:1076-1119 | in a planned class a matched getter and setter of one property are declared together |
| DeclaredMembers.DeclareMembers | crates/cargo-pwrs/src/bases.rs:1404-1490 | planning and rendering one target succeed exactly when it can be planned, and declare every match |
| DeclaredMembers.DeclarationsMergeRightly | crates/cargo-pwrs/src/bases.rs:1703-1718 | what two targets render merges to a text from which each compiles its own declarations |
| Overloads.ChooseConstructor | crates/cargo-pwrs/src/bases.rs:1314-1342 | the loops give the choice specified, with how each value reaches its parameter |
| Overloads.ChoiceIsTheSoleFit | crates/cargo-pwrs/src/bases.rs:1326-1341 | a constructor is chosen if and only if it is the sole exact fit, or none is exact and it is the sole fit |
| Overloads.TakesExactlyWhen | crates/cargo-pwrs/src/bases.rs:1314-1325 | which constructors take the values, and which take them as they are, by the types' own names |
| Overloads.NoChoiceExactlyWhen | crates/cargo-pwrs/src/bases.rs:1326-1341 | no constructor fits exactly when none takes the values, and otherwise a refusal says that several do |
| Overloads.ChoiceIgnoresOrder | crates/cargo-pwrs/src/bases.rs:1314-1342 | any permutation of the constructors gives the same choice or refusal |
| Overloads.ChooseArguments | crates/cargo-pwrs/src/passthrough.rs:275-316 | an attribute's arguments are written by the best constructor, or a value stops the choice |
| Overloads.FitIsArgumentByArgument | crates/cargo-pwrs/src/passthrough.rs:293-301 | a constructor fits exactly when each argument converts to the type at its place, and its texts are those conversions |
| Overloads.SpreadFitsExactlyWhen | crates/cargo-pwrs/src/passthrough.rs:280-302 | a constructor whose params array the arguments spread over fits exactly when its other parameters take theirs and the element, of an array however deep, takes every further one |
| Overloads.ObjectExactlyWhen | crates/cargo-pwrs/src/passthrough.rs:233-237 | a type is object exactly when named `object` or `System.Object`, after any number of `global::` |
| Overloads.BestIsTheSoleLeast | crates/cargo-pwrs/src/passthrough.rs:307-316 | a constructor is chosen if and only if every other that fits has more parameters taking object or spreading |
| Overloads.NoBestExactlyWhen | crates/cargo-pwrs/src/passthrough.rs:307-316 | no arguments fit exactly when no constructor does |
| Overloads.BestIgnoresOrder | crates/cargo-pwrs/src/passthrough.rs:275-316 | any permutation of the constructors gives the same arguments, and stops alike |
| TargetMerge.MemberMeans | crates/cargo-pwrs/src/bases.rs:1633-1718 | wherever a member's merged text stands, inside other conditions too, each target compiles its own text of it and nothing else |
| TargetMerge.Merge | crates/cargo-pwrs/src/bases.rs:1703-1718 | the loops over keys write the merged text specified |
| TargetMerge.MergeKeepsMeaning | crates/cargo-pwrs/src/bases.rs:1703-1718 | with NET defined the merged text is net10.0's pieces in order, and without it a permutation of netstandard2.0's |
| TargetMerge.RepeatedKeyLosesText | crates/cargo-pwrs/src/bases.rs:1703-1718 | two pieces of one key leave only the first |
| TargetMerge.Resolve | crates/cargo-pwrs/src/passthrough.rs:166-187 | the loop writes each attribute's lines and refuses at the first that neither shell has |
| TargetMerge.AttributesKeepMeaning | crates/cargo-pwrs/src/passthrough.rs:77-82 | after any indent each shell compiles exactly the attributes it has, in order |
| CSharpLiterals.SkipLiteral | crates/cargo-pwrs/src/generate.rs:1777-1807 | both loops end where `LiteralEnd` says, at most one past the end |
| CSharpLiterals.LiteralReadsBack | crates/cargo-pwrs/src/generate.rs:1930-1936 | reading a literal the generator writes gives the text |
| CSharpLiterals.SkipStopsAtTheEnd | crates/cargo-pwrs/src/generate.rs:1777-1807 | skipping a written literal stops exactly at its end if and only if no quote follows |
| CSharpLiterals.StringLiterals | crates/cargo-pwrs/src/generate.rs:1940-1958 | the loop gives the literals specified, or nothing where the source would slice past the end |
| CSharpLiterals.ListReadsBack | crates/cargo-pwrs/src/generate.rs:1940-1958 | the literals of a joined list read back as the list |
| CSharpLiterals.EndingInAnEscape | crates/cargo-pwrs/src/generate.rs:1797-1799 | a text ending inside an escape has no answer |
| CSharpLiterals.NoAnswerExactlyInsideAnEscape | crates/cargo-pwrs/src/generate.rs:1940-1958 | reading the literals slices past the end if and only if the text, read one character at a time, ends inside an escape of a string |
| ShowOverride.Compile | crates/cargo-pwrs/src/generate.rs:1271-1302 | the loop writes the arguments specified |
| ShowOverride.CompiledGivesTheExpansion | crates/cargo-pwrs/src/generate.rs:1271-1302 | for every list of text and property segments, written with braces doubled, the emitted Concat gives their expansion under any property values |
| ShowOverride.OnePropertyIsRead | crates/cargo-pwrs/src/generate.rs:1271-1302 | a text that is one property in braces reads that property of the object |
| Scanner.Scan | crates/cargo-pwrs/src/generate.rs:1812-1852 | the byte loop finds the groups and classes of the code brackets and keywords, comments and literals aside |
| Scanner.KeywordHoldsNothing | crates/cargo-pwrs/src/generate.rs:1844-1849 | stepping through a keyword inside a bracket finds nothing in it |
| Comments.EventsOverBlock | crates/cargo-pwrs/src/generate.rs:1825-1830 | a block comment is passed over to its first end, whatever it holds, and to the end of the file when it has none |
| Scanner.WellPlacedExactlyWhenNeverOverClosed | crates/cargo-pwrs/src/generate.rs:1812-1852 | groups are bracketed, ordered and disjoint, and no class is in one, if and only if code brackets never close more than they open |
| Scanner.StrayBracketGivesAnEmptyGroup | crates/cargo-pwrs/src/generate.rs:1838-1843 | a stray bracket first gives a group with nothing to slice |
| Scanner.ClassesAreKeywords | crates/cargo-pwrs/src/generate.rs:1768-1774 | every class offset is the keyword, standing alone |
| Attributes.FindAttributes | crates/cargo-pwrs/src/generate.rs:1866-1880 | the loop from the last group back gives the run specified |
| Attributes.KeywordBreaksTheGap | crates/cargo-pwrs/src/generate.rs:1856-1860 | text with the class keyword in it is never modifiers alone |
| Attributes.RunStopsAtTheClassBefore | crates/cargo-pwrs/src/generate.rs:1866-1880 | no run reaches back past another class |
| Attributes.RunsAreDisjoint | crates/cargo-pwrs/src/generate.rs:1862-1880 | the attributes of two classes are apart |
| Attributes.SplitTopLevel | crates/cargo-pwrs/src/generate.rs:1885-1909 | the loop gives the parts specified |
| Attributes.PartsJoin | crates/cargo-pwrs/src/generate.rs:1885-1909 | the parts with their commas are the text, whatever it holds |
| Attributes.LiteralsSplitApart | crates/cargo-pwrs/src/generate.rs:1885-1909 | a list of literals splits at its own commas and no other, whatever the literals hold |
| Attributes.ArgumentsStayTogether | crates/cargo-pwrs/src/generate.rs:1885-1909 | the same list in brackets does not split |
| HybridCmdlets.CmdletDeclares | crates/cargo-pwrs/src/generate.rs:1966-1993 | a class that is a cmdlet has a `[Cmdlet]` attribute past every class before it |
| HybridCmdlets.NoMoreCmdletsThanDeclared | crates/cargo-pwrs/src/generate.rs:1966-2004 | there are at most as many cmdlets as `[Cmdlet]` attributes |
| HybridCmdlets.NoAnswerExactlyWhenAnAliasBreaksOff | crates/cargo-pwrs/src/generate.rs:1966-1993 | a file has no answer if and only if an `[Alias]` in a group of a class's run leaves a string open inside an escape |
| HybridCmdlets.ScanHybrid | crates/cargo-pwrs/src/generate.rs:1966-2004 | the whole scan of a file: no answer exactly when an alias breaks off; what is unclaimed is exactly the difference, so the subtraction never saturates |
| WrittenAttributes.NameReadsBack | crates/cargo-pwrs/src/generate.rs:1978-1986 | whatever the verb and the noun are, written as literals or as verb constants, the cmdlet is named by the verb, a hyphen and the noun |
| WrittenCmdlets.WrittenIsScanned | crates/cargo-pwrs/src/generate.rs:1966-2004 | a class written with any verb, noun, aliases and modifiers, after anything the scan finds nothing in and before anything that declares no more, scans to exactly its cmdlet, its aliases in order, and nothing unclaimed |
| WrittenCmdlets.FileIsScanned | crates/cargo-pwrs/src/generate.rs:1966-2004 | the same of a whole file with nothing but the class's name and empty body after it |
| BrokenOff.FileHasNoAnswer | crates/cargo-pwrs/src/generate.rs:1940-1993 | a file of one cmdlet whose brackets balance and which has no answer |
| CmdletMasks.EachItemHasItsBit | crates/cargo-pwrs/src/generate.rs:197-216 | each parameter has its own bit within the words, and no word is without one |
| CmdletMasks.MarkingAdds | crates/cargo-pwrs/src/generate.rs:450-458 | setting a bit adds its item to the mask and no other |
| CmdletMasks.SetSinceGrows | crates/cargo-pwrs/src/generate.rs:566-578 | a call clears what was set since, adds its parameter to it, or changes nothing |
| CmdletMasks.Cmdlet.Put | crates/cargo-pwrs/src/generate.rs:450-458 | a setter keeps the refinement of the sets of parameters |
| CmdletMasks.Cmdlet.Run | crates/cargo-pwrs/src/generate.rs:501-513 | a phase is passed as Dirty exactly the parameters set since the last phase or skipped begin, as Bound those ever set, each with its last value |
| CmdletMasks.Cmdlet.BeginProcessing | crates/cargo-pwrs/src/generate.rs:566-578 | a begin runs or, skipped, still clears what was set |
| CmdletMasks.Cmdlet.EndProcessing | crates/cargo-pwrs/src/generate.rs:578-580 | an end runs or, skipped, clears nothing |
| CmdletMasks.Cmdlet.SetForHook | crates/cargo-pwrs/src/generate.rs:474-489 | the hook is told exactly the parameters ever set |
| ModuleFolders.SignedIsUnsigned | crates/cargo-pwrs/src/merge.rs:66-72 | a signed copy of a manifest, with a byte order mark or without, compares as the manifest |
| ModuleFolders.UnsignedIs | crates/cargo-pwrs/src/merge.rs:66-72 | a manifest compares as its text up to its last signature block exactly when it ends in one, and otherwise as all of it; without a byte order mark either way |
| ModuleFolders.SameManifestExactlyWhen | crates/cargo-pwrs/src/merge.rs:79-90 | two modules are builds of one exactly when each has one manifest, of one name, and the texts compare alike |
| ModuleMerge.Destination.MergeRuntimes | crates/cargo-pwrs/src/merge.rs:79-107 | succeeds exactly when the manifests agree, no runtime is there already and every copy is whole, and then joins the runtimes; in any case what is there after is what copying in the order of the listing leaves, and nothing that was there changes |
| ModuleMerge.CopiesBeforeItRefuses | crates/cargo-pwrs/src/merge.rs:95-105 | a runtime listed before one that is there is copied when that one is refused |
| ModuleMerge.LinuxIsCopiedBeforeWindowsIsRefused | crates/cargo-pwrs/src/merge.rs:74-78 | a run of two folders that does so |
| ModuleMerge.RefusedBeforeCopyingExactlyWhen | crates/cargo-pwrs/src/merge.rs:74-78 | with whole copies, a merge refused has copied nothing in every order of listing if and only if none of its runtimes is there yet or all are |
| ModuleMerge.Destination.Merge | crates/cargo-pwrs/src/merge.rs:116-132 | the same over every build and bundled module; a failing merge leaves every file already there as it was |
| ModuleMerge.ModulesSwap | crates/cargo-pwrs/src/merge.rs:79-107 | two builds that merge one after the other merge the other way round, to the same module |
| ModuleMerge.MergeIgnoresOrder | crates/cargo-pwrs/src/merge.rs:116-132 | any permutation of the builds merges, and gives the same folder |
| MergeExactly.MergesExactlyWhen | crates/cargo-pwrs/src/merge.rs:79-132 | builds merge one after another if and only if every part of each goes into the folder as it was at first, by manifest, runtimes and whole copies, and no two builds share a runtime of one part |
| MergeExactly.MergedHasEach | crates/cargo-pwrs/src/merge.rs:79-132 | after a merge each part has its own runtimes and every build's as they are, and no other, under its own manifests |
| Publish.Runtimes | crates/cargo-pwrs/src/build_record.rs:71-86 | each runtime folder once with its record, in the order of the identifiers, stray files passed over, refused exactly when a record cannot be read |
| Publish.FolderRefusals | crates/cargo-pwrs/src/main.rs:402-454 | accepts exactly the publishable folders, and otherwise reports every problem there is and no other |
| Publish.ListedProblem | crates/cargo-pwrs/src/main.rs:414-450 | a problem is reported if and only if the folder has it |
| Publish.PublishableAfterMerge | crates/cargo-pwrs/src/main.rs:402-454 | a merged folder is accepted exactly when some build has an own runtime, every runtime of every build is clean by its own rules, and every part has its `runtimes` folder |

## Left out

- ScanHybrid: requires that code brackets never close more than they open. Without it the source can slice backwards and panic, as `Scanner.StrayBracketGivesAnEmptyGroup` shows.
- FitWritesEach: requires that neither the object nor the type arguments are taken by `&mut`, the condition `FitIsABijection` proves necessary for using every value. The macro that describes methods writes no such argument (crates/pwrs-macros/src/methods.rs:384-387).
- MergeKeepsMeaning: requires pieces with distinct keys and whole lines with no condition of their own. `RenderMembers.Render` gives distinct keys for methods and properties; the pieces of events, which stand among them under keys of their own, are not modelled.
- EveryAbstractPartIsDeclared: requires that members of one key are of one kind, as C# lets no type have a method and a property of one name.
- Offsets in C# sources count characters, not bytes. No branch of the scanner looks past ASCII.
- `code_mask` and `strip_test_modules` of tools/wire_audit.py, a second scanner of comments and literals, for Rust.
- The regular expressions of tools/wire_audit.py, but for the one `test_only` uses.
- `cfg::target`, which reads rustc's output line by line.
- Whether a `#[member]` or a stubs name names a member is any relation; splitting the name at `.` and `::` is not modelled.
- A type's name is a datatype of the names conversion tells apart, and a member's key a tuple rather than the joined text; that the text tells all tuples apart is not shown.
- Event members and their accessors, `Dispose`, factories and constructors' own text in the planner.
- Which text `convert` in passthrough.rs writes for a value; the choice among constructors holds for any such function. Named arguments follow the choice and are left out.
- The order in which refusals are reported, and of a merge's bundled modules. A folder may list its entries in any order: the merge and the verdict hold for every one.
- `take` and `ship`: archives, licenses of shipped files and executable bits.
- Pinned hashes are any function of content; SHA-256 itself, curl and the file system's own errors are parameters.
- The licenses allowed by default and the texts of notices.
- Wording of refusals: a refusal is a reason with what a property needs.
- The bulk C#, psm1, psd1, MAML and Format.ps1xml templates, and the orchestration of a build.
