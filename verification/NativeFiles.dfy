/** Which `native-files` entries apply to a target
    (crates/cargo-pwrs/src/native_files.rs), and that a `cfg(...)` table read from a
    manifest is decided by the target alone. */
module NativeFiles {
  import opened Results
  import opened CfgSyntax
  import opened Text

  datatype NativeFile = NativeFile(name: string, source: string, scope: Option<Expr>)

  /** Two entries that are one file for the target. */
  datatype Clash = Clash(first: NativeFile, second: NativeFile)

  // ----- the scope a table's key gives its entries -----

  datatype ScopeRefusal = NotACfg(why: Refusal) | NamesTheCompilation(name: string)

  function KeyExpression(key: string): Option<string> {
    if |key| >= 5 && key[..4] == "cfg(" && key[|key| - 1] == ')' then Some(key[4..|key| - 1]) else None
  }

  function ScopeOf(key: string): Result<Option<Expr>, ScopeRefusal> {
    match KeyExpression(key)
    case None => Ok(None)
    case Some(text) =>
      match Parse(text)
      case Err(why) => Err(NotACfg(why))
      case Ok(e) =>
        match NonTargetName(e)
        case Some(name) => Err(NamesTheCompilation(name))
        case None => Ok(Some(e))
  }

  // ----- which entries apply -----

  predicate Applies(file: NativeFile, target: seq<Cfg>) {
    file.scope == None || Matches(file.scope.value, target)
  }

  function Applicable(files: seq<NativeFile>, target: seq<Cfg>): seq<NativeFile> {
    if files == [] then []
    else (if Applies(files[0], target) then [files[0]] else []) + Applicable(files[1..], target)
  }

  /** The first entry of `files` named as `name` is, case aside. */
  function FirstNamed(files: seq<NativeFile>, name: string): (r: Option<NativeFile>)
    ensures r.None? <==> forall i | 0 <= i < |files| :: !SameIgnoringCase(files[i].name, name)
    ensures r.Some? ==> r.value in files && SameIgnoringCase(r.value.name, name)
  {
    if files == [] then None
    else if SameIgnoringCase(files[0].name, name) then Some(files[0])
    else FirstNamed(files[1..], name)
  }

  /** Adds `files` to `out` one by one, stopping at the first that is one file
      with an earlier one. */
  function Distinct(out: seq<NativeFile>, files: seq<NativeFile>): Result<seq<NativeFile>, Clash>
    decreases |files|
  {
    if files == [] then Ok(out)
    else
      match FirstNamed(out, files[0].name)
      case Some(first) => Err(Clash(first, files[0]))
      case None => Distinct(out + [files[0]], files[1..])
  }

  function ApplyingOf(files: seq<NativeFile>, target: seq<Cfg>): Result<seq<NativeFile>, Clash> {
    Distinct([], Applicable(files, target))
  }

  method Applying(files: seq<NativeFile>, target: seq<Cfg>) returns (r: Result<seq<NativeFile>, Clash>)
    ensures r == ApplyingOf(files, target)
  {
    var out: seq<NativeFile> := [];
    assert files[0..] == files;
    for i := 0 to |files|
      invariant ApplyingOf(files, target) == Distinct(out, Applicable(files[i..], target))
    {
      assert files[i..][1..] == files[i + 1..];
      if Applies(files[i], target) {
        assert Applicable(files[i..], target)[1..] == Applicable(files[i + 1..], target);
        var first := FirstNamed(out, files[i].name);
        if first.Some? {
          return Err(Clash(first.value, files[i]));
        }
        out := out + [files[i]];
      } else {
        assert [] + Applicable(files[i + 1..], target) == Applicable(files[i + 1..], target);
      }
    }
    return Ok(out);
  }

  // ----- what the result is -----

  predicate NoTwoNamedAlike(files: seq<NativeFile>) {
    forall i, j | 0 <= i < j < |files| :: !SameIgnoringCase(files[i].name, files[j].name)
  }

  lemma {:induction false} DistinctIs(out: seq<NativeFile>, files: seq<NativeFile>)
    requires NoTwoNamedAlike(out)
    ensures Distinct(out, files) == Ok(out + files) <==> NoTwoNamedAlike(out + files)
    ensures Distinct(out, files).Ok? <==> NoTwoNamedAlike(out + files)
    ensures Distinct(out, files).Err? ==>
              var c := Distinct(out, files).error;
              c.first in out + files && c.second in files && SameIgnoringCase(c.first.name, c.second.name)
    decreases |files|
  {
    if files == [] {
      assert out + files == out;
    } else {
      var next := out + [files[0]];
      assert next + files[1..] == out + files;
      match FirstNamed(out, files[0].name)
      case Some(first) =>
        var i :| 0 <= i < |out| && out[i] == first;
        assert (out + files)[i] == first && (out + files)[|out|] == files[0];
      case None => DistinctIs(next, files[1..]);
    }
  }

  /** `applying` gives the entries that apply, in order, exactly when no two of
      them are one file case aside; otherwise it names two that are. */
  lemma {:induction false} ApplyingGivesTheApplicable(files: seq<NativeFile>, target: seq<Cfg>)
    ensures var wanted := Applicable(files, target);
            match ApplyingOf(files, target)
            case Ok(list) => list == wanted && NoTwoNamedAlike(wanted)
            case Err(c) =>
              && !NoTwoNamedAlike(wanted)
              && c.first in wanted && c.second in wanted && SameIgnoringCase(c.first.name, c.second.name)
  {
    var wanted := Applicable(files, target);
    assert [] + wanted == wanted;
    DistinctIs([], wanted);
  }

  lemma {:induction false} FirstApplies(file: NativeFile, after: seq<NativeFile>, target: seq<Cfg>)
    ensures Applicable([file] + after, target) ==
            (if file.scope.None? || Matches(file.scope.value, target) then [file] else []) + Applicable(after, target)
  {
    assert ([file] + after)[1..] == after;
  }

  /** An entry applies, where it is listed, exactly when it has no scope or one the target
      satisfies, whatever is listed before and after it. */
  lemma {:induction false} EachAppliesByItself(
      before: seq<NativeFile>, file: NativeFile, after: seq<NativeFile>, target: seq<Cfg>)
    ensures Applicable(before + ([file] + after), target) ==
            Applicable(before, target)
            + ((if file.scope.None? || Matches(file.scope.value, target) then [file] else [])
               + Applicable(after, target))
    decreases |before|
  {
    if before == [] {
      assert before + ([file] + after) == [file] + after;
      FirstApplies(file, after, target);
    } else {
      var rest := before[1..];
      assert before + ([file] + after) == [before[0]] + (rest + ([file] + after)) && before == [before[0]] + rest;
      EachAppliesByItself(rest, file, after, target);
      FirstApplies(before[0], rest + ([file] + after), target);
      FirstApplies(before[0], rest, target);
    }
  }

  // ----- a scope read from a manifest sees only the target -----

  /** A cfg value that describes the compilation rather than the target. */
  predicate OfTheCompilation(c: Cfg) {
    match c
    case Name(name) => name in ["test", "debug_assertions", "proc_macro"]
    case Pair(key, _) => key == "feature"
  }

  /** Two targets alike in all that describes the target. */
  ghost predicate SameTarget(s: seq<Cfg>, t: seq<Cfg>) {
    forall c: Cfg :: !OfTheCompilation(c) ==> (c in s <==> c in t)
  }

  /** Whether any value in `e` describes the compilation. */
  predicate Mentions(e: Expr) {
    match e
    case Not(inner) => Mentions(inner)
    case All(items) => exists i | 0 <= i < |items| :: Mentions(items[i])
    case Any(items) => exists i | 0 <= i < |items| :: Mentions(items[i])
    case Value(c) => OfTheCompilation(c)
    case True => false
    case False => false
  }

  lemma {:induction false} NonTargetNameFindsAny(e: Expr)
    ensures NonTargetName(e).Some? <==> Mentions(e)
    decreases e, 0
  {
    match e
    case Not(inner) => NonTargetNameFindsAny(inner);
    case All(items) => FirstNonTargetNameFindsAny(items);
    case Any(items) => FirstNonTargetNameFindsAny(items);
    case Value(c) =>
    case True =>
    case False =>
  }

  lemma {:induction false} FirstNonTargetNameFindsAny(es: seq<Expr>)
    ensures FirstNonTargetName(es).Some? <==> exists i | 0 <= i < |es| :: Mentions(es[i])
    decreases es, 1
  {
    if es != [] {
      NonTargetNameFindsAny(es[0]);
      FirstNonTargetNameFindsAny(es[1..]);
      assert forall i | 0 < i < |es| :: es[i] == es[1..][i - 1];
    }
  }

  function CfgKey(text: string): string {
    "cfg(" + text + ")"
  }

  /** A table's key scopes its entries exactly when it is `cfg(...)` around a text, and the
      text parses to the scope and mentions nothing of the compilation. */
  lemma {:induction false} ScopeExactlyWhen(text: string, e: Expr)
    ensures ScopeOf(CfgKey(text)) == Ok(Some(e)) <==> Parse(text) == Ok(e) && !Mentions(e)
    ensures ScopeOf(CfgKey(text)) != Ok(None)
  {
    var key := CfgKey(text);
    assert key[..4] == "cfg(" && key[4..|key| - 1] == text;
    if Parse(text) == Ok(e) {
      NonTargetNameFindsAny(e);
    }
  }

  lemma {:induction false} OtherKeysAreNames(key: string)
    ensures ScopeOf(key) == Ok(None) <==> forall text :: key != CfgKey(text)
  {
    if KeyExpression(key).Some? {
      assert key == CfgKey(KeyExpression(key).value);
    }
    if text :| key == CfgKey(text) {
      assert key[..4] == "cfg(" && key[|key| - 1] == ')';
    }
  }

  lemma {:induction false} MatchesSeesOnlyTheTarget(e: Expr, s: seq<Cfg>, t: seq<Cfg>)
    requires NonTargetName(e).None? && SameTarget(s, t)
    ensures Matches(e, s) == Matches(e, t)
  {
    NonTargetNameFindsAny(e);
    MatchesWithoutMentions(e, s, t);
  }

  lemma {:induction false} MatchesWithoutMentions(e: Expr, s: seq<Cfg>, t: seq<Cfg>)
    requires !Mentions(e) && SameTarget(s, t)
    ensures Matches(e, s) == Matches(e, t)
    decreases e
  {
    match e
    case Not(inner) => MatchesWithoutMentions(inner, s, t);
    case All(items) => forall i | 0 <= i < |items| { MatchesWithoutMentions(items[i], s, t); }
    case Any(items) => forall i | 0 <= i < |items| { MatchesWithoutMentions(items[i], s, t); }
    case Value(c) =>
    case True =>
    case False =>
  }

  /** An entry whose scope some table key gave it. */
  ghost predicate FromManifest(file: NativeFile) {
    exists key :: ScopeOf(key) == Ok(file.scope)
  }

  /** Whatever is compiled, a test build, a debug build, a macro, under any
      features, the entries that apply are those of the target, or the refusal is
      the same. */
  lemma {:induction false} ApplyingSeesOnlyTheTarget(files: seq<NativeFile>, s: seq<Cfg>, t: seq<Cfg>)
    requires forall i | 0 <= i < |files| :: FromManifest(files[i])
    requires SameTarget(s, t)
    ensures ApplyingOf(files, s) == ApplyingOf(files, t)
  {
    ApplicableSeesOnlyTheTarget(files, s, t);
  }

  lemma {:induction false} ApplicableSeesOnlyTheTarget(files: seq<NativeFile>, s: seq<Cfg>, t: seq<Cfg>)
    requires forall i | 0 <= i < |files| :: FromManifest(files[i])
    requires SameTarget(s, t)
    ensures Applicable(files, s) == Applicable(files, t)
  {
    if files != [] {
      var file := files[0];
      var key :| ScopeOf(key) == Ok(file.scope);
      if file.scope.Some? {
        MatchesSeesOnlyTheTarget(file.scope.value, s, t);
      }
      ApplicableSeesOnlyTheTarget(files[1..], s, t);
    }
  }
}
