/** The cmdlets a hand-written C# file declares, and how many of its `[Cmdlet]`
    attributes give none: `hybrid_cmdlets` of crates/cargo-pwrs/src/generate.rs. */
module HybridCmdlets {
  import opened Results
  import opened CSharpLiterals
  import opened Scanner
  import opened Attributes

  datatype Cmdlet = Cmdlet(name: string, aliases: seq<string>)

  /** What the attributes read so far say of a class. */
  datatype Heard = Heard(name: Option<string>, aliases: seq<string>)

  const CMDLET: string := "Cmdlet"
  const ALIAS: string := "Alias"

  predicate IsCmdlet(attribute: string) {
    var parts := AttributeParts(attribute);
    parts.Some? && parts.value.name == CMDLET
  }

  /** `Verb-Noun`, where the first two arguments are words. */
  function NameIn(args: string): Option<string> {
    var positional := PartsOf(args);
    if |positional| < 2 then None
    else
      var verb, noun := AttributeWord(positional[0]), AttributeWord(positional[1]);
      if verb.Some? && noun.Some? then Some(verb.value + "-" + noun.value) else None
  }

  /** One attribute more; None where its text ends in the middle of an escape. */
  function Hear(h: Heard, attribute: string): Option<Heard> {
    var parts := AttributeParts(attribute);
    if parts.None? then Some(h)
    else if parts.value.name == CMDLET then
      var name := NameIn(parts.value.args);
      Some(if name.Some? then h.(name := name) else h)
    else if parts.value.name == ALIAS then
      var more := LiteralsFrom(parts.value.args, 0);
      if more.Some? then Some(h.(aliases := h.aliases + more.value)) else None
    else Some(h)
  }

  /** The attributes from `i` on. */
  function HearAll(h: Heard, attributes: seq<string>, i: nat): Option<Heard>
    requires i <= |attributes|
    decreases |attributes| - i
  {
    if i == |attributes| then Some(h)
    else
      match Hear(h, attributes[i])
      case None => None
      case Some(next) => HearAll(next, attributes, i + 1)
  }

  /** The attributes in a group. */
  function AttributesIn(source: string, g: Group): seq<string>
    requires g.start + 1 < g.end <= |source|
  {
    PartsOf(source[g.start + 1..g.end - 1])
  }

  predicate Sliced(source: string, groups: seq<Group>) {
    forall k | 0 <= k < |groups| :: groups[k].start + 1 < groups[k].end <= |source|
  }

  function HearGroups(source: string, run: seq<Group>, i: nat, h: Heard): Option<Heard>
    requires Sliced(source, run) && i <= |run|
    decreases |run| - i
  {
    if i == |run| then Some(h)
    else
      match HearAll(h, AttributesIn(source, run[i]), 0)
      case None => None
      case Some(next) => HearGroups(source, run, i + 1, next)
  }

  function HearRun(source: string, run: seq<Group>): Option<Heard>
    requires Sliced(source, run)
  {
    HearGroups(source, run, 0, Heard(None, []))
  }

  /** The cmdlets of the first `n` classes. */
  function CmdletsOf(source: string, groups: seq<Group>, classes: seq<nat>, n: nat): Option<seq<Cmdlet>>
    requires Sliced(source, groups) && n <= |classes|
    requires forall k | 0 <= k < |classes| :: classes[k] <= |source|
  {
    if n == 0 then Some([])
    else
      var before := CmdletsOf(source, groups, classes, n - 1);
      RunIsBefore(source, groups, |groups|, classes[n - 1]);
      var run := AttributesOf(source, groups, classes[n - 1]);
      var heard := HearRun(source, run);
      if before.None? || heard.None? then None
      else if heard.value.name.None? then before
      else Some(before.value + [Cmdlet(heard.value.name.value, heard.value.aliases)])
  }

  /** How many of the first `n` are such. */
  function Count(s: seq<string>, n: nat, such: string -> bool): nat
    requires n <= |s|
  {
    if n == 0 then 0 else Count(s, n - 1, such) + if such(s[n - 1]) then 1 else 0
  }

  function CmdletsIn(source: string, g: Group): nat
    requires g.start + 1 < g.end <= |source|
  {
    Count(AttributesIn(source, g), |AttributesIn(source, g)|, IsCmdlet)
  }

  function DeclaredIn(source: string, groups: seq<Group>, n: nat): nat
    requires Sliced(source, groups) && n <= |groups|
  {
    if n == 0 then 0 else DeclaredIn(source, groups, n - 1) + CmdletsIn(source, groups[n - 1])
  }

  // ----- every class's cmdlet has an attribute of its own -----

  lemma {:induction false} SomeCounted(s: seq<string>, n: nat, such: string -> bool, k: nat)
    requires k < n <= |s| && such(s[k])
    ensures Count(s, n, such) > 0
  {
    if k < n - 1 {
      SomeCounted(s, n - 1, such, k);
    }
  }

  lemma {:induction false} HearingKeepsName(h: Heard, attribute: string)
    requires h.name.None? && Hear(h, attribute).Some? && Hear(h, attribute).value.name.Some?
    ensures IsCmdlet(attribute)
  {}

  lemma {:induction false} NameNeedsCmdlet(h: Heard, attributes: seq<string>, i: nat)
    requires i <= |attributes| && h.name.None?
    requires HearAll(h, attributes, i).Some? && HearAll(h, attributes, i).value.name.Some?
    ensures Count(attributes, |attributes|, IsCmdlet) > 0
    decreases |attributes| - i
  {
    var next := Hear(h, attributes[i]).value;
    if next.name.Some? {
      HearingKeepsName(h, attributes[i]);
      SomeCounted(attributes, |attributes|, IsCmdlet, i);
    } else {
      NameNeedsCmdlet(next, attributes, i + 1);
    }
  }

  lemma {:induction false} NamedClassHasCmdlet(source: string, run: seq<Group>, i: nat, h: Heard)
    requires Sliced(source, run) && i <= |run| && h.name.None?
    requires HearGroups(source, run, i, h).Some? && HearGroups(source, run, i, h).value.name.Some?
    ensures exists k :: 0 <= k < |run| && CmdletsIn(source, run[k]) > 0
    decreases |run| - i
  {
    var attributes := AttributesIn(source, run[i]);
    var next := HearAll(h, attributes, 0).value;
    if next.name.Some? {
      NameNeedsCmdlet(h, attributes, 0);
    } else {
      NamedClassHasCmdlet(source, run, i + 1, next);
    }
  }

  /** How many `[Cmdlet]` attributes the groups up to `to` have. */
  function DeclaredUpTo(source: string, groups: seq<Group>, n: nat, to: nat): nat
    requires Sliced(source, groups) && n <= |groups|
  {
    if n == 0 then 0
    else DeclaredUpTo(source, groups, n - 1, to) + if groups[n - 1].end <= to then CmdletsIn(source, groups[n - 1])
      else 0
  }

  lemma {:induction false} MoreUpToLater(source: string, groups: seq<Group>, n: nat, to: nat, later: nat)
    requires Sliced(source, groups) && n <= |groups| && to <= later
    ensures DeclaredUpTo(source, groups, n, to) <= DeclaredUpTo(source, groups, n, later) <= DeclaredIn(source,
        groups, n)
  {
    if n > 0 {
      MoreUpToLater(source, groups, n - 1, to, later);
    }
  }

  lemma {:induction false} OneMoreUpToLater(source: string, groups: seq<Group>, n: nat, to: nat, later: nat, k: nat)
    requires Sliced(source, groups) && k < n <= |groups| && to <= groups[k].start && groups[k].end <= later
    requires CmdletsIn(source, groups[k]) > 0
    ensures DeclaredUpTo(source, groups, n, to) < DeclaredUpTo(source, groups, n, later)
  {
    if k == n - 1 {
      MoreUpToLater(source, groups, n - 1, to, later);
    } else {
      OneMoreUpToLater(source, groups, n - 1, to, later, k);
    }
  }

  /** What the scan of a source gives, where nothing is sliced backwards. */
  ghost predicate Read(source: string, f: Found) {
    && Sliced(source, f.groups)
    && (forall k | 0 <= k < |f.classes| :: f.classes[k] + 5 <= |source| && IsWordAt(source, f.classes[k], CLASS))
    && (forall j, k | 0 <= j < k < |f.classes| :: f.classes[j] + 5 <= f.classes[k])
    && (forall j, k | 0 <= j < |f.groups| && 0 <= k < |f.classes| :: Outside(f.classes[k], f.groups[j]))
  }

  lemma {:induction false} ScanIsRead(source: string)
    requires NeverOverCloses(Events(source, 0), 0)
    ensures Read(source, FoundIn(source))
  {
    var f := FoundIn(source);
    WellPlacedExactlyWhenNeverOverClosed(source);
    forall k | 0 <= k < |f.classes| ensures IsWordAt(source, f.classes[k], CLASS) {
      ClassesAreKeywords(source, k);
    }
    forall k | 0 <= k < |f.groups| ensures f.groups[k].start + 1 < f.groups[k].end <= |source| {
      assert Spans(f.groups[k], Events(source, 0));
      EventsAreThere(source, 0, Close(f.groups[k].end - 1));
    }
  }

  /** Past how much of the source the first `n` classes are. */
  function Mark(f: Found, n: nat): nat
    requires n <= |f.classes|
  {
    if n == 0 then 0 else f.classes[n - 1]
  }

  /** A class that is a cmdlet has a `[Cmdlet]` attribute past every class before it. */
  lemma {:induction false} CmdletDeclares(source: string, f: Found, n: nat)
    requires Read(source, f) && 0 < n <= |f.classes|
    requires var run := AttributesOf(source, f.groups, f.classes[n - 1]);
             Sliced(source, run) && HearRun(source, run).Some? && HearRun(source, run).value.name.Some?
    ensures DeclaredUpTo(source, f.groups, |f.groups|, Mark(f, n - 1)) < DeclaredUpTo(source, f.groups, |f.groups|,
        Mark(f, n))
  {
    var at := f.classes[n - 1];
    var run := AttributesOf(source, f.groups, at);
    NamedClassHasCmdlet(source, run, 0, Heard(None, []));
    var k :| 0 <= k < |run| && CmdletsIn(source, run[k]) > 0;
    var g := run[k];
    RunIsBefore(source, f.groups, |f.groups|, at);
    assert g in run;
    var i :| 0 <= i < |f.groups| && f.groups[i] == g;
    if n > 1 {
      assert f.classes[n - 2] + 5 <= at;
      RunStopsAtTheClassBefore(source, f.groups, |f.groups|, at, f.classes[n - 2]);
    }
    OneMoreUpToLater(source, f.groups, |f.groups|, Mark(f, n - 1), at, i);
  }

  lemma {:induction false} OneMoreClass(source: string, f: Found, n: nat)
    requires Read(source, f) && 0 < n <= |f.classes|
    requires CmdletsOf(source, f.groups, f.classes, n).Some?
    ensures var all, before := CmdletsOf(source, f.groups, f.classes, n), CmdletsOf(source, f.groups, f.classes, n - 1);
            before.Some? && |all.value| <= |before.value| + 1
            && DeclaredUpTo(source, f.groups, |f.groups|, Mark(f, n - 1)) <= DeclaredUpTo(source, f.groups,
               |f.groups|, Mark(f, n))
            && (|all.value| > |before.value| ==>
               DeclaredUpTo(source, f.groups, |f.groups|, Mark(f, n - 1)) < DeclaredUpTo(source, f.groups, |f.groups|,
                 Mark(f, n)))
  {
    assert n > 1 ==> f.classes[n - 2] + 5 <= f.classes[n - 1];
    MoreUpToLater(source, f.groups, |f.groups|, Mark(f, n - 1), Mark(f, n));
    RunIsBefore(source, f.groups, |f.groups|, f.classes[n - 1]);
    var run := AttributesOf(source, f.groups, f.classes[n - 1]);
    if HearRun(source, run).value.name.Some? {
      CmdletDeclares(source, f, n);
    }
  }

  lemma {:induction false} CmdletsWithin(source: string, f: Found, n: nat)
    requires Read(source, f) && n <= |f.classes| && CmdletsOf(source, f.groups, f.classes, n).Some?
    ensures |CmdletsOf(source, f.groups, f.classes, n).value| <= DeclaredUpTo(source, f.groups, |f.groups|, Mark(f, n))
  {
    if n > 0 {
      OneMoreClass(source, f, n);
      CmdletsWithin(source, f, n - 1);
    }
  }

  /** There are never more cmdlets than `[Cmdlet]` attributes. */
  lemma {:induction false} NoMoreCmdletsThanDeclared(source: string)
    requires NeverOverCloses(Events(source, 0), 0)
    ensures var f := FoundIn(source);
            Read(source, f)
            && var cmdlets := CmdletsOf(source, f.groups, f.classes, |f.classes|);
               cmdlets.Some? ==> |cmdlets.value| <= DeclaredIn(source, f.groups, |f.groups|)
  {
    var f := FoundIn(source);
    ScanIsRead(source);
    if CmdletsOf(source, f.groups, f.classes, |f.classes|).Some? {
      CmdletsWithin(source, f, |f.classes|);
      MoreUpToLater(source, f.groups, |f.groups|, Mark(f, |f.classes|), |source|);
    }
  }

  // ----- when a file has no answer -----

  /** An `[Alias]` whose arguments leave a string open inside an escape. */
  predicate BreaksOff(attribute: string) {
    var parts := AttributeParts(attribute);
    parts.Some? && parts.value.name == ALIAS && EndsInsideAnEscape(parts.value.args)
  }

  lemma {:induction false} HearingBreaksOff(h: Heard, attribute: string)
    ensures Hear(h, attribute).None? <==> BreaksOff(attribute)
  {
    var parts := AttributeParts(attribute);
    if parts.Some? {
      NoAnswerExactlyInsideAnEscape(parts.value.args);
      assert |CMDLET| == 6 && |ALIAS| == 5;
    }
  }

  /** One from `i` on is such. */
  ghost predicate AnyFrom<T>(s: seq<T>, i: nat, such: T -> bool)
    requires i <= |s|
    decreases |s| - i
  {
    i < |s| && (such(s[i]) || AnyFrom(s, i + 1, such))
  }

  lemma {:induction false} AnyFromIs<T>(s: seq<T>, i: nat, such: T -> bool)
    requires i <= |s|
    ensures AnyFrom(s, i, such) <==> exists k :: i <= k < |s| && such(s[k])
    decreases |s| - i
  {
    if i < |s| {
      AnyFromIs(s, i + 1, such);
    }
  }

  lemma {:induction false} AttributesBreakOff(h: Heard, attributes: seq<string>, i: nat)
    requires i <= |attributes|
    ensures HearAll(h, attributes, i).None? <==> AnyFrom(attributes, i, BreaksOff)
    decreases |attributes| - i
  {
    if i < |attributes| {
      HearingBreaksOff(h, attributes[i]);
      if Hear(h, attributes[i]).Some? {
        AttributesBreakOff(Hear(h, attributes[i]).value, attributes, i + 1);
      }
    }
  }

  /** An attribute of the group breaks off. */
  ghost predicate GroupBreaksOff(source: string, g: Group) {
    g.start + 1 < g.end <= |source| && AnyFrom(AttributesIn(source, g), 0, BreaksOff)
  }

  lemma {:induction false} GroupsBreakOff(source: string, run: seq<Group>, i: nat, h: Heard)
    requires Sliced(source, run) && i <= |run|
    ensures HearGroups(source, run, i, h).None? <==> AnyFrom(run, i, g => GroupBreaksOff(source, g))
    decreases |run| - i
  {
    if i < |run| {
      var attributes := AttributesIn(source, run[i]);
      AttributesBreakOff(h, attributes, 0);
      if HearAll(h, attributes, 0).Some? {
        GroupsBreakOff(source, run, i + 1, HearAll(h, attributes, 0).value);
      }
    }
  }

  /** An attribute of the class declared at `decl` breaks off. */
  ghost predicate ClassBreaksOff(source: string, groups: seq<Group>, decl: nat)
    requires decl <= |source| && Sliced(source, groups)
  {
    AnyFrom(AttributesOf(source, groups, decl), 0, g => GroupBreaksOff(source, g))
  }

  lemma {:induction false} ClassBreaks(source: string, groups: seq<Group>, decl: nat)
    requires decl <= |source| && Sliced(source, groups)
    ensures Sliced(source, AttributesOf(source, groups, decl))
    ensures HearRun(source, AttributesOf(source, groups, decl)).None? <==> ClassBreaksOff(source, groups, decl)
  {
    RunIsBefore(source, groups, |groups|, decl);
    GroupsBreakOff(source, AttributesOf(source, groups, decl), 0, Heard(None, []));
  }

  /** In the words of the source: an attribute in a group of the class's run breaks off. */
  lemma {:induction false} ClassBreaksOffIs(source: string, groups: seq<Group>, decl: nat)
    requires decl <= |source| && Sliced(source, groups)
    ensures ClassBreaksOff(source, groups, decl) <==>
            exists g :: g in AttributesOf(source, groups, decl) && GroupBreaksOff(source, g)
  {
    var run, such := AttributesOf(source, groups, decl), g => GroupBreaksOff(source, g);
    AnyFromIs(run, 0, such);
    if g :| g in run && such(g) {
      var k :| 0 <= k < |run| && run[k] == g;
    }
  }

  lemma {:induction false} OneMoreClassBreaks(source: string, groups: seq<Group>, classes: seq<nat>, n: nat)
    requires Sliced(source, groups) && 0 < n <= |classes|
    requires forall k | 0 <= k < |classes| :: classes[k] <= |source|
    ensures CmdletsOf(source, groups, classes, n).None? <==>
            CmdletsOf(source, groups, classes, n - 1).None? || ClassBreaksOff(source, groups, classes[n - 1])
  {
    ClassBreaks(source, groups, classes[n - 1]);
  }

  /** A file has no answer, the source slicing past the end of an argument text, if and
      only if an `[Alias]` of a class in it leaves a string open inside an escape. */
  lemma {:induction false} NoAnswerExactlyWhenAnAliasBreaksOff(
      source: string, groups: seq<Group>, classes: seq<nat>, n: nat)
    requires Sliced(source, groups) && n <= |classes|
    requires forall k | 0 <= k < |classes| :: classes[k] <= |source|
    ensures CmdletsOf(source, groups, classes, n).None? <==>
            exists k :: 0 <= k < n && ClassBreaksOff(source, groups, classes[k])
  {
    if n > 0 {
      NoAnswerExactlyWhenAnAliasBreaksOff(source, groups, classes, n - 1);
      OneMoreClassBreaks(source, groups, classes, n);
    }
  }

  // ----- the scan of a file -----

  method HearGroup(h: Heard, attributes: seq<string>) returns (heard: Option<Heard>)
    ensures heard == HearAll(h, attributes, 0)
  {
    var next := h;
    for i := 0 to |attributes|
      invariant HearAll(h, attributes, 0) == HearAll(next, attributes, i)
    {
      var more := Hear(next, attributes[i]);
      if more.None? {
        return None;
      }
      next := more.value;
    }
    return Some(next);
  }

  method HearClass(source: string, run: seq<Group>) returns (heard: Option<Heard>)
    requires Sliced(source, run)
    ensures heard == HearRun(source, run)
  {
    var next := Heard(None, []);
    for i := 0 to |run|
      invariant HearRun(source, run) == HearGroups(source, run, i, next)
    {
      var attributes := SplitTopLevel(source[run[i].start + 1..run[i].end - 1]);
      var more := HearGroup(next, attributes);
      if more.None? {
        return None;
      }
      next := more.value;
    }
    return Some(next);
  }

  method HearBefore(source: string, groups: seq<Group>, decl: nat) returns (heard: Option<Heard>)
    requires Sliced(source, groups) && decl <= |source|
    ensures Sliced(source, AttributesOf(source, groups, decl))
    ensures heard == HearRun(source, AttributesOf(source, groups, decl))
  {
    RunIsBefore(source, groups, |groups|, decl);
    var run := FindAttributes(source, groups, decl);
    heard := HearClass(source, run);
  }

  method CollectCmdlets(source: string, groups: seq<Group>, classes: seq<nat>) returns (cmdlets: Option<seq<Cmdlet>>)
    requires Sliced(source, groups) && forall k | 0 <= k < |classes| :: classes[k] <= |source|
    ensures cmdlets == CmdletsOf(source, groups, classes, |classes|)
  {
    var out: seq<Cmdlet> := [];
    for i := 0 to |classes|
      invariant CmdletsOf(source, groups, classes, i) == Some(out)
    {
      var heard := HearBefore(source, groups, classes[i]);
      if heard.None? {
        ClassesStop(source, groups, classes, i + 1, |classes|);
        return None;
      }
      if heard.value.name.Some? {
        out := out + [Cmdlet(heard.value.name.value, heard.value.aliases)];
      }
    }
    return Some(out);
  }

  lemma {:induction false} ClassesStop(source: string, groups: seq<Group>, classes: seq<nat>, i: nat, n: nat)
    requires Sliced(source, groups) && forall k | 0 <= k < |classes| :: classes[k] <= |source|
    requires i <= n <= |classes| && CmdletsOf(source, groups, classes, i).None?
    ensures CmdletsOf(source, groups, classes, n).None?
  {
    if i < n {
      ClassesStop(source, groups, classes, i, n - 1);
    }
  }

  method CountDeclared(source: string, groups: seq<Group>) returns (declared: nat)
    requires Sliced(source, groups)
    ensures declared == DeclaredIn(source, groups, |groups|)
  {
    declared := 0;
    for i := 0 to |groups|
      invariant declared == DeclaredIn(source, groups, i)
    {
      var here := CountIn(source, groups[i]);
      declared := declared + here;
    }
  }

  method CountIn(source: string, g: Group) returns (count: nat)
    requires g.start + 1 < g.end <= |source|
    ensures count == CmdletsIn(source, g)
  {
    var inside := source[g.start + 1..g.end - 1];
    var attributes := SplitTopLevel(inside);
    count := CountCmdlets(attributes);
    CmdletsInIs(source, g, attributes);
  }

  lemma {:induction false} CmdletsInIs(source: string, g: Group, attributes: seq<string>)
    requires g.start + 1 < g.end <= |source| && attributes == AttributesIn(source, g)
    ensures CmdletsIn(source, g) == Count(attributes, |attributes|, IsCmdlet)
  {}

  method CountCmdlets(attributes: seq<string>) returns (count: nat)
    ensures count == Count(attributes, |attributes|, IsCmdlet)
  {
    count := 0;
    for i := 0 to |attributes|
      invariant count == Count(attributes, i, IsCmdlet)
    {
      if IsCmdlet(attributes[i]) {
        count := count + 1;
      }
    }
  }

  datatype HybridScan = HybridScan(cmdlets: seq<Cmdlet>, unclaimed: nat)

  /** Some class of the source has an `[Alias]` that breaks off. */
  ghost predicate SomeBreaksOff(source: string, f: Found)
    requires Read(source, f)
  {
    exists k :: 0 <= k < |f.classes| && ClassBreaksOff(source, f.groups, f.classes[k])
  }

  /** There is no answer exactly when an `[Alias]` of a class breaks off. The subtraction
      never saturates: what is unclaimed is exactly the difference. */
  method ScanHybrid(source: string) returns (scan: Option<HybridScan>)
    requires NeverOverCloses(Events(source, 0), 0)
    ensures Read(source, FoundIn(source))
    ensures scan.None? <==> SomeBreaksOff(source, FoundIn(source))
    ensures scan.Some? ==>
              var f := FoundIn(source);
              && CmdletsOf(source, f.groups, f.classes, |f.classes|) == Some(scan.value.cmdlets)
              && scan.value.unclaimed + |scan.value.cmdlets| == DeclaredIn(source, f.groups, |f.groups|)
  {
    NoMoreCmdletsThanDeclared(source);
    var groups, classes := Scan(source);
    assert FoundIn(source).groups == groups && FoundIn(source).classes == classes;
    NoAnswerExactlyWhenAnAliasBreaksOff(source, groups, classes, |classes|);
    var cmdlets := CollectCmdlets(source, groups, classes);
    if cmdlets.None? {
      return None;
    }
    var declared := CountDeclared(source, groups);
    var unclaimed := if declared >= |cmdlets.value| then declared - |cmdlets.value| else 0;
    return Some(HybridScan(cmdlets.value, unclaimed));
  }
}
