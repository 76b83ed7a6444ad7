/** Whether a module folder may be published: `runtimes` of
    crates/cargo-pwrs/src/build_record.rs and `folder_refusals` of
    crates/cargo-pwrs/src/main.rs, and what they say of a merged folder. The order of
    the refusals is not part of this model. */
module Publish {
  import opened Results
  import opened Ordering
  import opened ModuleFolders
  import opened ModuleMerge

  /** A runtime and the record its build left, when it left one. */
  datatype Built = Built(rid: string, record: Option<Record>)

  /** The runtimes of a part. */
  datatype Placed = Placed(part: Part, built: Built)

  datatype Problem =
    | NoRecordLeft(part: Part, rid: string)
    | DebugBuild(part: Part, rid: string)
    | Undeclared(part: Part, rid: string, features: seq<string>)
    | WithoutText(part: Part, rid: string, crates: seq<string>)
    | MissingMetadata(keys: seq<string>)

  datatype Refused = CannotRead | NoRuntime | Problems(problems: seq<Problem>)

  predicate Opens(m: Module) {
    m.runtimes.Some? && forall rid | rid in m.runtimes.value :: m.runtimes.value[rid].ARuntime? ==>
      !m.runtimes.value[rid].runtime.record.Unreadable?
  }

  /** `m` has the runtime, and its build left `record`. */
  predicate Has(m: Module, rid: string, record: RecordFile) {
    rid in Entries(m) && Entries(m)[rid].ARuntime? && Entries(m)[rid].runtime.record == record
  }

  function FileOf(record: Option<Record>): RecordFile {
    if record.Some? then Readable(record.value) else NoRecord
  }

  ghost predicate ListsRuntimes(list: seq<Built>, m: Module, but: set<string>) {
    && (forall b :: b in list <==> b.rid !in but && Has(m, b.rid, FileOf(b.record)))
    && (forall i, j | 0 <= i < j < |list| :: list[i].rid != list[j].rid)
  }

  /** The order of the list: by identifier. */
  predicate NotAfter(a: Built, b: Built) {
    !Before(b.rid, a.rid)
  }

  /** Each runtime folder once, in the order of their identifiers. */
  method Runtimes(m: Module) returns (r: Option<seq<Built>>)
    ensures r.Some? <==> Opens(m)
    ensures r.Some? ==> ListsRuntimes(r.value, m, {})
    ensures r.Some? ==> forall i, j | 0 <= i < j < |r.value| :: Before(r.value[i].rid, r.value[j].rid)
  {
    var read := ReadRuntimes(m);
    if read.None? {
      return None;
    }
    var out := SortBy(read.value, NotAfter);
    SortedRuntimes(m, read.value);
    return Some(out);
  }

  lemma {:induction false} NotAfterIsOrder()
    ensures IsOrder(NotAfter)
  {
    forall a: Built, b: Built ensures NotAfter(a, b) || NotAfter(b, a) {
      if Before(b.rid, a.rid) && Before(a.rid, b.rid) {
        BeforeIsTransitive(a.rid, b.rid, a.rid);
        BeforeIsIrreflexive(a.rid);
      }
    }
    forall a: Built, b: Built, c: Built | NotAfter(a, b) && NotAfter(b, c) ensures NotAfter(a, c) {
      if Before(c.rid, a.rid) {
        BeforeIsTotal(a.rid, b.rid);
        if Before(a.rid, b.rid) {
          BeforeIsTransitive(c.rid, a.rid, b.rid);
        }
      }
    }
  }

  lemma {:induction false} SortedRuntimes(m: Module, list: seq<Built>)
    requires ListsRuntimes(list, m, {})
    ensures var out := SortBy(list, NotAfter);
            ListsRuntimes(out, m, {}) && forall i, j | 0 <= i < j < |out| :: Before(out[i].rid, out[j].rid)
  {
    var out := SortBy(list, NotAfter);
    NotAfterIsOrder();
    SortBySorts(list, NotAfter);
    PermutedKeepsDistinct(list, out);
    forall i, j | 0 <= i < j < |out| ensures Before(out[i].rid, out[j].rid) {
      RidsTell(m, list, out[i], out[j]);
      assert NotAfter(out[i], out[j]);
      BeforeIsTotal(out[i].rid, out[j].rid);
    }
    forall i, j | 0 <= i < j < |out| ensures out[i].rid != out[j].rid {
      RidsTell(m, list, out[i], out[j]);
    }
  }

  lemma {:induction false} RidsTell(m: Module, list: seq<Built>, a: Built, b: Built)
    requires ListsRuntimes(list, m, {}) && a in list && b in list && a != b
    ensures a.rid != b.rid
  {
    var i :| 0 <= i < |list| && list[i] == a;
    var j :| 0 <= j < |list| && list[j] == b;
    assert i < j || j < i;
  }

  method ReadRuntimes(m: Module) returns (r: Option<seq<Built>>)
    ensures r.Some? <==> Opens(m)
    ensures r.Some? ==> ListsRuntimes(r.value, m, {})
  {
    if m.runtimes.None? {
      return None;
    }
    var entries := m.runtimes.value;
    var rest, out: seq<Built> := entries.Keys, [];
    while rest != {}
      invariant rest <= entries.Keys && ListsRuntimes(out, m, rest)
      invariant forall rid | rid in entries && rid !in rest && entries[rid].ARuntime? ::
          !entries[rid].runtime.record.Unreadable?
      decreases |rest|
    {
      var rid :| rid in rest;
      var e := entries[rid];
      if e.ARuntime? {
        if e.runtime.record.Unreadable? {
          return None;
        }
        out := out + [Built(rid, if e.runtime.record.Readable? then Some(e.runtime.record.record) else None)];
      }
      rest := rest - {rid};
    }
    return Some(out);
  }

  // ----- the verdict -----

  /** Each runtime of each part whose build could be read. */
  ghost predicate ListsAll(list: seq<Placed>, f: Folder, parts: set<Part>) {
    forall x :: x in list <==> x.part in parts && x.part in f && Has(f[x.part], x.built.rid, FileOf(x.built.record))
  }

  method Append(list: seq<Placed>, part: Part, more: seq<Built>) returns (all: seq<Placed>)
    ensures forall x :: x in all <==> x in list || (x.part == part && x.built in more)
  {
    all := list;
    for i := 0 to |more|
      invariant forall x :: x in all <==> x in list || (x.part == part && x.built in more[..i])
    {
      all := all + [Placed(part, more[i])];
    }
  }

  method ReadInner(f: Folder, own: seq<Placed>) returns (r: Option<seq<Placed>>)
    requires Outer in f && ListsAll(own, f, {Outer})
    ensures r.Some? <==> forall p | p in f && p.Inner? && IsPart(f, p) :: Opens(f[p])
    ensures r.Some? ==> forall x :: x in r.value <==>
        IsPart(f, x.part) && Has(f[x.part], x.built.rid, FileOf(x.built.record))
  {
    var rest := set p | p in f && p.Inner? && IsPart(f, p);
    var list := own;
    ghost var done := {Outer};
    while rest != {}
      invariant forall p :: p in rest <==> p in f && IsPart(f, p) && p !in done
      invariant Outer in done && forall p | p in done :: IsPart(f, p)
      invariant forall p | p in done && p.Inner? :: Opens(f[p])
      invariant ListsAll(list, f, done)
      decreases |rest|
    {
      var p :| p in rest;
      var more := Runtimes(f[p]);
      if more.None? {
        return None;
      }
      list := Append(list, p, more.value);
      done := done + {p};
      rest := rest - {p};
    }
    return Some(list);
  }

  /** The problems of one runtime, but for its missing metadata. */
  function ProblemsOf(x: Placed, release: bool): seq<Problem> {
    match x.built.record
    case None => [NoRecordLeft(x.part, x.built.rid)]
    case Some(record) =>
      (if release && !record.release then [DebugBuild(x.part, x.built.rid)] else [])
      + (if record.undeclaredCpuFeatures != [] then [Undeclared(x.part, x.built.rid, record.undeclaredCpuFeatures)]
        else [])
      + (if record.cratesWithoutLicenseText != []
        then [WithoutText(x.part, x.built.rid, record.cratesWithoutLicenseText)] else [])
  }

  method AddMissing(missing: seq<string>, more: seq<string>) returns (all: seq<string>)
    ensures forall k :: k in all <==> k in missing || k in more
  {
    all := missing;
    for i := 0 to |more|
      invariant forall k :: k in all <==> k in missing || k in more[..i]
    {
      if more[i] !in all {
        all := all + [more[i]];
      }
    }
  }

  predicate Misses(x: Placed, key: string) {
    x.part.Outer? && x.built.record.Some? && key in x.built.record.value.missingMetadata
  }

  method Judge(list: seq<Placed>, release: bool) returns (problems: seq<Problem>, missing: seq<string>)
    ensures forall y :: y in problems <==> exists i :: 0 <= i < |list| && y in ProblemsOf(list[i], release)
    ensures forall k :: k in missing <==> exists i :: 0 <= i < |list| && Misses(list[i], k)
  {
    problems, missing := [], [];
    for n := 0 to |list|
      invariant forall y :: y in problems <==> exists i :: 0 <= i < n && y in ProblemsOf(list[i], release)
      invariant forall k :: k in missing <==> exists i :: 0 <= i < n && Misses(list[i], k)
    {
      problems := problems + ProblemsOf(list[n], release);
      if list[n].part.Outer? && list[n].built.record.Some? {
        missing := AddMissing(missing, list[n].built.record.value.missingMetadata);
      }
    }
  }

  /** What publishing asks of a runtime's record: of a bundled one, not the metadata. */
  predicate Clean(part: Part, record: RecordFile, release: bool) {
    && record.Readable?
    && (release ==> record.record.release)
    && record.record.undeclaredCpuFeatures == [] && record.record.cratesWithoutLicenseText == []
    && (part.Outer? ==> record.record.missingMetadata == [])
  }

  ghost predicate EntriesClean(entries: map<string, Entry>, p: Part, release: bool) {
    forall rid | rid in entries && entries[rid].ARuntime? :: Clean(p, entries[rid].runtime.record, release)
  }

  ghost predicate PartClean(f: Folder, p: Part, release: bool)
    requires p in f
  {
    EntriesClean(Entries(f[p]), p, release)
  }

  ghost predicate HasRuntime(m: Module) {
    exists rid :: rid in Entries(m) && Entries(m)[rid].ARuntime?
  }

  ghost predicate AllOpen(f: Folder) {
    forall p | p in f && IsPart(f, p) :: f[p].runtimes.Some?
  }

  ghost predicate AllClean(f: Folder, release: bool) {
    forall p | p in f && IsPart(f, p) :: PartClean(f, p, release)
  }

  /** What the folder must be to be published. */
  ghost predicate Publishable(f: Folder, release: bool)
    requires Outer in f
  {
    AllOpen(f) && HasRuntime(f[Outer]) && AllClean(f, release)
  }

  /** Whether the folder has the problem. */
  ghost predicate HasProblem(f: Folder, release: bool, y: Problem)
    requires Outer in f
  {
    match y
    case NoRecordLeft(p, rid) => IsPart(f, p) && Has(f[p], rid, NoRecord)
    case DebugBuild(p, rid) => release && IsPart(f, p) && exists r :: Has(f[p], rid, Readable(r)) && !r.release
    case Undeclared(p, rid, features) => features != [] && IsPart(f, p) && exists r ::
      Has(f[p], rid, Readable(r)) && r.undeclaredCpuFeatures == features
    case WithoutText(p, rid, crates) => crates != [] && IsPart(f, p) && exists r ::
      Has(f[p], rid, Readable(r)) && r.cratesWithoutLicenseText == crates
    case MissingMetadata(keys) => keys != [] && forall k :: k in keys <==>
      exists rid, r :: Has(f[Outer], rid, Readable(r)) && k in r.missingMetadata
  }

  method FolderRefusals(f: Folder, release: bool) returns (r: Result<(), Refused>)
    requires Outer in f
    ensures r.Ok? <==> Publishable(f, release)
    ensures r == Err(CannotRead) <==>
        !Opens(f[Outer]) || (HasRuntime(f[Outer]) && exists p :: p in f && IsPart(f, p) && !Opens(f[p]))
    ensures r == Err(NoRuntime) <==> Opens(f[Outer]) && !HasRuntime(f[Outer])
    ensures r.Err? && r.error.Problems? ==>
              && (forall y :: y in r.error.problems ==> HasProblem(f, release, y))
              && (forall y: Problem :: !y.MissingMetadata? && HasProblem(f, release, y) ==> y in r.error.problems)
              && ((exists keys :: HasProblem(f, release, MissingMetadata(keys))) ==>
                    exists keys :: HasProblem(f, release, MissingMetadata(keys)) &&
                      MissingMetadata(keys) in r.error.problems)
  {
    var own := Runtimes(f[Outer]);
    if own.None? {
      return Err(CannotRead);
    }
    OwnRuntimes(f[Outer], own.value);
    if own.value == [] {
      return Err(NoRuntime);
    }
    var first := Append([], Outer, own.value);
    var list := ReadInner(f, first);
    if list.None? {
      ghost var p :| p in f && p.Inner? && IsPart(f, p) && !Opens(f[p]);
      return Err(CannotRead);
    }
    var problems, missing := Judge(list.value, release);
    ListedProblems(f, list.value, problems, release);
    ListedMissing(f, list.value, missing);
    Verdict(f, list.value, problems, missing, release);
    ListedMetadata(f, missing, release);
    if missing != [] {
      problems := [MissingMetadata(missing)] + problems;
      assert problems[0] == MissingMetadata(missing);
    }
    if problems == [] {
      return Ok(());
    }
    return Err(Problems(problems));
  }

  lemma {:induction false} OwnRuntimes(m: Module, own: seq<Built>)
    requires Opens(m) && ListsRuntimes(own, m, {})
    ensures own != [] <==> HasRuntime(m)
  {
    if own != [] {
      assert own[0] in own;
    }
    if rid :| rid in Entries(m) && Entries(m)[rid].ARuntime? {
      var file := Entries(m)[rid].runtime.record;
      assert Has(m, rid, FileOf(if file.Readable? then Some(file.record) else None));
      assert Built(rid, if file.Readable? then Some(file.record) else None) in own;
    }
  }

  /** `list` has the runtimes of every part. */
  ghost predicate Lists(f: Folder, list: seq<Placed>) {
    forall x :: x in list <==> IsPart(f, x.part) && Has(f[x.part], x.built.rid, FileOf(x.built.record))
  }

  ghost predicate ProblemsAre(list: seq<Placed>, problems: seq<Problem>, release: bool) {
    forall y :: y in problems <==> exists i :: 0 <= i < |list| && y in ProblemsOf(list[i], release)
  }

  ghost predicate MissingAre(list: seq<Placed>, missing: seq<string>) {
    forall k :: k in missing <==> exists i :: 0 <= i < |list| && Misses(list[i], k)
  }

  lemma {:induction false} ProblemIsListed(
      f: Folder, list: seq<Placed>, problems: seq<Problem>, release: bool, p: Part, rid: string,
      record: Option<Record>, y: Problem)
    requires Lists(f, list) && ProblemsAre(list, problems, release)
    requires IsPart(f, p) && Has(f[p], rid, FileOf(record)) && y in ProblemsOf(Placed(p, Built(rid, record)), release)
    ensures y in problems
  {
    assert Placed(p, Built(rid, record)) in list;
  }

  lemma {:induction false} ProblemIsThere(f: Folder, x: Placed, release: bool, y: Problem)
    requires Outer in f && IsPart(f, x.part) && Has(f[x.part], x.built.rid, FileOf(x.built.record))
    requires y in ProblemsOf(x, release)
    ensures !y.MissingMetadata? && HasProblem(f, release, y)
  {}

  lemma {:induction false} HadProblemIsListed(
      f: Folder, list: seq<Placed>, problems: seq<Problem>, release: bool, y: Problem)
    requires Outer in f && Lists(f, list) && ProblemsAre(list, problems, release)
    requires !y.MissingMetadata? && HasProblem(f, release, y)
    ensures y in problems
  {
    var p, rid := y.part, y.rid;
    match y
    case NoRecordLeft(_, _) => ProblemIsListed(f, list, problems, release, p, rid, None, y);
    case DebugBuild(_, _) =>
      var r :| Has(f[p], rid, Readable(r)) && !r.release;
      ProblemIsListed(f, list, problems, release, p, rid, Some(r), y);
    case Undeclared(_, _, features) =>
      var r :| Has(f[p], rid, Readable(r)) && r.undeclaredCpuFeatures == features;
      ProblemIsListed(f, list, problems, release, p, rid, Some(r), y);
    case WithoutText(_, _, crates) =>
      var r :| Has(f[p], rid, Readable(r)) && r.cratesWithoutLicenseText == crates;
      ProblemIsListed(f, list, problems, release, p, rid, Some(r), y);
  }

  lemma {:induction false} ListedProblem(
      f: Folder, list: seq<Placed>, problems: seq<Problem>, release: bool, y: Problem)
    requires Outer in f && Lists(f, list) && ProblemsAre(list, problems, release)
    ensures y in problems <==> !y.MissingMetadata? && HasProblem(f, release, y)
  {
    if y in problems {
      var i :| 0 <= i < |list| && y in ProblemsOf(list[i], release);
      assert list[i] in list;
      ProblemIsThere(f, list[i], release, y);
    }
    if !y.MissingMetadata? && HasProblem(f, release, y) {
      HadProblemIsListed(f, list, problems, release, y);
    }
  }

  lemma {:induction false} ListedProblems(f: Folder, list: seq<Placed>, problems: seq<Problem>, release: bool)
    requires Outer in f && Lists(f, list) && ProblemsAre(list, problems, release)
    ensures forall y :: y in problems <==> !y.MissingMetadata? && HasProblem(f, release, y)
  {
    forall y ensures y in problems <==> !y.MissingMetadata? && HasProblem(f, release, y) {
      ListedProblem(f, list, problems, release, y);
    }
  }

  lemma {:induction false} ListedMissing(f: Folder, list: seq<Placed>, missing: seq<string>)
    requires Outer in f && Lists(f, list) && MissingAre(list, missing)
    ensures forall k :: k in missing <==> exists rid, r :: Has(f[Outer], rid, Readable(r)) && k in r.missingMetadata
  {
    forall k ensures k in missing <==> exists rid, r :: Has(f[Outer], rid, Readable(r)) && k in r.missingMetadata {
      if k in missing {
        var i :| 0 <= i < |list| && Misses(list[i], k);
        assert list[i] in list;
      }
      if rid, r :| Has(f[Outer], rid, Readable(r)) && k in r.missingMetadata {
        var x := Placed(Outer, Built(rid, Some(r)));
        assert x in list;
        var i :| 0 <= i < |list| && list[i] == x;
        assert Misses(list[i], k);
      }
    }
  }

  lemma {:induction false} ListedMetadata(f: Folder, missing: seq<string>, release: bool)
    requires Outer in f
    requires forall k :: k in missing <==> exists rid, r :: Has(f[Outer], rid, Readable(r)) && k in r.missingMetadata
    ensures missing != [] <==> HasProblem(f, release, MissingMetadata(missing))
    ensures (exists keys :: HasProblem(f, release, MissingMetadata(keys))) ==> missing != []
  {
    if keys :| HasProblem(f, release, MissingMetadata(keys)) {
      assert keys[0] in keys;
      assert keys[0] in missing;
    }
  }

  lemma {:induction false} Verdict(
      f: Folder, list: seq<Placed>, problems: seq<Problem>, missing: seq<string>, release: bool)
    requires Outer in f && forall p | p in f && IsPart(f, p) :: Opens(f[p])
    requires forall y :: y in problems <==> !y.MissingMetadata? && HasProblem(f, release, y)
    requires forall k :: k in missing <==> exists rid, r :: Has(f[Outer], rid, Readable(r)) && k in r.missingMetadata
    ensures problems == [] && missing == [] <==> AllClean(f, release)
  {
    if problems == [] && missing == [] {
      forall p, rid | p in f && IsPart(f, p) && rid in Entries(f[p]) && Entries(f[p])[rid].ARuntime?
        ensures Clean(p, Entries(f[p])[rid].runtime.record, release)
      {
        NoProblemIsClean(f, problems, missing, release, p, rid);
      }
    } else if AllClean(f, release) {
      CleanHasNoProblem(f, problems, missing, release);
    }
  }

  lemma {:induction false} NoProblemIsClean(
      f: Folder, problems: seq<Problem>, missing: seq<string>, release: bool, p: Part, rid: string)
    requires Outer in f && IsPart(f, p) && Opens(f[p]) && rid in Entries(f[p]) && Entries(f[p])[rid].ARuntime?
    requires forall y: Problem :: !y.MissingMetadata? && HasProblem(f, release, y) ==> y in problems
    requires forall k :: (exists rid, r :: Has(f[Outer], rid, Readable(r)) && k in r.missingMetadata) ==> k in missing
    ensures problems == [] && missing == [] ==> Clean(p, Entries(f[p])[rid].runtime.record, release)
  {
    var file := Entries(f[p])[rid].runtime.record;
    assert Has(f[p], rid, file);
    if file.NoRecord? {
      assert HasProblem(f, release, NoRecordLeft(p, rid));
    } else {
      var r := file.record;
      assert release && !r.release ==> HasProblem(f, release, DebugBuild(p, rid));
      assert r.undeclaredCpuFeatures != [] ==> HasProblem(f, release, Undeclared(p, rid, r.undeclaredCpuFeatures));
      assert r.cratesWithoutLicenseText != [] ==>
          HasProblem(f, release, WithoutText(p, rid, r.cratesWithoutLicenseText));
      if p.Outer? && r.missingMetadata != [] {
        assert r.missingMetadata[0] in missing;
      }
    }
  }

  lemma {:induction false} CleanHasNone(f: Folder, release: bool, y: Problem)
    requires Outer in f && AllClean(f, release) && !y.MissingMetadata?
    ensures !HasProblem(f, release, y)
  {
    if IsPart(f, y.part) {
      assert PartClean(f, y.part, release);
    }
  }

  lemma {:induction false} CleanHasNoProblem(f: Folder, problems: seq<Problem>, missing: seq<string>, release: bool)
    requires Outer in f && AllClean(f, release)
    requires forall y :: y in problems ==> !y.MissingMetadata? && HasProblem(f, release, y)
    requires forall k :: k in missing ==> exists rid, r :: Has(f[Outer], rid, Readable(r)) && k in r.missingMetadata
    ensures problems == [] && missing == []
  {
    if problems != [] {
      var y := problems[0];
      assert y in problems;
      CleanHasNone(f, release, y);
    }
    if missing != [] {
      var k := missing[0];
      assert k in missing;
      CleanMissesNone(f, release, k);
    }
  }

  lemma {:induction false} CleanMissesNone(f: Folder, release: bool, k: string)
    requires Outer in f && AllClean(f, release)
    ensures !exists rid, r :: Has(f[Outer], rid, Readable(r)) && k in r.missingMetadata
  {
    assert PartClean(f, Outer, release);
  }

  // ----- a merged folder -----

  lemma {:induction false} EntriesCleanJoined(a: map<string, Entry>, x: map<string, Entry>, p: Part, release: bool)
    requires forall rid | rid in x :: rid !in a
    ensures EntriesClean(a + x, p, release) <==> EntriesClean(a, p, release) && EntriesClean(x, p, release)
  {
    assert forall rid | rid in a :: rid in a + x && (a + x)[rid] == a[rid];
    assert forall rid | rid in x :: rid in a + x && (a + x)[rid] == x[rid];
  }

  lemma {:induction false} PartCleanJoined(a: Folder, x: Folder, copying: Copying, p: Part, release: bool)
    requires FolderMergeable(a, x, copying) && IsPart(a, p)
    ensures PartClean(FolderJoined(a, x), p, release) <==>
        PartClean(a, p, release) && (IsPart(x, p) ==> PartClean(x, p, release))
  {
    if IsPart(x, p) {
      JoinedEntries(a[p], x[p]);
      EntriesCleanJoined(Entries(a[p]), Entries(x[p]), p, release);
    }
  }

  lemma {:induction false} AllCleanJoined(a: Folder, x: Folder, copying: Copying, release: bool)
    requires FolderMergeable(a, x, copying)
    ensures AllClean(FolderJoined(a, x), release) <==> AllClean(a, release) && AllClean(x, release)
  {
    var both := FolderJoined(a, x);
    forall p: Part
      ensures IsPart(both, p) <==> IsPart(a, p)
      ensures IsPart(x, p) ==> IsPart(a, p)
      ensures IsPart(a, p) ==>
          (PartClean(both, p, release) <==> PartClean(a, p, release) && (IsPart(x, p) ==> PartClean(x, p, release)))
    {
      JoinedIsPart(a, x, p);
      if IsPart(a, p) {
        PartCleanJoined(a, x, copying, p, release);
      }
    }
  }

  lemma {:induction false} HasRuntimeJoined(a: Module, x: Module, copying: Copying)
    requires Mergeable(a, x, copying)
    ensures HasRuntime(Joined(a, x)) <==> HasRuntime(a) || HasRuntime(x)
  {
    JoinedEntries(a, x);
    var all := Entries(a) + Entries(x);
    assert forall rid | rid in Entries(a) :: rid in all && all[rid] == Entries(a)[rid];
    assert forall rid | rid in Entries(x) :: rid in all && all[rid] == Entries(x)[rid];
  }

  /** Part `p` has a `runtimes` folder once some build has put a runtime there. */
  ghost predicate OpenIn(a: Folder, from: seq<Folder>, p: Part) {
    (p in a && a[p].runtimes.Some?) || exists i :: 0 <= i < |from| && IsPart(from[i], p) && Entries(from[i][p]) != map[]
  }

  lemma {:induction false} OpenAfter(a: Folder, from: seq<Folder>, p: Part)
    requires IsPart(a, p)
    ensures IsPart(AllJoined(a, from), p)
    ensures AllJoined(a, from)[p].runtimes.Some? <==> OpenIn(a, from, p)
    decreases |from|
  {
    if from != [] {
      JoinedIsPart(a, from[0], p);
      OpenAfter(FolderJoined(a, from[0]), from[1..], p);
    }
  }

  lemma {:induction false} CleanAfter(a: Folder, from: seq<Folder>, copying: Copying, release: bool)
    requires AllMergeable(a, from, copying)
    ensures AllClean(AllJoined(a, from), release) <==>
        AllClean(a, release) && forall i | 0 <= i < |from| :: AllClean(from[i], release)
    decreases |from|
  {
    if from != [] {
      AllCleanJoined(a, from[0], copying, release);
      CleanAfter(FolderJoined(a, from[0]), from[1..], copying, release);
      assert forall i | 0 <= i < |from| - 1 :: from[1..][i] == from[i + 1];
      assert forall i | 1 <= i < |from| :: from[i] == from[1..][i - 1];
    }
  }

  ghost predicate SomeHasRuntime(from: seq<Folder>)
    requires forall i | 0 <= i < |from| :: Outer in from[i]
  {
    exists i :: 0 <= i < |from| && HasRuntime(from[i][Outer])
  }

  lemma {:induction false} RuntimeAfter(a: Folder, from: seq<Folder>, copying: Copying)
    requires Outer in a && (forall i | 0 <= i < |from| :: Outer in from[i]) && AllMergeable(a, from, copying)
    ensures Outer in AllJoined(a, from)
    ensures HasRuntime(AllJoined(a, from)[Outer]) <==> HasRuntime(a[Outer]) || SomeHasRuntime(from)
    decreases |from|
  {
    if from != [] {
      HasRuntimeJoined(a[Outer], from[0][Outer], copying);
      RuntimeAfter(FolderJoined(a, from[0]), from[1..], copying);
    }
  }

  lemma {:induction false} PartsAfter(a: Folder, from: seq<Folder>, p: Part)
    ensures IsPart(AllJoined(a, from), p) <==> IsPart(a, p)
    decreases |from|
  {
    if from != [] {
      JoinedIsPart(a, from[0], p);
      PartsAfter(FolderJoined(a, from[0]), from[1..], p);
    }
  }

  /** A merged folder is publishable exactly when some build has a runtime of the module
      itself, every runtime of every build, bundled ones included, has a record clean by
      its own rules, and every part has its `runtimes` folder. */
  lemma {:induction false} PublishableAfterMerge(a: Folder, from: seq<Folder>, copying: Copying, release: bool)
    requires Outer in a && (forall i | 0 <= i < |from| :: Outer in from[i]) && AllMergeable(a, from, copying)
    ensures Outer in AllJoined(a, from)
    ensures Publishable(AllJoined(a, from), release) <==>
            && (HasRuntime(a[Outer]) || SomeHasRuntime(from))
            && AllClean(a, release) && (forall i | 0 <= i < |from| :: AllClean(from[i], release))
            && (forall p | p in a && IsPart(a, p) :: OpenIn(a, from, p))
  {
    var all := AllJoined(a, from);
    RuntimeAfter(a, from, copying);
    CleanAfter(a, from, copying, release);
    forall p: Part
      ensures IsPart(all, p) <==> IsPart(a, p)
      ensures IsPart(a, p) ==> (all[p].runtimes.Some? <==> OpenIn(a, from, p))
    {
      PartsAfter(a, from, p);
      if IsPart(a, p) {
        OpenAfter(a, from, p);
      }
    }
  }
}
