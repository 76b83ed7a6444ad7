/** One module folder with the runtimes of several builds: `merge` and `merge_runtimes`
    of crates/cargo-pwrs/src/merge.rs. */
module ModuleMerge {
  import opened Results
  import opened ModuleFolders

  /** How a copy goes: whole, or stopped with part of the runtime written. */
  type Copying = Entry -> Option<Runtime>

  function Entries(m: Module): map<string, Entry> {
    if m.runtimes.Some? then m.runtimes.value else map[]
  }

  /** What a copy leaves: a file that is no folder leaves the empty folder made for it. */
  function Left(e: Entry, copying: Copying): Runtime {
    match e
    case AFile(_) => Runtime(map[], NoRecord)
    case ARuntime(runtime) => if copying(e).Some? then copying(e).value else runtime
  }

  predicate CopiesWhole(e: Entry, copying: Copying) {
    e.ARuntime? && copying(e).None?
  }

  // ----- one module -----

  /** Whether `src`'s runtimes go into `into`. */
  predicate Mergeable(into: Module, src: Module, copying: Copying) {
    && SameManifest(into, src)
    && src.runtimes.Some?
    && (forall rid | rid in src.runtimes.value ::
       rid !in Entries(into) && CopiesWhole(src.runtimes.value[rid], copying))
  }

  function WithEntry(m: Module, rid: string, e: Entry): Module {
    m.(runtimes := Some(Entries(m)[rid := e]))
  }

  /** `into` with the named runtimes of `more`. */
  function Added(into: Module, more: map<string, Entry>, rids: set<string>): Module
    requires rids <= more.Keys
  {
    if rids == {} then into
    else into.(runtimes := Some(Entries(into) + map rid | rid in rids :: more[rid]))
  }

  /** An order in which a folder lists what is in it. */
  ghost predicate IsListing(order: seq<string>, more: map<string, Entry>) {
    && (forall rid :: rid in order <==> rid in more)
    && (forall i, j | 0 <= i < j < |order| :: order[i] != order[j])
  }

  datatype Copied = Copied(now: Module, ok: bool)

  /** The entries from `i` on copied one by one, up to one that is there already or
      whose copy stops. */
  function CopyOn(into: Module, more: map<string, Entry>, order: seq<string>, i: nat, copying: Copying): Copied
    requires i <= |order| && forall k | 0 <= k < |order| :: order[k] in more
    decreases |order| - i
  {
    if i == |order| then Copied(into, true)
    else if order[i] in Entries(into) then Copied(into, false)
    else
      var e := more[order[i]];
      var next := WithEntry(into, order[i], ARuntime(Left(e, copying)));
      if CopiesWhole(e, copying) then CopyOn(next, more, order, i + 1, copying) else Copied(next, false)
  }

  function Joined(into: Module, src: Module): Module {
    var more := Entries(src);
    Added(into, more, more.Keys)
  }

  // ----- a folder -----

  predicate FolderMergeable(into: Folder, src: Folder, copying: Copying) {
    forall p | p in src && IsPart(src, p) :: IsPart(into, p) && Mergeable(into[p], src[p], copying)
  }

  function FolderJoined(into: Folder, src: Folder): Folder {
    map p | p in into :: if IsPart(src, p) then Joined(into[p], src[p]) else into[p]
  }

  predicate AllMergeable(into: Folder, from: seq<Folder>, copying: Copying) {
    from == [] || (FolderMergeable(into, from[0], copying) &&
      AllMergeable(FolderJoined(into, from[0]), from[1..], copying))
  }

  function AllJoined(into: Folder, from: seq<Folder>): Folder {
    if from == [] then into else AllJoined(FolderJoined(into, from[0]), from[1..])
  }

  /** Every file of `before` is there as it was, and every manifest. */
  ghost predicate Keeps(before: Folder, now: Folder) {
    && before.Keys == now.Keys
    && forall p | p in before ::
         && now[p].manifests == before[p].manifests
         && (before[p].runtimes.Some? ==> now[p].runtimes.Some?)
         && forall rid | rid in Entries(before[p]) ::
            rid in Entries(now[p]) && Entries(now[p])[rid] == Entries(before[p])[rid]
  }

  /** The folder merged into. */
  class Destination {
    var parts: Folder

    constructor (parts: Folder)
      ensures this.parts == parts
    {
      this.parts := parts;
    }

    method CopyRuntime(part: Part, rid: string, e: Entry, copying: Copying) returns (ok: bool)
      requires part in parts
      modifies this
      ensures ok == CopiesWhole(e, copying)
      ensures parts == old(parts)[part := WithEntry(old(parts[part]), rid, ARuntime(Left(e, copying)))]
    {
      parts := parts[part := parts[part].(runtimes := Some(Entries(parts[part])[rid := ARuntime(Left(e, copying))]))];
      return CopiesWhole(e, copying);
    }

    /** The runtimes go in one by one, in the order the folder lists them. */
    method MergeRuntimes(part: Part, src: Module, order: seq<string>, copying: Copying) returns (ok: bool)
      requires part in parts && (src.runtimes.Some? ==> IsListing(order, src.runtimes.value))
      modifies this
      ensures ok <==> Mergeable(old(parts[part]), src, copying)
      ensures ok ==> parts == old(parts)[part := Joined(old(parts[part]), src)]
      ensures Keeps(old(parts), parts)
      ensures if SameManifest(old(parts[part]), src) && src.runtimes.Some? then
                parts == old(parts)[part := CopyOn(old(parts[part]), src.runtimes.value, order, 0, copying).now]
              else parts == old(parts)
    {
      if !SameManifest(parts[part], src) || src.runtimes.None? {
        return false;
      }
      ok := MergeEntries(part, src.runtimes.value, order, copying);
      CopyingIs(old(parts[part]), src.runtimes.value, order, copying);
      ReplacingKeeps(old(parts), part, parts[part]);
    }

    method MergeEntries(part: Part, more: map<string, Entry>, order: seq<string>, copying: Copying) returns (ok: bool)
      requires part in parts && forall k | 0 <= k < |order| :: order[k] in more
      modifies this
      ensures var copied := CopyOn(old(parts[part]), more, order, 0, copying);
              parts == old(parts)[part := copied.now] && ok == copied.ok
    {
      ghost var before := parts;
      assert before[part := before[part]] == before;
      for i := 0 to |order|
        invariant part in parts && parts == before[part := parts[part]]
        invariant CopyOn(before[part], more, order, 0, copying) == CopyOn(parts[part], more, order, i, copying)
      {
        if order[i] in Entries(parts[part]) {
          return false;
        }
        ok := CopyRuntime(part, order[i], more[order[i]], copying);
        if !ok {
          return;
        }
      }
      return true;
    }

    /** The system lists a folder in some order. */
    static method List(entries: map<string, Entry>) returns (order: seq<string>)
      ensures IsListing(order, entries)
    {
      order := [];
      var rest := entries.Keys;
      while rest != {}
        invariant rest <= entries.Keys && forall rid :: rid in order <==> rid in entries && rid !in rest
        invariant forall i, j | 0 <= i < j < |order| :: order[i] != order[j]
        decreases |rest|
      {
        var rid :| rid in rest;
        order := order + [rid];
        rest := rest - {rid};
      }
    }

    /** The module's runtimes, then each bundled module's. */
    method MergeOne(src: Folder, copying: Copying) returns (ok: bool)
      requires Outer in parts && Outer in src
      modifies this
      ensures ok <==> FolderMergeable(old(parts), src, copying)
      ensures ok ==> parts == FolderJoined(old(parts), src)
      ensures Keeps(old(parts), parts)
    {
      ghost var before := parts;
      var order := List(Entries(src[Outer]));
      ok := MergeRuntimes(Outer, src[Outer], order, copying);
      if !ok {
        return;
      }
      ok := MergeInner(before, src, copying);
    }

    method MergeInner(ghost before: Folder, src: Folder, copying: Copying) returns (ok: bool)
      requires IsPart(src, Outer) && IsPart(before, Outer) && Mergeable(before[Outer], src[Outer], copying)
      requires parts == Partly(before, src, {Outer}) && Keeps(before, parts)
      modifies this
      ensures ok <==> FolderMergeable(before, src, copying)
      ensures ok ==> parts == FolderJoined(before, src)
      ensures Keeps(before, parts)
    {
      ghost var done := {Outer};
      var rest := set p | p in src && p.Inner? && IsPart(src, p);
      while rest != {}
        invariant forall p :: p in rest <==> p in src && IsPart(src, p) && p !in done
        invariant forall p | p in done :: IsPart(src, p) && IsPart(before, p) && Mergeable(before[p], src[p], copying)
        invariant parts == Partly(before, src, done)
        invariant Keeps(before, parts)
        decreases |rest|
      {
        var p :| p in rest;
        if !IsPart(parts, p) {
          return false;
        }
        ok := MergePart(before, p, src[p], copying);
        if !ok {
          return;
        }
        PartlyMore(before, src, done, p);
        done := done + {p};
        rest := rest - {p};
      }
      return true;
    }

    method MergePart(ghost before: Folder, part: Part, src: Module, copying: Copying) returns (ok: bool)
      requires part in parts && Keeps(before, parts)
      modifies this
      ensures ok <==> Mergeable(old(parts[part]), src, copying)
      ensures ok ==> parts == old(parts)[part := Joined(old(parts[part]), src)]
      ensures Keeps(before, parts)
    {
      ghost var now := parts;
      var order := List(Entries(src));
      ok := MergeRuntimes(part, src, order, copying);
      KeepsTwice(before, now, parts);
    }

    method Merge(from: seq<Folder>, copying: Copying) returns (ok: bool)
      requires Outer in parts && forall i | 0 <= i < |from| :: Outer in from[i]
      modifies this
      ensures ok <==> AllMergeable(old(parts), from, copying)
      ensures ok ==> parts == AllJoined(old(parts), from)
      ensures Keeps(old(parts), parts)
    {
      assert from[0..] == from;
      for i := 0 to |from|
        invariant Keeps(old(parts), parts) && Outer in parts
        invariant AllMergeable(old(parts), from, copying) == AllMergeable(parts, from[i..], copying)
        invariant AllJoined(old(parts), from) == AllJoined(parts, from[i..])
      {
        assert from[i..][1..] == from[i + 1..] && from[i..][0] == from[i];
        ghost var now := parts;
        ok := MergeOne(from[i], copying);
        KeepsTwice(old(parts), now, parts);
        if !ok {
          return;
        }
      }
      return true;
    }
  }

  // ----- the steps of the loops -----

  /** Every runtime of `into` is in `now` as it was. */
  predicate Extends(into: Module, now: Module) {
    && now.manifests == into.manifests && (into.runtimes.Some? ==> now.runtimes.Some?)
    && forall rid | rid in Entries(into) :: rid in Entries(now) && Entries(now)[rid] == Entries(into)[rid]
  }

  lemma {:induction false} ReplacingKeeps(before: Folder, part: Part, now: Module)
    requires part in before && Extends(before[part], now)
    ensures Keeps(before, before[part := now])
  {}

  function RidsFrom(order: seq<string>, i: nat): set<string> {
    set k | i <= k < |order| :: order[k]
  }

  lemma {:induction false} AddedAfterOne(into: Module, more: map<string, Entry>, rids: set<string>, rid: string)
    requires rids <= more.Keys && rid in more && rid !in rids
    ensures Added(WithEntry(into, rid, more[rid]), more, rids) == Added(into, more, rids + {rid})
  {
    var next := WithEntry(into, rid, more[rid]);
    assert rid in rids + {rid};
    var one, both := Added(next, more, rids), Added(into, more, rids + {rid});
    assert Entries(one) == Entries(both);
    assert one.manifests == both.manifests && one.runtimes.Some? && both.runtimes.Some?;
  }

  lemma {:induction false} OneMoreRid(order: seq<string>, i: nat)
    requires i < |order| && forall j, k | 0 <= j < k < |order| :: order[j] != order[k]
    ensures RidsFrom(order, i) == RidsFrom(order, i + 1) + {order[i]} && order[i] !in RidsFrom(order, i + 1)
  {}

  lemma {:induction false} CopiesAllWhen(
      into: Module, more: map<string, Entry>, order: seq<string>, i: nat, copying: Copying)
    requires i <= |order| && IsListing(order, more)
    ensures CopyOn(into, more, order, i, copying).ok <==>
            forall k | i <= k < |order| :: order[k] !in Entries(into) && CopiesWhole(more[order[k]], copying)
    decreases |order| - i
  {
    if i < |order| && order[i] !in Entries(into) && CopiesWhole(more[order[i]], copying) {
      var next := WithEntry(into, order[i], more[order[i]]);
      CopiesAllWhen(next, more, order, i + 1, copying);
      assert forall k | i < k < |order| :: order[k] in Entries(next) <==> order[k] in Entries(into);
    }
  }

  lemma {:induction false} CopyingExtends(
      into: Module, more: map<string, Entry>, order: seq<string>, i: nat, copying: Copying)
    requires i <= |order| && forall k | 0 <= k < |order| :: order[k] in more
    ensures Extends(into, CopyOn(into, more, order, i, copying).now)
    decreases |order| - i
  {
    if i < |order| && order[i] !in Entries(into) {
      var next := WithEntry(into, order[i], ARuntime(Left(more[order[i]], copying)));
      assert Extends(into, next);
      if CopiesWhole(more[order[i]], copying) {
        CopyingExtends(next, more, order, i + 1, copying);
      }
    }
  }

  lemma {:induction false} CopyingAdds(
      into: Module, more: map<string, Entry>, order: seq<string>, i: nat, copying: Copying)
    requires i <= |order| && IsListing(order, more) && CopyOn(into, more, order, i, copying).ok
    ensures RidsFrom(order, i) <= more.Keys
    ensures CopyOn(into, more, order, i, copying).now == Added(into, more, RidsFrom(order, i))
    decreases |order| - i
  {
    if i < |order| {
      var rid := order[i];
      CopyingAdds(WithEntry(into, rid, more[rid]), more, order, i + 1, copying);
      OneMoreRid(order, i);
      AddedAfterOne(into, more, RidsFrom(order, i + 1), rid);
    }
  }

  /** All are copied exactly when none is there yet and each copy is whole, and what is
      there already stays either way. */
  lemma {:induction false} CopyingIs(into: Module, more: map<string, Entry>, order: seq<string>, copying: Copying)
    requires IsListing(order, more)
    ensures var copied := CopyOn(into, more, order, 0, copying);
            && (copied.ok <==> forall rid | rid in more :: rid !in Entries(into) && CopiesWhole(more[rid], copying))
            && (copied.ok ==> copied.now == Added(into, more, more.Keys))
            && Extends(into, copied.now)
  {
    CopiesAllWhen(into, more, order, 0, copying);
    CopyingExtends(into, more, order, 0, copying);
    assert RidsFrom(order, 0) == more.Keys;
    if CopyOn(into, more, order, 0, copying).ok {
      CopyingAdds(into, more, order, 0, copying);
    }
  }

  lemma {:induction false} KeepsTwice(a: Folder, b: Folder, c: Folder)
    requires Keeps(a, b) && Keeps(b, c)
    ensures Keeps(a, c)
  {}

  /** `into` with the named parts of `src`. */
  ghost function Partly(into: Folder, src: Folder, parts: set<Part>): Folder {
    map p | p in into :: if p in parts && IsPart(src, p) then Joined(into[p], src[p]) else into[p]
  }

  lemma {:induction false} PartlyMore(into: Folder, src: Folder, done: set<Part>, p: Part)
    requires p !in done && p in into && IsPart(src, p)
    ensures Partly(into, src, done)[p := Joined(into[p], src[p])] == Partly(into, src, done + {p})
  {}

  // ----- what a refused merge has copied -----

  /** None of the runtimes is there yet. */
  predicate NoneThere(into: Module, more: map<string, Entry>) {
    forall rid | rid in more :: rid !in Entries(into)
  }

  /** All of them are. */
  predicate AllThere(into: Module, more: map<string, Entry>) {
    forall rid | rid in more :: rid in Entries(into)
  }

  predicate AllWhole(more: map<string, Entry>, copying: Copying) {
    forall rid | rid in more :: CopiesWhole(more[rid], copying)
  }

  /** Whatever order the folder is listed in, a merge refused leaves the module as it was. */
  ghost predicate RefusedBeforeCopying(into: Module, more: map<string, Entry>, copying: Copying) {
    forall order :: IsListing(order, more) && !CopyOn(into, more, order, 0, copying).ok ==>
      CopyOn(into, more, order, 0, copying).now == into
  }

  /** A runtime listed before one that is there already is copied by the time that one
      is refused. */
  lemma {:induction false} CopiesBeforeItRefuses(
      into: Module, more: map<string, Entry>, order: seq<string>, copying: Copying)
    requires IsListing(order, more) && AllWhole(more, copying)
    requires |order| > 1 && order[0] !in Entries(into) && order[1] in Entries(into)
    ensures CopyOn(into, more, order, 0, copying) == Copied(WithEntry(into, order[0], more[order[0]]), false)
    ensures WithEntry(into, order[0], more[order[0]]) != into
  {
    assert order[0] in order;
    var next := WithEntry(into, order[0], more[order[0]]);
    assert CopyOn(next, more, order, 1, copying) == Copied(next, false);
    assert order[0] in Entries(next);
  }

  /** Some listing begins with `first`. */
  lemma {:induction false} ListingBegins(first: seq<string>, more: map<string, Entry>) returns (order: seq<string>)
    requires forall k | 0 <= k < |first| :: first[k] in more
    requires forall i, j | 0 <= i < j < |first| :: first[i] != first[j]
    ensures IsListing(order, more) && |order| >= |first| && order[..|first|] == first
    decreases |more.Keys - set k | 0 <= k < |first| :: first[k]|
  {
    var left := more.Keys - set k | 0 <= k < |first| :: first[k];
    if left == {} {
      order := first;
      assert forall rid | rid in more :: rid in first by {
        assert forall rid | rid in more :: rid !in left;
      }
    } else {
      var rid :| rid in left;
      var longer := first + [rid];
      assert more.Keys - (set k | 0 <= k < |longer| :: longer[k]) == left - {rid} by {
        assert forall k | 0 <= k < |first| :: longer[k] == first[k];
        assert longer[|first|] == rid;
      }
      order := ListingBegins(longer, more);
      assert order[..|first|] == order[..|longer|][..|first|];
    }
  }

  /** Where every copy is whole, a merge refused has copied nothing, whatever order the
      folder is listed in, if and only if none of its runtimes is there yet or all are. */
  lemma {:induction false} RefusedBeforeCopyingExactlyWhen(into: Module, more: map<string, Entry>, copying: Copying)
    requires AllWhole(more, copying)
    ensures RefusedBeforeCopying(into, more, copying) <==> NoneThere(into, more) || AllThere(into, more)
  {
    if NoneThere(into, more) || AllThere(into, more) {
      forall order | IsListing(order, more) && !CopyOn(into, more, order, 0, copying).ok
        ensures CopyOn(into, more, order, 0, copying).now == into
      {
        CopyingIs(into, more, order, copying);
        assert order != [];
        assert order[0] in order;
      }
    } else {
      var a :| a in more && a !in Entries(into);
      var p :| p in more && p in Entries(into);
      var order := ListingBegins([a, p], more);
      assert order[..2][0] == a && order[..2][1] == p;
      CopiesBeforeItRefuses(into, more, order, copying);
    }
  }

  /** A run: a folder with win-x64 is given linux-x64 and win-x64, listed so, and is
      refused with linux-x64 in it. */
  lemma {:induction false} LinuxIsCopiedBeforeWindowsIsRefused(win: Runtime, linux: Runtime)
    ensures var manifests := map["Demo" := "@{}"];
            var into := Module(manifests, Some(map["win-x64" := ARuntime(win)]));
            var more := map["linux-x64" := ARuntime(linux), "win-x64" := ARuntime(win)];
            && SameManifest(into, Module(manifests, Some(more)))
            && IsListing(["linux-x64", "win-x64"], more)
            && CopyOn(into, more, ["linux-x64", "win-x64"], 0, _ => None) ==
               Copied(WithEntry(into, "linux-x64", ARuntime(linux)), false)
  {
    var manifests := map["Demo" := "@{}"];
    var into := Module(manifests, Some(map["win-x64" := ARuntime(win)]));
    var more := map["linux-x64" := ARuntime(linux), "win-x64" := ARuntime(win)];
    var order := ["linux-x64", "win-x64"];
    assert |manifests| == 1;
    assert "linux-x64"[0] == 'l' && "win-x64"[0] == 'w';
    assert order[0] == "linux-x64" && order[1] == "win-x64";
    CopiesBeforeItRefuses(into, more, order, _ => None);
  }

  // ----- the order of the builds does not matter -----

  lemma {:induction false} JoinedEntries(into: Module, src: Module)
    ensures Entries(Joined(into, src)) == Entries(into) + Entries(src)
    ensures Joined(into, src).manifests == into.manifests
    ensures Joined(into, src).runtimes.Some? <==> into.runtimes.Some? || Entries(src) != map[]
  {
    var more := Entries(src);
    assert more.Keys == {} <==> more == map[];
  }

  lemma {:induction false} ModulesSwap(a: Module, x: Module, y: Module, copying: Copying)
    requires Mergeable(a, x, copying) && Mergeable(Joined(a, x), y, copying)
    ensures Mergeable(a, y, copying) && Mergeable(Joined(a, y), x, copying)
    ensures Joined(Joined(a, x), y) == Joined(Joined(a, y), x)
  {
    JoinedEntries(a, x);
    JoinedEntries(a, y);
    JoinedEntries(Joined(a, x), y);
    JoinedEntries(Joined(a, y), x);
    assert Entries(a) + Entries(x) + Entries(y) == Entries(a) + Entries(y) + Entries(x);
    SameModule(Joined(Joined(a, x), y), Joined(Joined(a, y), x));
  }

  lemma {:induction false} SameModule(a: Module, b: Module)
    requires a.manifests == b.manifests && Entries(a) == Entries(b) && (a.runtimes.Some? <==> b.runtimes.Some?)
    ensures a == b
  {}

  lemma {:induction false} JoinedIsPart(into: Folder, src: Folder, p: Part)
    ensures IsPart(FolderJoined(into, src), p) <==> IsPart(into, p)
  {
    if p in into && IsPart(src, p) {
      JoinedEntries(into[p], src[p]);
    }
  }

  lemma {:induction false} PartsSwap(a: Folder, x: Folder, y: Folder, copying: Copying, p: Part)
    requires FolderMergeable(a, x, copying) && FolderMergeable(FolderJoined(a, x), y, copying)
    ensures IsPart(y, p) ==> IsPart(a, p) && Mergeable(a[p], y[p], copying)
    ensures IsPart(x, p) ==> IsPart(FolderJoined(a, y), p) && Mergeable(FolderJoined(a, y)[p], x[p], copying)
    ensures p in a ==> FolderJoined(FolderJoined(a, x), y)[p] == FolderJoined(FolderJoined(a, y), x)[p]
  {
    JoinedIsPart(a, x, p);
    JoinedIsPart(a, y, p);
    if IsPart(x, p) && IsPart(y, p) {
      ModulesSwap(a[p], x[p], y[p], copying);
    }
  }

  lemma {:induction false} FoldersSwap(a: Folder, x: Folder, y: Folder, copying: Copying)
    requires FolderMergeable(a, x, copying) && FolderMergeable(FolderJoined(a, x), y, copying)
    ensures FolderMergeable(a, y, copying) && FolderMergeable(FolderJoined(a, y), x, copying)
    ensures FolderJoined(FolderJoined(a, x), y) == FolderJoined(FolderJoined(a, y), x)
  {
    forall p: Part
      ensures IsPart(y, p) ==> IsPart(a, p) && Mergeable(a[p], y[p], copying)
      ensures IsPart(x, p) ==> IsPart(FolderJoined(a, y), p) && Mergeable(FolderJoined(a, y)[p], x[p], copying)
      ensures p in a ==> FolderJoined(FolderJoined(a, x), y)[p] == FolderJoined(FolderJoined(a, y), x)[p]
    {
      PartsSwap(a, x, y, copying, p);
    }
  }

  lemma {:induction false} ToFront(a: Folder, from: seq<Folder>, k: nat, copying: Copying)
    requires k < |from| && AllMergeable(a, from, copying)
    ensures AllMergeable(a, [from[k]] + (from[..k] + from[k + 1..]), copying)
    ensures AllJoined(a, from) == AllJoined(a, [from[k]] + (from[..k] + from[k + 1..]))
    decreases k
  {
    var y := from[k];
    if k == 0 {
      assert [y] + (from[..k] + from[k + 1..]) == from;
    } else {
      var x, tail := from[0], from[1..];
      var others := tail[..k - 1] + tail[k..];
      ToFront(FolderJoined(a, x), tail, k - 1, copying);
      assert from[..k] + from[k + 1..] == [x] + others;
      assert ([y] + others)[1..] == others && ([y] + ([x] + others))[1..] == [x] + others &&
          ([x] + others)[1..] == others;
      FoldersSwap(a, x, y, copying);
    }
  }

  /** Any order of the builds merges, to the same folder. */
  lemma {:induction false} MergeIgnoresOrder(a: Folder, from: seq<Folder>, permuted: seq<Folder>, copying: Copying)
    requires multiset(from) == multiset(permuted) && AllMergeable(a, permuted, copying)
    ensures AllMergeable(a, from, copying) && AllJoined(a, from) == AllJoined(a, permuted)
    decreases |from|
  {
    if from == [] {
      assert |multiset(permuted)| == 0;
    } else {
      assert from[0] in multiset(permuted);
      var k :| 0 <= k < |permuted| && permuted[k] == from[0];
      var others := permuted[..k] + permuted[k + 1..];
      ToFront(a, permuted, k, copying);
      assert ([from[0]] + others)[1..] == others;
      assert permuted == permuted[..k] + [permuted[k]] + permuted[k + 1..];
      assert from == [from[0]] + from[1..];
      assert multiset(from[1..]) == multiset(from) - multiset{from[0]};
      assert multiset(others) == multiset(permuted) - multiset{from[0]};
      MergeIgnoresOrder(FolderJoined(a, from[0]), from[1..], others, copying);
    }
  }
}
