/** When builds merge, and to what, said of all of them at once: `merge` of
    crates/cargo-pwrs/src/merge.rs takes them one after another. */
module MergeExactly {
  import opened Results
  import opened ModuleFolders
  import opened ModuleMerge

  /** The build's part is one of the module's, and none of its runtimes is there. */
  ghost predicate GoesInto(into: Module, src: Module, copying: Copying) {
    && (exists name, t, u ::
          into.manifests == map[name := t] && src.manifests == map[name := u] && Unsigned(t) == Unsigned(u))
    && src.runtimes.Some?
    && (forall rid | rid in src.runtimes.value :: src.runtimes.value[rid].ARuntime?)
    && (forall rid | rid in src.runtimes.value :: copying(src.runtimes.value[rid]).None?)
    && NoneShared(into, src)
  }

  predicate NoneShared(a: Module, b: Module) {
    forall rid | rid in Entries(b) :: rid !in Entries(a)
  }

  lemma {:induction false} MergeableIs(into: Module, src: Module, copying: Copying)
    ensures Mergeable(into, src, copying) <==> GoesInto(into, src, copying)
  {
    SameManifestExactlyWhen(into, src);
  }

  /** Each part of the build goes into the folder's. */
  ghost predicate BuildGoesInto(a: Folder, x: Folder, copying: Copying) {
    forall p | IsPart(x, p) :: IsPart(a, p) && GoesInto(a[p], x[p], copying)
  }

  /** No part of both has a runtime of both. */
  ghost predicate BuildsShareNone(x: Folder, y: Folder) {
    forall p | IsPart(x, p) && IsPart(y, p) :: NoneShared(x[p], y[p])
  }

  ghost predicate EachGoesInto(a: Folder, from: seq<Folder>, copying: Copying) {
    forall k | 0 <= k < |from| :: BuildGoesInto(a, from[k], copying)
  }

  ghost predicate NoTwoShare(from: seq<Folder>) {
    forall j, k | 0 <= j < k < |from| :: BuildsShareNone(from[j], from[k])
  }

  ghost predicate SharesWithNone(x: Folder, rest: seq<Folder>) {
    forall k | 0 <= k < |rest| :: BuildsShareNone(x, rest[k])
  }

  lemma {:induction false} GoesAfter(into: Module, x: Module, y: Module, copying: Copying)
    ensures GoesInto(Joined(into, x), y, copying) <==> GoesInto(into, y, copying) && NoneShared(x, y)
  {
    JoinedEntries(into, x);
    assert forall rid :: rid in Entries(Joined(into, x)) <==> rid in Entries(into) || rid in Entries(x);
  }

  lemma {:induction false} PartGoesAfter(a: Folder, x: Folder, y: Folder, p: Part, copying: Copying)
    requires IsPart(y, p)
    ensures IsPart(FolderJoined(a, x), p) && GoesInto(FolderJoined(a, x)[p], y[p], copying) <==>
            && IsPart(a, p) && GoesInto(a[p], y[p], copying)
            && (IsPart(x, p) ==> NoneShared(x[p], y[p]))
  {
    JoinedIsPart(a, x, p);
    if IsPart(a, p) && IsPart(x, p) {
      GoesAfter(a[p], x[p], y[p], copying);
    }
  }

  lemma {:induction false} FirstGoesInto(a: Folder, x: Folder, copying: Copying)
    ensures FolderMergeable(a, x, copying) <==> BuildGoesInto(a, x, copying)
  {
    forall p | IsPart(x, p) && IsPart(a, p) ensures Mergeable(a[p], x[p], copying) <==> GoesInto(a[p], x[p], copying) {
      MergeableIs(a[p], x[p], copying);
    }
  }

  lemma {:induction false} BuildGoesAfter(a: Folder, x: Folder, y: Folder, copying: Copying)
    ensures BuildGoesInto(FolderJoined(a, x), y, copying) <==> BuildGoesInto(a, y, copying) && BuildsShareNone(x, y)
  {
    forall p | IsPart(y, p)
      ensures IsPart(FolderJoined(a, x), p) && GoesInto(FolderJoined(a, x)[p], y[p], copying) <==>
              IsPart(a, p) && GoesInto(a[p], y[p], copying) && (IsPart(x, p) ==> NoneShared(x[p], y[p]))
    {
      PartGoesAfter(a, x, y, p, copying);
    }
  }

  lemma {:induction false} RestGoesAfter(a: Folder, x: Folder, rest: seq<Folder>, copying: Copying)
    ensures EachGoesInto(FolderJoined(a, x), rest, copying) <==>
        EachGoesInto(a, rest, copying) && SharesWithNone(x, rest)
  {
    forall k | 0 <= k < |rest|
      ensures BuildGoesInto(FolderJoined(a, x), rest[k], copying) <==>
              BuildGoesInto(a, rest[k], copying) && BuildsShareNone(x, rest[k])
    {
      BuildGoesAfter(a, x, rest[k], copying);
    }
  }

  lemma {:induction false} FirstAndRest(a: Folder, from: seq<Folder>, copying: Copying)
    requires from != []
    ensures EachGoesInto(a, from, copying) <==>
        BuildGoesInto(a, from[0], copying) && EachGoesInto(a, from[1..], copying)
    ensures NoTwoShare(from) <==> SharesWithNone(from[0], from[1..]) && NoTwoShare(from[1..])
  {
    var rest := from[1..];
    assert forall k | 0 < k < |from| :: from[k] == rest[k - 1];
    assert forall k | 0 <= k < |rest| :: rest[k] == from[k + 1];
  }

  /** Builds merge one after another exactly when each of them goes into the folder as it
      was before, and no two share a runtime of one part. */
  lemma {:induction false} MergesExactlyWhen(a: Folder, from: seq<Folder>, copying: Copying)
    ensures AllMergeable(a, from, copying) <==> EachGoesInto(a, from, copying) && NoTwoShare(from)
    decreases |from|
  {
    if from != [] {
      FirstGoesInto(a, from[0], copying);
      MergesExactlyWhen(FolderJoined(a, from[0]), from[1..], copying);
      RestGoesAfter(a, from[0], from[1..], copying);
      FirstAndRest(a, from, copying);
    }
  }

  // ----- what the folder has -----

  predicate Has(m: Module, rid: string, e: Entry) {
    rid in Entries(m) && Entries(m)[rid] == e
  }

  /** Some build's part has the runtime so. */
  ghost predicate SomeHas(from: seq<Folder>, p: Part, rid: string, e: Entry) {
    exists k | 0 <= k < |from| :: IsPart(from[k], p) && Has(from[k][p], rid, e)
  }

  lemma {:induction false} FirstOrRestHas(from: seq<Folder>, p: Part, rid: string, e: Entry)
    requires from != []
    ensures SomeHas(from, p, rid, e) <==>
            (IsPart(from[0], p) && Has(from[0][p], rid, e)) || SomeHas(from[1..], p, rid, e)
  {
    var rest := from[1..];
    assert forall k | 0 <= k < |rest| :: rest[k] == from[k + 1];
    if k :| 1 <= k < |from| && IsPart(from[k], p) && Has(from[k][p], rid, e) {
      assert rest[k - 1] == from[k];
    }
  }

  lemma {:induction false} PartAfter(a: Folder, x: Folder, p: Part, rid: string, e: Entry, copying: Copying)
    requires p in a && FolderMergeable(a, x, copying)
    ensures FolderJoined(a, x)[p].manifests == a[p].manifests
    ensures Has(FolderJoined(a, x)[p], rid, e) <==> Has(a[p], rid, e) || (IsPart(x, p) && Has(x[p], rid, e))
  {
    if IsPart(x, p) {
      JoinedEntries(a[p], x[p]);
    }
  }

  /** Of builds that merge the folder has, part by part, its own runtimes and all of
      theirs as they are, and no other, under its own manifests. */
  lemma {:induction false} MergedHasEach(
      a: Folder, from: seq<Folder>, p: Part, rid: string, e: Entry, copying: Copying)
    requires AllMergeable(a, from, copying) && p in a
    ensures AllJoined(a, from).Keys == a.Keys && AllJoined(a, from)[p].manifests == a[p].manifests
    ensures Has(AllJoined(a, from)[p], rid, e) <==> Has(a[p], rid, e) || SomeHas(from, p, rid, e)
    decreases |from|
  {
    if from != [] {
      MergedHasEach(FolderJoined(a, from[0]), from[1..], p, rid, e, copying);
      PartAfter(a, from[0], p, rid, e, copying);
      FirstOrRestHas(from, p, rid, e);
    }
  }
}
