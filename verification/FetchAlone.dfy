/** One build of crates/cargo-pwrs/src/native_files.rs fetching with no other at work: the
    run of steps that the answers of the system give, and where it ends. */
module FetchAlone {
  import opened Results
  import opened DownloadStore

  /** What a build does next, as the system answers; `wrote` when curl has written. */
  function Act(os: Answers, phase: Phase, wrote: bool): Action {
    match phase
    case Checking(_) => Check
    case Hashing(_) => if os.canRead then Hash else Fail
    case Removing(_) => if os.canRemove then Remove else Fail
    case Downloading(_) =>
      if !os.canMake || !os.canRun then Fail
      else if os.writes.Some? && !wrote then Write(os.writes.value)
      else CurlEnds(os.succeeds)
    case Verifying(_) => if os.canReadPartial then Verify else Fail
    case Renaming(_) => if os.canRename then Replace else RefuseRename
    case RenameFailed(_) => Look
    case Yielding(_) => Discard(os.canDiscard)
    case Discarding(_) => Discard(os.canDiscard)
    case Fetched(_) => Crash
    case Failed(_) => Crash
  }

  predicate Wrote(before: State, pid: nat) {
    pid in before.builds && before.builds[pid].Downloading?
  }

  /** A run of build `pid` alone: it starts to fetch `e`, and then each step is the one
      the answers give. */
  ghost predicate IsAlone(hash: string -> string, e: Entry, pid: nat, os: Answers, run: seq<State>) {
    && |run| >= 2
    && run[0].builds == map[]
    && Next(hash, run[0], pid, Start(e)) == Some(run[1])
    && (forall i | 1 <= i < |run| :: pid in run[i].builds)
    && (forall i | 1 <= i < |run| - 1 :: Goes(hash, pid, os, run[i - 1], run[i], run[i + 1]))
  }

  predicate Goes(hash: string -> string, pid: nat, os: Answers, before: State, s: State, t: State)
    requires pid in s.builds
  {
    !Idle(s, pid) && Next(hash, s, pid, Act(os, s.builds[pid], Wrote(before, pid))) == Some(t)
  }

  /** The state where the one build is at `phase`. */
  function At(files: map<Path, string>, pid: nat, phase: Phase): State {
    State(files, map[pid := phase])
  }

  lemma {:induction false} Begin(hash: string -> string, e: Entry, pid: nat, os: Answers, files: map<Path, string>)
    returns (run: seq<State>)
    ensures IsAlone(hash, e, pid, os, run) && run == [State(files, map[]), At(files, pid, Checking(e))]
  {
    run := [State(files, map[]), At(files, pid, Checking(e))];
    assert map[][pid := Checking(e)] == map[pid := Checking(e)];
  }

  /** The run with one step more, to where the build is at `phase` of a store `files`. */
  lemma {:induction false} GoOn(
      hash: string -> string, e: Entry, pid: nat, os: Answers, run: seq<State>, files: map<Path, string>, phase: Phase)
    returns (longer: seq<State>)
    requires IsAlone(hash, e, pid, os, run)
    requires Goes(hash, pid, os, run[|run| - 2], run[|run| - 1], At(files, pid, phase))
    ensures IsAlone(hash, e, pid, os, longer) && |longer| == |run| + 1 && longer[..|run|] == run
    ensures longer[|longer| - 2] == run[|run| - 1] && longer[|longer| - 1] == At(files, pid, phase)
  {
    longer := run + [At(files, pid, phase)];
    StillGoes(hash, e, pid, os, run, At(files, pid, phase));
  }

  lemma {:induction false} StillGoes(hash: string -> string, e: Entry, pid: nat, os: Answers, run: seq<State>, t: State)
    requires IsAlone(hash, e, pid, os, run) && Goes(hash, pid, os, run[|run| - 2], run[|run| - 1], t)
    ensures var longer := run + [t];
            forall i | 1 <= i < |run| :: Goes(hash, pid, os, longer[i - 1], longer[i], longer[i + 1])
  {
    var longer := run + [t];
    forall i | 1 <= i < |run| ensures Goes(hash, pid, os, longer[i - 1], longer[i], longer[i + 1]) {
      assert longer[i - 1] == run[i - 1] && longer[i] == run[i];
      assert longer[i + 1] == if i < |run| - 1 then run[i + 1] else t;
    }
  }

  lemma {:induction false} EnterAt(files: map<Path, string>, pid: nat, from: Phase, to: Phase)
    ensures Enter(At(files, pid, from), pid, to) == At(files, pid, to)
  {
    assert map[pid := from][pid := to] == map[pid := to];
  }

  predicate Ends(run: seq<State>, pid: nat, files: map<Path, string>, phase: Phase) {
    run != [] && run[|run| - 1] == At(files, pid, phase)
  }

  /** From a place where the next step does not ask whether curl has written. */
  lemma {:induction false} GoFrom(
      hash: string -> string, e: Entry, pid: nat, os: Answers, run: seq<State>,
      files: map<Path, string>, from: Phase, left: map<Path, string>, to: Phase)
    returns (longer: seq<State>)
    requires IsAlone(hash, e, pid, os, run) && Ends(run, pid, files, from)
    requires !from.Downloading? && !from.Fetched? && !from.Failed?
    requires Next(hash, At(files, pid, from), pid, Act(os, from, false)) == Some(At(left, pid, to))
    ensures IsAlone(hash, e, pid, os, longer) && Ends(longer, pid, left, to)
    ensures |longer| > |run| && longer[..|run|] == run && longer[|longer| - 2] == At(files, pid, from)
  {
    longer := GoOn(hash, e, pid, os, run, left, to);
  }

  lemma {:induction false} Discards(
      hash: string -> string, e: Entry, pid: nat, os: Answers, run: seq<State>, files: map<Path, string>)
    returns (longer: seq<State>)
    requires IsAlone(hash, e, pid, os, run) && Ends(run, pid, files, Discarding(e))
    ensures IsAlone(hash, e, pid, os, longer) && |longer| > |run| && longer[..|run|] == run
    ensures Ends(longer, pid, if os.canDiscard then files - {Partial(e, pid)} else files, Failed(e))
  {
    EnterAt(files, pid, Discarding(e), Failed(e));
    longer := GoFrom(hash, e, pid, os, run, files, Discarding(e),
      if os.canDiscard then files - {Partial(e, pid)} else files, Failed(e));
  }

  /** The partial file is read with the pinned hash and renamed. */
  predicate IsStored(hash: string -> string, files: map<Path, string>, e: Entry, pid: nat, os: Answers) {
    && os.canReadPartial && os.canRename
    && Partial(e, pid) in files && hash(files[Partial(e, pid)]) == e.sha256
  }

  function LeftByCheck(
      hash: string -> string, files: map<Path, string>, e: Entry, pid: nat, os: Answers): map<Path, string> {
    var partial := Partial(e, pid);
    if partial !in files || !os.canReadPartial then files
    else if IsStored(hash, files, e, pid, os) then (files - {partial})[Kept(e) := files[partial]]
    else if os.canDiscard then files - {partial}
    else files
  }

  lemma {:induction false} FromRenaming(
      hash: string -> string, e: Entry, pid: nat, os: Answers, run: seq<State>, files: map<Path, string>)
    returns (longer: seq<State>)
    requires IsAlone(hash, e, pid, os, run) && Ends(run, pid, files, Renaming(e)) && Kept(e) !in files
    requires Partial(e, pid) in files
    ensures IsAlone(hash, e, pid, os, longer) && |longer| > |run| && longer[..|run|] == run
    ensures os.canRename ==>
        Ends(longer, pid, (files - {Partial(e, pid)})[Kept(e) := files[Partial(e, pid)]], Fetched(e))
    ensures !os.canRename ==> Ends(longer, pid, if os.canDiscard then files - {Partial(e, pid)} else files, Failed(e))
  {
    var partial := Partial(e, pid);
    if os.canRename {
      EnterAt(files, pid, Renaming(e), Fetched(e));
      longer := GoFrom(hash, e, pid, os, run,
        files, Renaming(e), (files - {partial})[Kept(e) := files[partial]], Fetched(e));
    } else {
      EnterAt(files, pid, Renaming(e), RenameFailed(e));
      EnterAt(files, pid, RenameFailed(e), Discarding(e));
      longer := GoFrom(hash, e, pid, os, run, files, Renaming(e), files, RenameFailed(e));
      longer := GoFrom(hash, e, pid, os, longer, files, RenameFailed(e), files, Discarding(e));
      longer := Discards(hash, e, pid, os, longer, files);
    }
  }

  lemma {:induction false} FromVerifying(
      hash: string -> string, e: Entry, pid: nat, os: Answers, run: seq<State>, files: map<Path, string>)
    returns (longer: seq<State>)
    requires IsAlone(hash, e, pid, os, run) && Ends(run, pid, files, Verifying(e)) && Kept(e) !in files
    ensures IsAlone(hash, e, pid, os, longer) && |longer| > |run| && longer[..|run|] == run
    ensures Ends(longer, pid, LeftByCheck(hash, files, e, pid, os),
                 if IsStored(hash, files, e, pid, os) then Fetched(e) else Failed(e))
  {
    var partial := Partial(e, pid);
    EnterAt(files, pid, Verifying(e), Failed(e));
    EnterAt(files, pid, Verifying(e), Renaming(e));
    EnterAt(files, pid, Verifying(e), Discarding(e));
    if partial !in files || !os.canReadPartial {
      longer := GoFrom(hash, e, pid, os, run, files, Verifying(e), files, Failed(e));
    } else if hash(files[partial]) == e.sha256 {
      longer := GoFrom(hash, e, pid, os, run, files, Verifying(e), files, Renaming(e));
      longer := FromRenaming(hash, e, pid, os, longer, files);
    } else {
      longer := GoFrom(hash, e, pid, os, run, files, Verifying(e), files, Discarding(e));
      longer := Discards(hash, e, pid, os, longer, files);
    }
  }

  /** From when curl has written what it writes. */
  lemma {:induction false} FromWritten(
      hash: string -> string, e: Entry, pid: nat, os: Answers, run: seq<State>, files: map<Path, string>)
    returns (longer: seq<State>)
    requires IsAlone(hash, e, pid, os, run) && Ends(run, pid, files, Downloading(e)) && Kept(e) !in files
    requires os.canMake && os.canRun && (os.writes.Some? ==> Wrote(run[|run| - 2], pid))
    ensures IsAlone(hash, e, pid, os, longer) && |longer| > |run| && longer[..|run|] == run
    ensures os.succeeds ==> Ends(longer, pid, LeftByCheck(hash, files, e, pid, os),
                                 if IsStored(hash, files, e, pid, os) then Fetched(e) else Failed(e))
    ensures !os.succeeds ==> Ends(longer, pid, if os.canDiscard then files - {Partial(e, pid)} else files, Failed(e))
  {
    EnterAt(files, pid, Downloading(e), Verifying(e));
    EnterAt(files, pid, Downloading(e), Discarding(e));
    longer := GoOn(hash, e, pid, os, run, files, if os.succeeds then Verifying(e) else Discarding(e));
    if os.succeeds {
      longer := FromVerifying(hash, e, pid, os, longer, files);
    } else {
      longer := Discards(hash, e, pid, os, longer, files);
    }
  }

  lemma {:induction false} FromDownloading(
      hash: string -> string, e: Entry, pid: nat, os: Answers, run: seq<State>, files: map<Path, string>)
    returns (longer: seq<State>)
    requires IsAlone(hash, e, pid, os, run) && Ends(run, pid, files, Downloading(e)) && Kept(e) !in files
    requires !Wrote(run[|run| - 2], pid)
    ensures IsAlone(hash, e, pid, os, longer) && |longer| > |run| && longer[..|run|] == run
    ensures Ends(longer, pid, LeftByDownload(hash, files, e, pid, os),
                 if Arrives(hash, files, e, pid, os) then Fetched(e) else Failed(e))
  {
    if !os.canMake || !os.canRun {
      EnterAt(files, pid, Downloading(e), Failed(e));
      longer := GoOn(hash, e, pid, os, run, files, Failed(e));
    } else if os.writes.Some? {
      var written := files[Partial(e, pid) := os.writes.value];
      assert |Kept(e).file| < |Partial(e, pid).file|;
      longer := GoOn(hash, e, pid, os, run, written, Downloading(e));
      longer := FromWritten(hash, e, pid, os, longer, written);
    } else {
      longer := FromWritten(hash, e, pid, os, run, files);
    }
  }

  lemma {:induction false} NothingToRemove(files: map<Path, string>, p: Path)
    requires p !in files
    ensures files - {p} == files
  {}

  /** Alone, a build goes step by step where the answers of the system lead it: whatever
      is in the store, the run ends with the file fetched exactly when `Store.Fetch`
      returns it, failed otherwise, and in the store that call leaves. */
  lemma {:induction false} RunRefinesFetch(
      hash: string -> string, e: Entry, pid: nat, os: Answers, files: map<Path, string>)
    returns (run: seq<State>)
    ensures IsAlone(hash, e, pid, os, run) && run[0] == State(files, map[])
    ensures Ends(run, pid, Left(hash, files, e, pid, os),
                 if IsHeld(hash, files, e, os) || (GoesOn(hash, files, e, os) && Arrives(hash, files, e, pid, os))
                 then Fetched(e) else Failed(e))
  {
    run := Begin(hash, e, pid, os, files);
    if Kept(e) in files {
      EnterAt(files, pid, Checking(e), Hashing(e));
      run := GoFrom(hash, e, pid, os, run, files, Checking(e), files, Hashing(e));
      run := FromHashing(hash, e, pid, os, run, files);
    } else {
      EnterAt(files, pid, Checking(e), Downloading(e));
      NothingToRemove(files, Kept(e));
      run := GoFrom(hash, e, pid, os, run, files, Checking(e), files, Downloading(e));
      run := FromDownloading(hash, e, pid, os, run, files);
    }
  }

  lemma {:induction false} FromHashing(
      hash: string -> string, e: Entry, pid: nat, os: Answers, run: seq<State>, files: map<Path, string>)
    returns (longer: seq<State>)
    requires IsAlone(hash, e, pid, os, run) && Ends(run, pid, files, Hashing(e)) && Kept(e) in files
    ensures IsAlone(hash, e, pid, os, longer) && |longer| > |run| && longer[..|run|] == run
    ensures Ends(longer, pid, Left(hash, files, e, pid, os),
                 if IsHeld(hash, files, e, os) || (GoesOn(hash, files, e, os) && Arrives(hash, files, e, pid, os))
                 then Fetched(e) else Failed(e))
  {
    EnterAt(files, pid, Hashing(e), Failed(e));
    EnterAt(files, pid, Hashing(e), Fetched(e));
    EnterAt(files, pid, Hashing(e), Removing(e));
    if !os.canRead {
      longer := GoFrom(hash, e, pid, os, run, files, Hashing(e), files, Failed(e));
    } else if hash(files[Kept(e)]) == e.sha256 {
      longer := GoFrom(hash, e, pid, os, run, files, Hashing(e), files, Fetched(e));
    } else {
      longer := GoFrom(hash, e, pid, os, run, files, Hashing(e), files, Removing(e));
      longer := FromRemoving(hash, e, pid, os, longer, files);
    }
  }

  lemma {:induction false} FromRemoving(
      hash: string -> string, e: Entry, pid: nat, os: Answers, run: seq<State>, files: map<Path, string>)
    returns (longer: seq<State>)
    requires IsAlone(hash, e, pid, os, run) && Ends(run, pid, files, Removing(e)) && Kept(e) in files
    ensures IsAlone(hash, e, pid, os, longer) && |longer| > |run| && longer[..|run|] == run
    ensures os.canRemove ==>
              Ends(longer, pid, LeftByDownload(hash, files - {Kept(e)}, e, pid, os),
                   if Arrives(hash, files - {Kept(e)}, e, pid, os) then Fetched(e) else Failed(e))
              && (Arrives(hash, files - {Kept(e)}, e, pid, os) <==> Arrives(hash, files, e, pid, os))
    ensures !os.canRemove ==> Ends(longer, pid, files, Failed(e))
  {
    EnterAt(files, pid, Removing(e), Failed(e));
    EnterAt(files, pid, Removing(e), Downloading(e));
    if os.canRemove {
      assert |Kept(e).file| < |Partial(e, pid).file|;
      longer := GoFrom(hash, e, pid, os, run, files, Removing(e), files - {Kept(e)}, Downloading(e));
      longer := FromDownloading(hash, e, pid, os, longer, files - {Kept(e)});
    } else {
      longer := GoFrom(hash, e, pid, os, run, files, Removing(e), files, Failed(e));
    }
  }

  // ----- a refused rename -----

  /** The state after build `pid` does these one after another. */
  function Does(hash: string -> string, s: State, pid: nat, acts: seq<Action>): Option<State>
    decreases |acts|
  {
    if acts == [] then Some(s)
    else
      match Next(hash, s, pid, acts[0])
      case None => None
      case Some(t) => Does(hash, t, pid, acts[1..])
  }

  /** A build whose rename is refused has its file all the same, when another build's is
      there by the time it looks, and otherwise fails; of its own download nothing is
      left that can be removed, and no other file changes. */
  lemma {:induction false} RefusedRename(hash: string -> string, s: State, pid: nat, e: Entry, removed: bool)
    requires pid in s.builds && s.builds[pid] == Renaming(e)
    ensures Does(hash, s, pid, [RefuseRename, Look, Discard(removed)]) ==
            Some(State(if removed then s.store - {Partial(e, pid)} else s.store,
                       s.builds[pid := if Kept(e) in s.store then Fetched(e) else Failed(e)]))
  {
    var there := Kept(e) in s.store;
    var s1 := Enter(s, pid, RenameFailed(e));
    var s2 := Enter(s1, pid, if there then Yielding(e) else Discarding(e));
    var s3 := State(
      if removed then s.store - {Partial(e, pid)} else s.store,
      s.builds[pid := if there then Fetched(e) else Failed(e)]);
    assert s2.builds[pid := if there then Fetched(e) else Failed(e)] == s3.builds;
    assert Next(hash, s, pid, RefuseRename) == Some(s1);
    assert Next(hash, s1, pid, Look) == Some(s2);
    assert Next(hash, s2, pid, Discard(removed)) == Some(s3);
    var all := [RefuseRename, Look, Discard(removed)];
    assert all[1..] == [Look, Discard(removed)] && all[1..][1..] == [Discard(removed)];
    assert [Discard(removed)][1..] == [];
    assert Does(hash, s3, pid, []) == Some(s3);
    assert Does(hash, s2, pid, [Discard(removed)]) == Some(s3);
    assert Does(hash, s1, pid, [Look, Discard(removed)]) == Some(s3);
  }

  /** A build that is to read or remove a file another took away fails, and changes nothing. */
  lemma {:induction false} TakenAwayFails(hash: string -> string, s: State, pid: nat, e: Entry)
    requires pid in s.builds
    ensures s.builds[pid] == Hashing(e) && Kept(e) !in s.store ==>
              Next(hash, s, pid, Hash) == Some(s.(builds := s.builds[pid := Failed(e)]))
    ensures s.builds[pid] == Removing(e) && Kept(e) !in s.store ==>
              Next(hash, s, pid, Remove) == Some(s.(builds := s.builds[pid := Failed(e)]))
    ensures s.builds[pid] == Verifying(e) && Partial(e, pid) !in s.store ==>
              Next(hash, s, pid, Verify) == Some(s.(builds := s.builds[pid := Failed(e)]))
    ensures s.builds[pid] == Renaming(e) && Partial(e, pid) !in s.store ==> Next(hash, s, pid, Replace) == None
  {}
}
