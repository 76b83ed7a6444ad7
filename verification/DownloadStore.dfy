/** The shared download store of crates/cargo-pwrs/src/native_files.rs: any number of
    builds, each a process, fetching files into one store at once. Every call `fetch`
    makes to the file system is a step of its own, and the steps of different builds
    interleave in any way. A build may crash between any two of its steps, a rename
    may replace the file already there or fail, as systems differ, and any call may
    fail. The hash is any function of a file's content. */
module DownloadStore {
  import opened Results

  /** A file to fetch: the SHA-256 its entry pins and the name its download is
      stored under. */
  datatype Entry = Entry(sha256: string, name: string)

  datatype Path = Path(folder: string, file: string)

  function Kept(e: Entry): Path {
    Path(e.sha256, e.name)
  }

  function Decimal(n: nat): (s: string)
    ensures s != [] && forall i | 0 <= i < |s| :: '0' <= s[i] <= '9'
  {
    var digit := ['0' + (n % 10) as char];
    if n < 10 then digit else Decimal(n / 10) + digit
  }

  const PARTIAL := ".partial-"

  function Partial(e: Entry, pid: nat): Path {
    Path(e.sha256, e.name + PARTIAL + Decimal(pid))
  }

  /** Where a build is in `fetch`. */
  datatype Phase =
    | Checking(e: Entry)      // about to ask whether the kept file is there
    | Hashing(e: Entry)       // it was; about to read and hash it
    | Removing(e: Entry)      // its hash was another; about to remove it
    | Downloading(e: Entry)   // curl is writing the partial file
    | Verifying(e: Entry)     // curl succeeded; about to hash the partial file
    | Renaming(e: Entry)      // its hash is the pin; about to rename it
    | RenameFailed(e: Entry)  // about to ask whether another build stored it first
    | Yielding(e: Entry)      // it did; about to discard the partial file
    | Discarding(e: Entry)    // about to discard the partial file and fail
    | Fetched(e: Entry)       // `fetch` returned Ok
    | Failed(e: Entry)        // `fetch` returned Err

  datatype State = State(store: map<Path, string>, builds: map<nat, Phase>)

  datatype Action =
    | Start(e: Entry)
    | Check
    | Hash
    | Remove
    | Write(bytes: string)
    | CurlEnds(ok: bool)
    | Verify
    | Replace
    | RefuseRename
    | Look
    | Discard(removed: bool)
    | Fail
    | Crash

  predicate Idle(s: State, pid: nat) {
    pid !in s.builds || s.builds[pid].Fetched? || s.builds[pid].Failed?
  }

  function Enter(s: State, pid: nat, phase: Phase): State {
    s.(builds := s.builds[pid := phase])
  }

  function Without(store: map<Path, string>, p: Path): map<Path, string> {
    store - {p}
  }

  /** The state after build `pid` does `a`; `None` when it cannot do that there. */
  function Next(hash: string -> string, s: State, pid: nat, a: Action): Option<State> {
    if a.Start? then
      if Idle(s, pid) then Some(Enter(s, pid, Checking(a.e))) else None
    else if a.Crash? then
      if pid in s.builds then Some(s.(builds := s.builds - {pid})) else None
    else if Idle(s, pid) then None
    else
      var phase := s.builds[pid];
      var e := phase.e;
      var kept, partial := Kept(e), Partial(e, pid);
      match (phase, a)
      case (_, Fail) => Some(Enter(s, pid, Failed(e)))
      case (Checking(_), Check) => Some(Enter(s, pid, if kept in s.store then Hashing(e) else Downloading(e)))
      case (Hashing(_), Hash) =>
        if kept !in s.store then Some(Enter(s, pid, Failed(e)))
        else Some(Enter(s, pid, if hash(s.store[kept]) == e.sha256 then Fetched(e) else Removing(e)))
      case (Removing(_), Remove) =>
        if kept !in s.store then Some(Enter(s, pid, Failed(e)))
        else Some(Enter(s, pid, Downloading(e)).(store := Without(s.store, kept)))
      case (Downloading(_), Write(bytes)) => Some(s.(store := s.store[partial := bytes]))
      case (Downloading(_), CurlEnds(ok)) => Some(Enter(s, pid, if ok then Verifying(e) else Discarding(e)))
      case (Verifying(_), Verify) =>
        if partial !in s.store then Some(Enter(s, pid, Failed(e)))
        else Some(Enter(s, pid, if hash(s.store[partial]) == e.sha256 then Renaming(e) else Discarding(e)))
      case (Renaming(_), Replace) =>
        if partial !in s.store then None
        else Some(Enter(s, pid, Fetched(e)).(store := Without(s.store, partial)[kept := s.store[partial]]))
      case (Renaming(_), RefuseRename) => Some(Enter(s, pid, RenameFailed(e)))
      case (RenameFailed(_), Look) => Some(Enter(s, pid, if kept in s.store then Yielding(e) else Discarding(e)))
      case (Yielding(_), Discard(removed)) =>
        Some(Enter(s, pid, Fetched(e)).(store := if removed then Without(s.store, partial) else s.store))
      case (Discarding(_), Discard(removed)) =>
        Some(Enter(s, pid, Failed(e)).(store := if removed then Without(s.store, partial) else s.store))
      case _ => None
  }

  /** One step of a run over the files `entries` names. */
  ghost predicate Step(hash: string -> string, entries: set<Entry>, s: State, t: State) {
    exists pid: nat, a: Action :: (a.Start? ==> a.e in entries) && Next(hash, s, pid, a) == Some(t)
  }

  /** A run from any store, no build yet started. */
  ghost predicate IsRun(hash: string -> string, entries: set<Entry>, run: seq<State>) {
    run != [] && run[0].builds == map[] && forall i | 0 <= i < |run| - 1 :: Step(hash, entries, run[i], run[i + 1])
  }

  // ----- names -----

  /** No file one entry keeps is a file another downloads to. A name a url ends in
      can be such a one: a download kept as `tool.partial-7` is where build 7
      downloads `tool` to when both pin one hash. */
  ghost predicate KeepsApart(entries: set<Entry>) {
    forall d, e, pid :: d in entries && e in entries ==> Kept(d) != Partial(e, pid)
  }

  /** Two builds never download to one file. */
  lemma {:induction false} PartialsDiffer(d: Entry, e: Entry, pid: nat, other: nat)
    requires Partial(d, pid) == Partial(e, other)
    ensures pid == other
  {
    var a, b := Partial(d, pid).file, Partial(e, other).file;
    assert a[|d.name|] == '.' && b[|e.name|] == '.';
    assert forall i | |d.name| < i < |a| :: a[i] != '.';
    assert forall i | |e.name| < i < |b| :: b[i] != '.';
    assert |d.name| == |e.name|;
    assert Decimal(pid) == a[|d.name| + |PARTIAL|..];
    assert Decimal(other) == b[|e.name| + |PARTIAL|..];
    DecimalIsInjective(pid, other);
  }

  lemma {:induction false} DecimalIsInjective(m: nat, n: nat)
    requires Decimal(m) == Decimal(n)
    ensures m == n
    decreases m
  {
    var a, b := Decimal(m), Decimal(n);
    assert a[|a| - 1] == '0' + (m % 10) as char && b[|b| - 1] == '0' + (n % 10) as char;
    assert m % 10 == n % 10;
    assert |a| > 1 <==> m >= 10;
    assert |b| > 1 <==> n >= 10;
    if m >= 10 {
      assert Decimal(m / 10) == a[..|a| - 1] && Decimal(n / 10) == b[..|b| - 1];
      DecimalIsInjective(m / 10, n / 10);
    }
  }

  // ----- what every step keeps -----

  predicate Settled(hash: string -> string, store: map<Path, string>, p: Path) {
    p in store ==> hash(store[p]) == p.folder
  }

  /** The phases after a build has found its kept file absent or right. */
  predicate PastCheck(phase: Phase) {
    !phase.Checking? && !phase.Hashing? && !phase.Removing? && !phase.Failed?
  }

  ghost predicate BuildKeeps(
      hash: string -> string, entries: set<Entry>, store: map<Path, string>, pid: nat, phase: Phase) {
    && phase.e in entries
    && (PastCheck(phase) ==> Settled(hash, store, Kept(phase.e)))
    && (phase.Renaming? ==> Settled(hash, store, Partial(phase.e, pid)))
  }

  ghost predicate Keeps(hash: string -> string, entries: set<Entry>, s: State) {
    forall pid :: pid in s.builds ==> BuildKeeps(hash, entries, s.store, pid, s.builds[pid])
  }

  /** What one build's step does to the store: it changes no kept file but its own,
      which ends absent or right, and no other build's partial file. */
  ghost predicate StoreStep(hash: string -> string, entries: set<Entry>, s: State, t: State, pid: nat) {
    && (forall e :: e in entries && Settled(hash, s.store, Kept(e)) ==> Settled(hash, t.store, Kept(e)))
    && (forall e, other :: e in entries && other != pid && Settled(hash, s.store, Partial(e, other)) ==>
       Settled(hash, t.store, Partial(e, other)))
  }

  lemma {:induction false} StepOnStore(
      hash: string -> string, entries: set<Entry>, s: State, t: State, pid: nat, a: Action)
    requires KeepsApart(entries) && Keeps(hash, entries, s)
    requires (a.Start? ==> a.e in entries) && Next(hash, s, pid, a) == Some(t)
    ensures StoreStep(hash, entries, s, t, pid)
  {
    if t.store != s.store {
      var e := s.builds[pid].e;
      assert BuildKeeps(hash, entries, s.store, pid, s.builds[pid]);
      var kept, partial := Kept(e), Partial(e, pid);
      forall p | p != kept && p != partial
        ensures (p in t.store <==> p in s.store) && (p in s.store ==> t.store[p] == s.store[p]) {}
      forall d | d in entries && Settled(hash, s.store, Kept(d)) ensures Settled(hash, t.store, Kept(d)) {
        assert Kept(d) != partial;
      }
      forall d, other | d in entries && other != pid && Settled(hash, s.store, Partial(d, other))
        ensures Settled(hash, t.store, Partial(d, other)) {
        assert Kept(e) != Partial(d, other);
        if Partial(d, other) == partial {
          PartialsDiffer(d, e, other, pid);
        }
      }
    }
  }

  lemma {:induction false} OthersStand(hash: string -> string, s: State, t: State, pid: nat, a: Action)
    requires Next(hash, s, pid, a) == Some(t)
    ensures forall other :: other in t.builds && other != pid ==>
        other in s.builds && t.builds[other] == s.builds[other]
  {}

  lemma {:induction false} StepKeeps(hash: string -> string, entries: set<Entry>, s: State, t: State)
    requires KeepsApart(entries) && Keeps(hash, entries, s) && Step(hash, entries, s, t)
    ensures Keeps(hash, entries, t)
  {
    var pid: nat, a: Action :| (a.Start? ==> a.e in entries) && Next(hash, s, pid, a) == Some(t);
    StepOnStore(hash, entries, s, t, pid, a);
    OthersStand(hash, s, t, pid, a);
    forall other | other in t.builds ensures BuildKeeps(hash, entries, t.store, other, t.builds[other]) {
      if other == pid {
        OwnStepKeeps(hash, entries, s, t, pid, a);
      }
    }
  }

  lemma {:induction false} OwnStepKeeps(
      hash: string -> string, entries: set<Entry>, s: State, t: State, pid: nat, a: Action)
    requires KeepsApart(entries) && Keeps(hash, entries, s) && StoreStep(hash, entries, s, t, pid)
    requires (a.Start? ==> a.e in entries) && Next(hash, s, pid, a) == Some(t) && pid in t.builds
    ensures BuildKeeps(hash, entries, t.store, pid, t.builds[pid])
  {
    if !a.Start? {
      var phase := s.builds[pid];
      assert BuildKeeps(hash, entries, s.store, pid, phase);
      assert Kept(phase.e) != Partial(phase.e, pid);
    }
  }

  lemma {:induction false} RunKeeps(hash: string -> string, entries: set<Entry>, run: seq<State>, n: nat)
    requires KeepsApart(entries) && IsRun(hash, entries, run) && n < |run|
    ensures Keeps(hash, entries, run[n])
    decreases n
  {
    if n > 0 {
      RunKeeps(hash, entries, run, n - 1);
      assert Step(hash, entries, run[n - 1], run[n - 1 + 1]);
      StepKeeps(hash, entries, run[n - 1], run[n]);
    }
  }

  /** In every state of every run, from any store and under any interleaving with
      crashes, a build whose `fetch` returned Ok has a kept file that is absent or
      has the hash its entry pins. */
  lemma {:induction false} FetchedIsNeverWrong(
      hash: string -> string, entries: set<Entry>, run: seq<State>, n: nat, pid: nat)
    requires KeepsApart(entries) && IsRun(hash, entries, run) && n < |run|
    requires pid in run[n].builds && run[n].builds[pid].Fetched?
    ensures var kept := Kept(run[n].builds[pid].e);
            kept in run[n].store ==> hash(run[n].store[kept]) == run[n].builds[pid].e.sha256
  {
    RunKeeps(hash, entries, run, n);
    assert BuildKeeps(hash, entries, run[n].store, pid, run[n].builds[pid]);
  }

  // ----- a store with no wrong file in it -----

  ghost predicate NoWrongFile(hash: string -> string, entries: set<Entry>, store: map<Path, string>) {
    forall e :: e in entries ==> Settled(hash, store, Kept(e))
  }

  /** No build removes, and every build done or yielding has its file. */
  ghost predicate KeepsThere(hash: string -> string, entries: set<Entry>, s: State) {
    && Keeps(hash, entries, s)
    && NoWrongFile(hash, entries, s.store)
    && (forall pid :: pid in s.builds ==>
         !s.builds[pid].Removing?
         && (s.builds[pid].Hashing? || s.builds[pid].Yielding? || s.builds[pid].Fetched? ==>
            Kept(s.builds[pid].e) in s.store))
  }

  lemma {:induction false} NothingIsRemoved(
      hash: string -> string, entries: set<Entry>, s: State, t: State, pid: nat, a: Action)
    requires KeepsApart(entries) && KeepsThere(hash, entries, s)
    requires (a.Start? ==> a.e in entries) && Next(hash, s, pid, a) == Some(t)
    ensures forall e :: e in entries && Kept(e) in s.store ==> Kept(e) in t.store
  {
    if !a.Start? && !a.Crash? {
      assert BuildKeeps(hash, entries, s.store, pid, s.builds[pid]);
      forall e | e in entries && Kept(e) in s.store ensures Kept(e) in t.store {
        assert Kept(e) != Partial(s.builds[pid].e, pid);
      }
    }
  }

  lemma {:induction false} OwnStepKeepsThere(
      hash: string -> string, entries: set<Entry>, s: State, t: State, pid: nat, a: Action)
    requires KeepsApart(entries) && KeepsThere(hash, entries, s)
    requires (a.Start? ==> a.e in entries) && Next(hash, s, pid, a) == Some(t) && pid in t.builds
    ensures var phase := t.builds[pid];
            !phase.Removing? && (phase.Hashing? || phase.Yielding? || phase.Fetched? ==> Kept(phase.e) in t.store)
  {
    if !a.Start? {
      assert BuildKeeps(hash, entries, s.store, pid, s.builds[pid]);
      assert Settled(hash, s.store, Kept(s.builds[pid].e));
      assert Kept(s.builds[pid].e) != Partial(s.builds[pid].e, pid);
    }
  }

  lemma {:induction false} StepKeepsThere(hash: string -> string, entries: set<Entry>, s: State, t: State)
    requires KeepsApart(entries) && KeepsThere(hash, entries, s) && Step(hash, entries, s, t)
    ensures KeepsThere(hash, entries, t)
    ensures forall e :: e in entries && Kept(e) in s.store ==> Kept(e) in t.store
  {
    StepKeeps(hash, entries, s, t);
    var pid: nat, a: Action :| (a.Start? ==> a.e in entries) && Next(hash, s, pid, a) == Some(t);
    StepOnStore(hash, entries, s, t, pid, a);
    NothingIsRemoved(hash, entries, s, t, pid, a);
    OthersStand(hash, s, t, pid, a);
    if pid in t.builds {
      OwnStepKeepsThere(hash, entries, s, t, pid, a);
    }
    forall other | other in t.builds && other != pid
      ensures !t.builds[other].Removing?
      ensures t.builds[other].Hashing? || t.builds[other].Yielding? || t.builds[other].Fetched? ==>
          Kept(t.builds[other].e) in t.store
    {
      assert BuildKeeps(hash, entries, t.store, other, t.builds[other]);
    }
  }

  lemma {:induction false} RunKeepsThere(hash: string -> string, entries: set<Entry>, run: seq<State>, m: nat, n: nat)
    requires KeepsApart(entries) && IsRun(hash, entries, run) && m <= n < |run|
    requires NoWrongFile(hash, entries, run[0].store)
    ensures KeepsThere(hash, entries, run[n])
    ensures forall e :: e in entries && Kept(e) in run[m].store ==> Kept(e) in run[n].store
    decreases n
  {
    if n > 0 {
      assert Step(hash, entries, run[n - 1], run[n - 1 + 1]);
      if m < n {
        RunKeepsThere(hash, entries, run, m, n - 1);
      } else {
        RunKeepsThere(hash, entries, run, n - 1, n - 1);
      }
      StepKeepsThere(hash, entries, run[n - 1], run[n]);
    }
  }

  /** From a store with no wrong file, what a build fetched is there with the hash
      its entry pins, then and in every later state: no build ever removes it. */
  lemma {:induction false} FetchedStays(
      hash: string -> string, entries: set<Entry>, run: seq<State>, m: nat, n: nat, pid: nat)
    requires KeepsApart(entries) && IsRun(hash, entries, run) && m <= n < |run|
    requires NoWrongFile(hash, entries, run[0].store)
    requires pid in run[m].builds && run[m].builds[pid].Fetched?
    ensures var e := run[m].builds[pid].e;
            Kept(e) in run[n].store && hash(run[n].store[Kept(e)]) == e.sha256
  {
    RunKeepsThere(hash, entries, run, m, m);
    RunKeepsThere(hash, entries, run, m, n);
    assert BuildKeeps(hash, entries, run[m].store, pid, run[m].builds[pid]);
  }

  // ----- exactly when it holds -----

  /** No run over `entries` ever has a build whose fetched file is there and wrong. */
  ghost predicate NeverWrong(hash: string -> string, entries: set<Entry>) {
    forall run: seq<State>, n: nat, pid: nat ::
      IsRun(hash, entries, run) && n < |run| && pid in run[n].builds && run[n].builds[pid].Fetched? ==>
        Settled(hash, run[n].store, Kept(run[n].builds[pid].e))
  }

  /** One build fetches `d`; another then downloads `e` over it. */
  lemma {:induction false} ClashBreaksIt(
      hash: string -> string, entries: set<Entry>, d: Entry, e: Entry, pid: nat, good: string, bad: string)
    returns (run: seq<State>)
    requires d in entries && e in entries && Kept(d) == Partial(e, pid)
    requires hash(good) == d.sha256 && hash(bad) != d.sha256
    ensures IsRun(hash, entries, run) && |run| == 7
    ensures pid + 1 in run[6].builds && run[6].builds[pid + 1] == Fetched(d)
    ensures Kept(d) in run[6].store && hash(run[6].store[Kept(d)]) != d.sha256
  {
    run := FetchIt(hash, entries, d, pid + 1, good);
    var s3 := run[3];
    var s4 := Enter(s3, pid, Checking(e));
    var s5 := Enter(s4, pid, Downloading(e));
    var s6 := s5.(store := s5.store[Partial(e, pid) := bad]);
    assert |Kept(e).file| < |Partial(e, pid).file|;
    run := Extend(hash, entries, run, pid, Start(e), s4);
    run := Extend(hash, entries, run, pid, Check, s5);
    run := Extend(hash, entries, run, pid, Write(bad), s6);
  }

  lemma {:induction false} FetchIt(
      hash: string -> string, entries: set<Entry>, d: Entry, pid: nat, good: string) returns (run: seq<State>)
    requires d in entries && hash(good) == d.sha256
    ensures IsRun(hash, entries, run) && |run| == 4
    ensures run[3] == State(map[Kept(d) := good], map[pid := Fetched(d)])
  {
    var s0 := State(map[Kept(d) := good], map[]);
    var s1 := s0.(builds := map[pid := Checking(d)]);
    var s2 := s0.(builds := map[pid := Hashing(d)]);
    var s3 := s0.(builds := map[pid := Fetched(d)]);
    assert s1.builds[pid := Hashing(d)] == s2.builds && s2.builds[pid := Fetched(d)] == s3.builds;
    run := Extend(hash, entries, [s0], pid, Start(d), s1);
    run := Extend(hash, entries, run, pid, Check, s2);
    run := Extend(hash, entries, run, pid, Hash, s3);
  }

  lemma {:induction false} Extend(
      hash: string -> string, entries: set<Entry>, run: seq<State>, pid: nat, a: Action, t: State)
    returns (longer: seq<State>)
    requires IsRun(hash, entries, run) && (a.Start? ==> a.e in entries)
    requires Next(hash, run[|run| - 1], pid, a) == Some(t)
    ensures IsRun(hash, entries, longer) && longer == run + [t]
  {
    longer := run + [t];
    assert Step(hash, entries, run[|run| - 1], t);
  }

  /** Where some content has the hash an entry pins and some has not, no fetched
      file is ever wrong if and only if no entry keeps its file where another
      downloads to. */
  lemma {:induction false} NeverWrongExactlyWhenApart(hash: string -> string, entries: set<Entry>)
    requires forall e :: e in entries ==> (exists good :: hash(good) == e.sha256) && exists bad :: hash(bad) != e.sha256
    ensures NeverWrong(hash, entries) <==> KeepsApart(entries)
  {
    if KeepsApart(entries) {
      forall run: seq<State>, n: nat, pid: nat | IsRun(hash, entries, run) && n < |run| && pid in run[n].builds &&
        run[n].builds[pid].Fetched?
        ensures Settled(hash, run[n].store, Kept(run[n].builds[pid].e))
      {
        FetchedIsNeverWrong(hash, entries, run, n, pid);
      }
    } else {
      var d, e, pid: nat :| d in entries && e in entries && Kept(d) == Partial(e, pid);
      var good :| hash(good) == d.sha256;
      var bad :| hash(bad) != d.sha256;
      var run := ClashBreaksIt(hash, entries, d, e, pid, good, bad);
      assert !Settled(hash, run[6].store, Kept(run[6].builds[pid + 1].e));
    }
  }

  // ----- a fetch by itself -----

  datatype FetchError =
    | CannotRead | CannotRemove | CannotMake | CannotRun
    | CurlFailed | CannotOpen | WrongHash(got: string) | CannotStore

  /** What the system answers one fetch: whether the kept file can be read and removed,
      the folder made, curl run, what curl writes and whether it succeeds, and whether
      the partial file can be read, renamed and removed. */
  datatype Answers = Answers(
    canRead: bool, canRemove: bool, canMake: bool, canRun: bool,
    writes: Option<string>, succeeds: bool,
    canReadPartial: bool, canRename: bool, canDiscard: bool)

  /** The store as one build sees it. */
  class Store {
    var files: map<Path, string>

    constructor (files: map<Path, string>)
      ensures this.files == files
    {
      this.files := files;
    }

    ghost predicate OnlyChanged(before: map<Path, string>, e: Entry, pid: nat)
      reads this
    {
      forall p :: p != Kept(e) && p != Partial(e, pid) ==>
        (p in files <==> p in before) && (p in before ==> files[p] == before[p])
    }

    method Discard(p: Path, discards: bool)
      modifies this
      ensures files == if discards then old(files) - {p} else old(files)
    {
      if discards {
        files := files - {p};
      }
    }

    /** With no other build at work, `fetch` gives the kept file exactly when it is there
        and read with the pinned hash, or it is not there or removed, and what curl
        leaves is read with that hash and renamed. A wrong file is kept only where it
        cannot be read or removed. After a failure nothing of the download is left that
        can be read and removed, and no other file changes. */
    method Fetch(hash: string -> string, e: Entry, pid: nat, os: Answers) returns (r: Result<Path, FetchError>)
      modifies this
      ensures OnlyChanged(old(files), e, pid)
      ensures r.Ok? ==> r.value == Kept(e) && Kept(e) in files && hash(files[Kept(e)]) == e.sha256
      ensures r.Ok? <==>
              || IsHeld(hash, old(files), e, os)
              || (GoesOn(hash, old(files), e, os) && Arrives(hash, old(files), e, pid, os))
      ensures r.Err? ==>
                if Kept(e) in old(files) && !GoesOn(hash, old(files), e, os) then files == old(files)
                else Kept(e) !in files
      ensures r.Err? && os.canReadPartial && os.canDiscard && Discards(r.error) ==> Partial(e, pid) !in files
      ensures files == Left(hash, old(files), e, pid, os)
    {
      var kept, partial := Kept(e), Partial(e, pid);
      assert |kept.file| < |partial.file|;
      if kept in files {
        if !os.canRead {
          return Err(CannotRead);
        }
        if hash(files[kept]) == e.sha256 {
          return Ok(kept);
        }
        if !os.canRemove {
          return Err(CannotRemove);
        }
        files := files - {kept};
      }
      r := Download(hash, e, pid, os);
    }

    /** What `fetch` does once there is no kept file. */
    method Download(hash: string -> string, e: Entry, pid: nat, os: Answers) returns (r: Result<Path, FetchError>)
      requires Kept(e) !in files
      modifies this
      ensures files == LeftByDownload(hash, old(files), e, pid, os)
      ensures OnlyChanged(old(files), e, pid)
      ensures r.Ok? ==> r.value == Kept(e) && Kept(e) in files && hash(files[Kept(e)]) == e.sha256
      ensures r.Ok? <==> Arrives(hash, old(files), e, pid, os)
      ensures r.Err? ==> Kept(e) !in files
      ensures r.Err? && os.canReadPartial && os.canDiscard && Discards(r.error) ==> Partial(e, pid) !in files
    {
      var kept, partial := Kept(e), Partial(e, pid);
      assert |kept.file| < |partial.file|;
      if !os.canMake {
        return Err(CannotMake);
      }
      if !os.canRun {
        return Err(CannotRun);
      }
      if os.writes.Some? {
        files := files[partial := os.writes.value];
      }
      if !os.succeeds {
        Discard(partial, os.canDiscard);
        return Err(CurlFailed);
      }
      if partial !in files || !os.canReadPartial {
        return Err(CannotOpen);
      }
      var got := hash(files[partial]);
      if got != e.sha256 {
        Discard(partial, os.canDiscard);
        return Err(WrongHash(got));
      }
      if os.canRename {
        files := (files - {partial})[kept := files[partial]];
        return Ok(kept);
      }
      // Alone, no other build can have stored the file first.
      Discard(partial, os.canDiscard);
      return Err(CannotStore);
    }
  }

  /** The store as the fetch leaves it: no file of it when it stops at the kept file, and
      at most the kept and the partial file beside the others when it goes on. */
  function Left(hash: string -> string, files: map<Path, string>, e: Entry, pid: nat, os: Answers): map<Path, string> {
    if IsHeld(hash, files, e, os) || !GoesOn(hash, files, e, os) then files
    else LeftByDownload(hash, files - {Kept(e)}, e, pid, os)
  }

  function LeftByDownload(
      hash: string -> string, files: map<Path, string>, e: Entry, pid: nat, os: Answers): map<Path, string>
  {
    var partial := Partial(e, pid);
    if !os.canMake || !os.canRun then files
    else
      var written := if os.writes.Some? then files[partial := os.writes.value] else files;
      if os.succeeds && (partial !in written || !os.canReadPartial) then written
      else if Arrives(hash, files, e, pid, os) then (written - {partial})[Kept(e) := written[partial]]
      else if os.canDiscard then written - {partial}
      else written
  }

  /** A failure after which the partial file is removed. */
  predicate Discards(error: FetchError) {
    error.CurlFailed? || error.WrongHash? || error.CannotStore?
  }

  /** The kept file is there and read with the pinned hash. */
  predicate IsHeld(hash: string -> string, files: map<Path, string>, e: Entry, os: Answers) {
    Kept(e) in files && os.canRead && hash(files[Kept(e)]) == e.sha256
  }

  /** There is no kept file, or a wrong one that is removed. */
  predicate GoesOn(hash: string -> string, files: map<Path, string>, e: Entry, os: Answers) {
    Kept(e) in files ==> os.canRead && os.canRemove && hash(files[Kept(e)]) != e.sha256
  }

  /** What is in the partial file when curl is done is read with the pinned hash and renamed. */
  predicate Arrives(hash: string -> string, files: map<Path, string>, e: Entry, pid: nat, os: Answers) {
    && os.canMake && os.canRun && os.succeeds && os.canReadPartial && os.canRename
    && if os.writes.Some? then hash(os.writes.value) == e.sha256
       else Partial(e, pid) in files && hash(files[Partial(e, pid)]) == e.sha256
  }
}
