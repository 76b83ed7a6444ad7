/** A module folder on disk, as crates/cargo-pwrs/src/merge.rs and build_record.rs read
    it: its manifests, and for each platform a runtime with the record its build left. */
module ModuleFolders {
  import opened Results
  import opened Text

  /** What a build found. */
  datatype Record = Record(
    builtBy: string,
    release: bool,
    missingMetadata: seq<string>,
    undeclaredCpuFeatures: seq<string>,
    cratesWithoutLicenseText: seq<string>)

  datatype RecordFile = NoRecord | Unreadable | Readable(record: Record)

  /** A runtime folder: its other files by path, and its record. */
  datatype Runtime = Runtime(files: map<string, string>, record: RecordFile)

  /** What is at a name under `runtimes`. */
  datatype Entry = ARuntime(runtime: Runtime) | AFile(text: string)

  /** A module: the text of each `.psd1` by its name, and what is in `runtimes`, when
      there is one. */
  datatype Module = Module(manifests: map<string, string>, runtimes: Option<map<string, Entry>>)

  /** The module itself, and each folder in it. */
  datatype Part = Outer | Inner(name: string)

  type Folder = map<Part, Module>

  /** Whether the part is the module itself or a module it bundles. */
  predicate IsPart(f: Folder, p: Part) {
    p in f && (p.Inner? ==> p.name in f[p].manifests)
  }

  // ----- manifests -----

  datatype Manifest = Manifest(name: string, text: string)

  /** The one manifest of a module. */
  function ManifestOf(manifests: map<string, string>): Option<Manifest> {
    if |manifests| != 1 then None
    else
      OneKey(manifests);
      var name :| name in manifests;
      Some(Manifest(name, manifests[name]))
  }

  lemma {:induction false} OneKey(m: map<string, string>)
    requires |m| == 1
    ensures exists k :: k in m
    ensures forall a, b | a in m && b in m :: a == b
  {
    assert |m.Keys| == 1;
    var k :| k in m.Keys;
    assert |m.Keys - {k}| == 0;
    assert forall a | a in m :: a in m.Keys - {k} || a == k;
  }

  const BEGIN: string := "\r\n# SIG # Begin signature block\r\n"
  const END: string := "# SIG # End signature block"
  const MARK: char := '\U{FEFF}'

  predicate IsAt(s: string, i: nat, what: string) {
    i + |what| <= |s| && s[i..i + |what|] == what
  }

  /** The last place before `n` where `what` is. */
  function LastAt(s: string, n: nat, what: string): (r: Option<nat>)
    requires n <= |s| + 1
    ensures r.Some? ==> IsAt(s, r.value, what)
  {
    if n == 0 then None
    else if IsAt(s, n - 1, what) then Some(n - 1)
    else LastAt(s, n - 1, what)
  }

  predicate EndsWith(s: string, what: string) {
    |what| <= |s| && s[|s| - |what|..] == what
  }

  function WithoutMark(text: string): string {
    if text != [] && text[0] == MARK then text[1..] else text
  }

  /** A manifest's text without a byte order mark and a signature block. */
  function Unsigned(text: string): string {
    var t := WithoutMark(text);
    var at := LastAt(t, |t| + 1, BEGIN);
    if at.Some? && EndsWith(TrimEnd(t, IsSpace), END) then t[..at.value] else t
  }

  lemma {:induction false} LastAtIs(s: string, n: nat, what: string, i: nat)
    requires n <= |s| + 1 && i < n && IsAt(s, i, what)
    requires forall k | i < k < n :: !IsAt(s, k, what)
    ensures LastAt(s, n, what) == Some(i)
  {
    if i < n - 1 {
      LastAtIs(s, n - 1, what, i);
    }
  }

  lemma {:induction false} TrimmedSpaces(s: string, spaces: string)
    requires forall k | 0 <= k < |spaces| :: IsSpace(spaces[k])
    requires s != [] && !IsSpace(s[|s| - 1])
    ensures TrimEnd(s + spaces, IsSpace) == s
  {
    var t := s + spaces;
    if spaces == [] {
      assert t == s;
    } else {
      var fewer := spaces[..|spaces| - 1];
      assert t[..|t| - 1] == s + fewer;
      TrimmedSpaces(s, fewer);
    }
  }

  function Signed(text: string, block: string, spaces: string): string {
    text + BEGIN + (block + END) + spaces
  }

  lemma {:induction false} SignedEnds(text: string, block: string, spaces: string)
    requires forall k | 0 <= k < |spaces| :: IsSpace(spaces[k])
    ensures EndsWith(TrimEnd(Signed(text, block, spaces), IsSpace), END)
  {
    var body := text + BEGIN + (block + END);
    assert |END| == 27 && END[26] == 'k';
    assert body[|body| - 1] == 'k';
    TrimmedSpaces(body, spaces);
    assert body[|body| - |END|..] == END;
  }

  lemma {:induction false} SignedBegins(text: string, block: string, spaces: string)
    requires forall k | |text| < k <= |Signed(text, block, spaces)| :: !IsAt(Signed(text, block, spaces), k, BEGIN)
    ensures LastAt(Signed(text, block, spaces), |Signed(text, block, spaces)| + 1, BEGIN) == Some(|text|)
    ensures Signed(text, block, spaces)[..|text|] == text
  {
    var signed := Signed(text, block, spaces);
    assert signed[|text|..|text| + |BEGIN|] == BEGIN;
    LastAtIs(signed, |signed| + 1, BEGIN, |text|);
  }

  /** A signature block and a byte order mark are all a signed copy differs by. */
  lemma {:induction false} SignedIsUnsigned(text: string, block: string, spaces: string)
    requires text == [] || text[0] != MARK
    requires forall k | |text| < k <= |Signed(text, block, spaces)| :: !IsAt(Signed(text, block, spaces), k, BEGIN)
    requires forall k | 0 <= k < |spaces| :: IsSpace(spaces[k])
    ensures Unsigned(Signed(text, block, spaces)) == text
    ensures Unsigned([MARK] + Signed(text, block, spaces)) == text
  {
    var signed := Signed(text, block, spaces);
    SignedEnds(text, block, spaces);
    SignedBegins(text, block, spaces);
    assert |BEGIN| == 33 && BEGIN[0] == '\r';
    assert signed[0] == if text == [] then '\r' else text[0];
    assert ([MARK] + signed)[1..] == signed;
  }

  /** Two modules are builds of one: one manifest each, alike but for a signature. */
  predicate SameManifest(a: Module, b: Module) {
    var x, y := ManifestOf(a.manifests), ManifestOf(b.manifests);
    x.Some? && y.Some? && x.value.name == y.value.name && Unsigned(x.value.text) == Unsigned(y.value.text)
  }

  // ----- a manifest without a block -----

  /** The text ends in the line that ends a block, but for white space. */
  ghost predicate EndsInABlock(t: string) {
    exists n: nat :: n <= |t| && EndsWith(t[..n], END) && forall k | n <= k < |t| :: IsSpace(t[k])
  }

  /** The last line that begins a block is there. */
  predicate BeginsLast(t: string, i: nat) {
    IsAt(t, i, BEGIN) && forall k | i < k <= |t| :: !IsAt(t, k, BEGIN)
  }

  lemma {:induction false} LastAtFinds(s: string, n: nat, what: string)
    requires n <= |s| + 1
    ensures LastAt(s, n, what).None? ==> forall k | 0 <= k < n :: !IsAt(s, k, what)
    ensures LastAt(s, n, what).Some? ==>
              LastAt(s, n, what).value < n && forall k | LastAt(s, n, what).value < k < n :: !IsAt(s, k, what)
  {
    if n > 0 && !IsAt(s, n - 1, what) {
      LastAtFinds(s, n - 1, what);
    }
  }

  lemma {:induction false} TrimEndIs(t: string) returns (n: nat)
    ensures n <= |t| && TrimEnd(t, IsSpace) == t[..n] && forall k | n <= k < |t| :: IsSpace(t[k])
  {
    if t != [] && IsSpace(t[|t| - 1]) {
      var init := t[..|t| - 1];
      n := TrimEndIs(init);
      assert init[..n] == t[..n];
      assert forall k | n <= k < |t| - 1 :: t[k] == init[k];
    } else {
      n := |t|;
      assert t[..n] == t;
    }
  }

  lemma {:induction false} EndsWhenTrimmed(t: string)
    ensures EndsWith(TrimEnd(t, IsSpace), END) <==> EndsInABlock(t)
  {
    var n := TrimEndIs(t);
    if m: nat :| m <= |t| && EndsWith(t[..m], END) && forall k | m <= k < |t| :: IsSpace(t[k]) {
      assert |END| == 27 && END[26] == 'k';
      assert t[..m][|t[..m]| - 27..][26] == t[m - 1];
      TrimmedSpaces(t[..m], t[m..]);
      assert t == t[..m] + t[m..];
    }
  }

  lemma {:induction false} LastBegins(t: string)
    ensures LastAt(t, |t| + 1, BEGIN).Some? <==> exists i: nat :: BeginsLast(t, i)
    ensures LastAt(t, |t| + 1, BEGIN).Some? ==> BeginsLast(t, LastAt(t, |t| + 1, BEGIN).value)
  {
    var last := LastAt(t, |t| + 1, BEGIN);
    LastAtFinds(t, |t| + 1, BEGIN);
    if last.Some? {
      assert BeginsLast(t, last.value);
    } else {
      assert forall i: nat | i <= |t| :: !IsAt(t, i, BEGIN);
      assert forall i: nat | i > |t| :: !IsAt(t, i, BEGIN);
      assert forall i: nat :: !BeginsLast(t, i);
    }
  }

  /** A manifest compares as its text up to its last signature block where it ends in
      one, and otherwise as all its text; without a byte order mark either way. */
  lemma {:induction false} UnsignedIs(text: string)
    ensures var t := if text != [] && text[0] == MARK then text[1..] else text;
            if EndsInABlock(t) && exists i: nat :: BeginsLast(t, i)
            then exists i: nat :: BeginsLast(t, i) && Unsigned(text) == t[..i]
            else Unsigned(text) == t
  {
    var t := WithoutMark(text);
    EndsWhenTrimmed(t);
    LastBegins(t);
  }

  /** Two modules are builds of one exactly when each has one manifest, of one name, and
      the texts compare alike. */
  lemma {:induction false} SameManifestExactlyWhen(a: Module, b: Module)
    ensures SameManifest(a, b) <==>
            exists name, t, u ::
              a.manifests == map[name := t] && b.manifests == map[name := u] && Unsigned(t) == Unsigned(u)
  {
    if SameManifest(a, b) {
      OneManifest(a.manifests);
      OneManifest(b.manifests);
    }
    if name, t, u :| a.manifests == map[name := t] && b.manifests == map[name := u] && Unsigned(t) == Unsigned(u) {
      ManifestAlone(name, t);
      ManifestAlone(name, u);
    }
  }

  lemma {:induction false} OneManifest(m: map<string, string>)
    requires ManifestOf(m).Some?
    ensures m == map[ManifestOf(m).value.name := ManifestOf(m).value.text]
  {
    OneKey(m);
  }

  lemma {:induction false} ManifestAlone(name: string, text: string)
    ensures ManifestOf(map[name := text]) == Some(Manifest(name, text))
  {
    assert |map[name := text]| == 1;
  }
}
