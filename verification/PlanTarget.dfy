/** Which method backs which abstract member, on one target and on both:
    `match_member`, the coverage part of `plan_target` and the checks `merge` makes in
    crates/cargo-pwrs/src/bases.rs. Whether a `#[member]` or a name in a class's stubs
    names a member, by its name and its declaring type, is any relation `names`. */
module PlanTarget {
  import opened Results
  import opened Conversions
  import opened Members
  import opened MemberFit
  import opened RenderMembers

  type Naming = (string, Member) -> bool

  datatype Class = Class(methods: seq<Method>, stubs: seq<string>)

  datatype Refusal =
    | FitsSeveral(m: Method)
    | BothBack(first: Method, second: Method)
    | NothingBacks(candidate: Candidate, part: Part)
    | StubNamesNothing(name: string)
    | BacksNothing(m: Method)

  // ----- one method -----

  predicate NamedAndFits(names: Naming, m: Method, cd: Candidate) {
    m.member.Some? && names(m.member.value, cd.member) && FitOf(m, cd).Ok?
  }

  function MatchedAs(m: Method, cd: Candidate): Matched
    requires FitOf(m, cd).Ok?
  {
    var fitted := FitOf(m, cd).value;
    Matched(Some(m), cd, fitted.part, fitted.ret, fitted.gives)
  }

  /** The members named that `m` fits, in order. */
  function Fitting(names: Naming, m: Method, cands: seq<Candidate>): (fits: seq<Matched>)
    ensures forall i | 0 <= i < |fits| :: fits[i].method_ == Some(m)
  {
    if cands == [] then []
    else (if NamedAndFits(names, m, cands[0]) then [MatchedAs(m, cands[0])] else []) + Fitting(names, m, cands[1..])
  }

  datatype Found = Hit(matched: Matched) | NoHit | Several

  function FoundOf(names: Naming, m: Method, cands: seq<Candidate>): Found {
    var fits := Fitting(names, m, cands);
    if |fits| == 1 then Hit(fits[0]) else if |fits| == 0 then NoHit else Several
  }

  method MatchMember(names: Naming, m: Method, cands: seq<Candidate>) returns (found: Found)
    requires m.member.Some?
    ensures found == FoundOf(names, m, cands)
  {
    var fits: seq<Matched> := [];
    assert cands[0..] == cands;
    for i := 0 to |cands|
      invariant Fitting(names, m, cands) == fits + Fitting(names, m, cands[i..])
    {
      assert cands[i..][1..] == cands[i + 1..];
      ghost var more := Fitting(names, m, cands[i + 1..]);
      if names(m.member.value, cands[i].member) {
        var fitted := Fit(m, cands[i]);
        if fitted.Ok? {
          var hit := Matched(Some(m), cands[i], fitted.value.part, fitted.value.ret, fitted.value.gives);
          assert fits + ([hit] + more) == fits + [hit] + more;
          fits := fits + [hit];
          continue;
        }
      }
      assert [] + more == more;
    }
    return if |fits| == 1 then Hit(fits[0]) else if |fits| == 0 then NoHit else Several;
  }

  // ----- the methods of a class -----

  predicate Backs(e: Matched, key: Key, part: Part) {
    KeyOf(e.candidate) == key && e.part == part
  }

  predicate HasBacked(matched: seq<Matched>, key: Key, part: Part) {
    exists i | 0 <= i < |matched| :: Backs(matched[i], key, part)
  }

  /** `hits` are the hits of the first `n` methods, no two backing one part. */
  ghost predicate HitsOf(names: Naming, methods: seq<Method>, cands: seq<Candidate>, hits: seq<Matched>, n: nat)
    requires n <= |methods|
  {
    && (forall i | 0 <= i < |hits| ::
       hits[i].method_.Some? && hits[i].method_.value in methods[..n] && hits[i].method_.value.member.Some?
                                      && FoundOf(names, hits[i].method_.value, cands) == Hit(hits[i]))
    && (forall i | 0 <= i < n && methods[i].member.Some? :: !FoundOf(names, methods[i], cands).Several?)
    && (forall i | 0 <= i < n && methods[i].member.Some? && FoundOf(names, methods[i], cands).Hit? ::
       FoundOf(names, methods[i], cands).matched in hits)
    && (forall i, j | 0 <= i < j < |hits| :: !Backs(hits[i], KeyOf(hits[j].candidate), hits[j].part))
  }

  /** The hit of a method, when it is marked and has one. */
  function HitOf(names: Naming, m: Method, cands: seq<Candidate>): Option<Matched> {
    if m.member.None? then None
    else
      match FoundOf(names, m, cands)
      case Hit(hit) => Some(hit)
      case NoHit => None
      case Several => None
  }

  function Somes(methods: seq<Method>, hit: Method -> Option<Matched>, n: nat): seq<Matched>
    requires n <= |methods|
  {
    if n == 0 then []
    else
      var last := hit(methods[n - 1]);
      Somes(methods, hit, n - 1) + if last.Some? then [last.value] else []
  }

  /** The hits of the first `n` methods, in order. */
  function HitsIn(names: Naming, methods: seq<Method>, cands: seq<Candidate>, n: nat): seq<Matched>
    requires n <= |methods|
  {
    Somes(methods, m => HitOf(names, m, cands), n)
  }

  predicate HitsAt(names: Naming, methods: seq<Method>, cands: seq<Candidate>, i: nat) {
    i < |methods| && HitOf(names, methods[i], cands).Some?
  }

  predicate BackOnePart(a: Matched, b: Matched) {
    Backs(a, KeyOf(b.candidate), b.part)
  }

  /** No marked method fits several members, and no two back one part. */
  ghost predicate Matchable(names: Naming, methods: seq<Method>, cands: seq<Candidate>) {
    && (forall i | 0 <= i < |methods| && methods[i].member.Some? :: !FoundOf(names, methods[i], cands).Several?)
    && (forall i, j | 0 <= i < j < |methods| && HitsAt(names, methods, cands, i) && HitsAt(names, methods, cands, j) ::
          !BackOnePart(HitOf(names, methods[i], cands).value, HitOf(names, methods[j], cands).value))
  }

  /** The loop over the methods before: whether an earlier hit backs the same part. */
  method Earlier(hits: seq<Matched>, hit: Matched) returns (earlier: Option<Matched>)
    ensures earlier.None? <==> !HasBacked(hits, KeyOf(hit.candidate), hit.part)
    ensures earlier.Some? ==> earlier.value in hits && BackOnePart(earlier.value, hit)
  {
    for k := 0 to |hits|
      invariant forall i | 0 <= i < k :: !Backs(hits[i], KeyOf(hit.candidate), hit.part)
    {
      if Backs(hits[k], KeyOf(hit.candidate), hit.part) {
        return Some(hits[k]);
      }
    }
    return None;
  }

  ghost predicate HitsSoFar(names: Naming, methods: seq<Method>, cands: seq<Candidate>, hits: seq<Matched>, n: nat)
    requires n <= |methods|
  {
    hits == HitsIn(names, methods, cands, n) && HitsOf(names, methods, cands, hits, n)
  }

  method Hits(names: Naming, methods: seq<Method>, cands: seq<Candidate>) returns (r: Result<seq<Matched>, Refusal>)
    ensures r.Ok? <==> Matchable(names, methods, cands)
    ensures r.Ok? ==> HitsSoFar(names, methods, cands, r.value, |methods|)
    ensures r.Err? ==> r.error.FitsSeveral? || r.error.BothBack?
  {
    var hits: seq<Matched> := [];
    for n := 0 to |methods|
      invariant HitsSoFar(names, methods, cands, hits, n)
    {
      var next := HitsAfter(names, methods, cands, hits, n);
      if next.Err? {
        return Err(next.error);
      }
      hits := next.value;
    }
    HitsAreMatchable(names, methods, cands, hits);
    return Ok(hits);
  }

  /** One method more. */
  method HitsAfter(
      names: Naming, methods: seq<Method>, cands: seq<Candidate>, hits: seq<Matched>, n: nat)
    returns (r: Result<seq<Matched>, Refusal>)
    requires n < |methods| && HitsSoFar(names, methods, cands, hits, n)
    ensures r.Ok? ==> HitsSoFar(names, methods, cands, r.value, n + 1)
    ensures r.Err? ==> !Matchable(names, methods, cands) && (r.error.FitsSeveral? || r.error.BothBack?)
  {
    var m := methods[n];
    if m.member.None? {
      SameHits(names, methods, cands, hits, n);
      return Ok(hits);
    }
    var found := MatchMember(names, m, cands);
    match found
    case Several => return Err(FitsSeveral(m));
    case NoHit =>
      SameHits(names, methods, cands, hits, n);
      return Ok(hits);
    case Hit(hit) =>
      var earlier := Earlier(hits, hit);
      if earlier.Some? {
        EarlierHitBacksIt(names, methods, cands, hits, n, earlier.value);
        return Err(BothBack(earlier.value.method_.value, m));
      }
      OneMoreHit(names, methods, cands, hits, n, hit);
      return Ok(hits + [hit]);
  }

  lemma {:induction false} EarlierHitBacksIt(
      names: Naming, methods: seq<Method>, cands: seq<Candidate>, hits: seq<Matched>, n: nat, earlier: Matched)
    requires n < |methods| && HitsOf(names, methods, cands, hits, n) && HitsAt(names, methods, cands, n) &&
        earlier in hits
    requires BackOnePart(earlier, HitOf(names, methods[n], cands).value)
    ensures !Matchable(names, methods, cands)
  {
    var k :| 0 <= k < |hits| && hits[k] == earlier;
    var i :| 0 <= i < n && methods[i] == hits[k].method_.value;
    assert HitsAt(names, methods, cands, i);
  }

  lemma {:induction false} HitsAreMatchable(
      names: Naming, methods: seq<Method>, cands: seq<Candidate>, hits: seq<Matched>)
    requires HitsOf(names, methods, cands, hits, |methods|) && hits == HitsIn(names, methods, cands, |methods|)
    ensures Matchable(names, methods, cands)
  {
    forall i, j | 0 <= i < j < |methods| && HitsAt(names, methods, cands, i) && HitsAt(names, methods, cands, j)
      ensures !BackOnePart(HitOf(names, methods[i], cands).value, HitOf(names, methods[j], cands).value)
    {
      var a, b := SomesInOrder(methods, m => HitOf(names, m, cands), i, j, |methods|);
      assert !BackOnePart(hits[a], hits[b]);
    }
  }

  /** The hits of two methods are among the hits in the order of the methods. */
  lemma {:induction false} SomesInOrder(
      methods: seq<Method>, hit: Method -> Option<Matched>, i: nat, j: nat, n: nat) returns (a: nat, b: nat)
    requires i < j < n <= |methods| && hit(methods[i]).Some? && hit(methods[j]).Some?
    ensures a < b < |Somes(methods, hit, n)|
    ensures Somes(methods, hit, n)[a] == hit(methods[i]).value && Somes(methods, hit, n)[b] == hit(methods[j]).value
  {
    if j == n - 1 {
      a := SomeIsIn(methods, hit, i, n - 1);
      b := |Somes(methods, hit, n - 1)|;
    } else {
      a, b := SomesInOrder(methods, hit, i, j, n - 1);
    }
  }

  lemma {:induction false} SomeIsIn(
      methods: seq<Method>, hit: Method -> Option<Matched>, i: nat, n: nat) returns (a: nat)
    requires i < n <= |methods| && hit(methods[i]).Some?
    ensures a < |Somes(methods, hit, n)| && Somes(methods, hit, n)[a] == hit(methods[i]).value
  {
    if i == n - 1 {
      a := |Somes(methods, hit, n - 1)|;
    } else {
      a := SomeIsIn(methods, hit, i, n - 1);
    }
  }

  lemma {:induction false} SomeIsFrom(
      methods: seq<Method>, hit: Method -> Option<Matched>, a: nat, n: nat) returns (i: nat)
    requires n <= |methods| && a < |Somes(methods, hit, n)|
    ensures i < n && hit(methods[i]) == Some(Somes(methods, hit, n)[a])
  {
    if a < |Somes(methods, hit, n - 1)| {
      i := SomeIsFrom(methods, hit, a, n - 1);
    } else {
      i := n - 1;
    }
  }

  lemma {:induction false} SameHits(
      names: Naming, methods: seq<Method>, cands: seq<Candidate>, hits: seq<Matched>, n: nat)
    requires n < |methods| && HitsSoFar(names, methods, cands, hits, n)
    requires methods[n].member.None? || FoundOf(names, methods[n], cands).NoHit?
    ensures HitsSoFar(names, methods, cands, hits, n + 1)
  {
    assert methods[..n + 1] == methods[..n] + [methods[n]];
  }

  lemma {:induction false} OneMoreHit(
      names: Naming, methods: seq<Method>, cands: seq<Candidate>, hits: seq<Matched>, n: nat, hit: Matched)
    requires n < |methods| && HitsSoFar(names, methods, cands, hits, n)
    requires methods[n].member.Some? && FoundOf(names, methods[n], cands) == Hit(hit)
    requires !HasBacked(hits, KeyOf(hit.candidate), hit.part)
    ensures HitsSoFar(names, methods, cands, hits + [hit], n + 1)
  {
    HitIsOfItsMethod(names, methods[n], cands);
    OneMoreOfTheHits(names, methods, cands, hits, n, hit);
  }

  lemma {:induction false} OneMoreOfTheHits(
      names: Naming, methods: seq<Method>, cands: seq<Candidate>, hits: seq<Matched>, n: nat, hit: Matched)
    requires n < |methods| && HitsOf(names, methods, cands, hits, n)
    requires methods[n].member.Some? && FoundOf(names, methods[n], cands) == Hit(hit) && hit.method_ == Some(methods[n])
    requires !HasBacked(hits, KeyOf(hit.candidate), hit.part)
    ensures HitsOf(names, methods, cands, hits + [hit], n + 1)
  {
    assert methods[..n + 1] == methods[..n] + [methods[n]];
    var next := hits + [hit];
    assert forall i | 0 <= i < |hits| :: next[i] == hits[i];
    assert next[|hits|] == hit;
  }

  lemma {:induction false} FittingAreOf(names: Naming, m: Method, cands: seq<Candidate>, i: nat)
    requires i < |Fitting(names, m, cands)|
    ensures var cd := Fitting(names, m, cands)[i].candidate;
            cd in cands && NamedAndFits(names, m, cd) && Fitting(names, m, cands)[i] == MatchedAs(m, cd)
  {
    if NamedAndFits(names, m, cands[0]) {
      if i > 0 {
        FittingAreOf(names, m, cands[1..], i - 1);
      }
    } else {
      assert Fitting(names, m, cands) == Fitting(names, m, cands[1..]);
      FittingAreOf(names, m, cands[1..], i);
    }
  }

  lemma {:induction false} HitIsOf(names: Naming, m: Method, cands: seq<Candidate>)
    requires FoundOf(names, m, cands).Hit?
    ensures var hit := FoundOf(names, m, cands).matched;
            hit.candidate in cands && NamedAndFits(names, m, hit.candidate)
  {
    FittingAreOf(names, m, cands, 0);
  }

  lemma {:induction false} HitIsOfItsMethod(names: Naming, m: Method, cands: seq<Candidate>)
    ensures FoundOf(names, m, cands).Hit? ==> FoundOf(names, m, cands).matched.method_ == Some(m)
  {}

  // ----- the abstract parts nothing backs -----

  predicate IsAbstract(m: Member, part: Part) {
    match part
    case TheMethod => m.kind == AMethod && m.slot == Abstract
    case TheGetter => m.kind == AProperty && m.getter.Some? && m.getter.value.slot == Abstract
    case TheSetter => m.kind == AProperty && m.setter.Some? && m.setter.value.slot == Abstract
  }

  function StubOf(names: Naming, stubs: seq<string>, m: Member): (r: Option<string>)
    ensures r.Some? ==> r.value in stubs && names(r.value, m)
    ensures r.None? ==> forall i | 0 <= i < |stubs| :: !names(stubs[i], m)
  {
    if stubs == [] then None else if names(stubs[0], m) then Some(stubs[0]) else StubOf(names, stubs[1..], m)
  }

  function StubFor(cd: Candidate, part: Part): Matched {
    Matched(None, cd, part, None, NOTHING)
  }

  function PartsInOrder(): seq<Part> {
    [TheMethod, TheGetter, TheSetter]
  }

  datatype Stubbed = Stubbed(stubs: seq<Matched>, used: seq<string>)

  /** The part needs a stub: it is abstract and no method backs it. */
  predicate Unbacked(hits: seq<Matched>, cd: Candidate, part: Part) {
    IsAbstract(cd.member, part) && !HasBacked(hits, KeyOf(cd), part)
  }

  /** Every unbacked part of the first `n` members has a stub, every stub is for such
      a part, and the names used are those that named one. */
  ghost predicate StubsCover(names: Naming, c: Class, cands: seq<Candidate>, hits: seq<Matched>, s: Stubbed, n: nat)
    requires n <= |cands|
  {
    && (forall i, part | 0 <= i < n && Unbacked(hits, cands[i], part) :: StubFor(cands[i], part) in s.stubs)
    && (forall i | 0 <= i < |s.stubs| ::
          var e := s.stubs[i];
          e == StubFor(e.candidate, e.part) && e.candidate in cands && Unbacked(hits, e.candidate, e.part)
          && StubOf(names, c.stubs, e.candidate.member).Some? &&
             StubOf(names, c.stubs, e.candidate.member).value in s.used)
    && (forall i | 0 <= i < |s.used| :: s.used[i] in c.stubs && NamesAStub(names, c, s, s.used[i]))
  }

  ghost predicate NamesAStub(names: Naming, c: Class, s: Stubbed, name: string) {
    exists i | 0 <= i < |s.stubs| :: StubOf(names, c.stubs, s.stubs[i].candidate.member) == Some(name)
  }

  ghost predicate StubsAre(names: Naming, c: Class, cands: seq<Candidate>, hits: seq<Matched>, s: Stubbed) {
    forall i | 0 <= i < |s.stubs| ::
      var e := s.stubs[i];
      e == StubFor(e.candidate, e.part) && e.candidate in cands && Unbacked(hits, e.candidate, e.part)
      && StubOf(names, c.stubs, e.candidate.member).Some? && StubOf(names, c.stubs, e.candidate.member).value in s.used
  }

  /** `s` with a stub more, its name among those used. */
  function WithStub(s: Stubbed, e: Matched, name: string): Stubbed {
    Stubbed(s.stubs + [e], if name in s.used then s.used else s.used + [name])
  }

  lemma {:induction false} UsedNamesStubs(names: Naming, c: Class, s: Stubbed, e: Matched, name: string)
    requires forall i | 0 <= i < |s.used| :: s.used[i] in c.stubs && NamesAStub(names, c, s, s.used[i])
    requires StubOf(names, c.stubs, e.candidate.member) == Some(name)
    ensures var next := WithStub(s, e, name);
            forall i | 0 <= i < |next.used| :: next.used[i] in c.stubs && NamesAStub(names, c, next, next.used[i])
  {
    var next := WithStub(s, e, name);
    forall i | 0 <= i < |next.used| ensures next.used[i] in c.stubs && NamesAStub(names, c, next, next.used[i]) {
      if i < |s.used| {
        assert next.used[i] == s.used[i];
        var k :| 0 <= k < |s.stubs| && StubOf(names, c.stubs, s.stubs[k].candidate.member) == Some(s.used[i]);
        assert next.stubs[k] == s.stubs[k];
      } else {
        assert next.stubs[|s.stubs|] == e;
      }
    }
  }

  /** The stub of one part, when it needs one; a missing one is refused. */
  method StubPart(
      names: Naming, c: Class, cands: seq<Candidate>, hits: seq<Matched>, cd: Candidate, part: Part, s: Stubbed)
    returns (r: Result<Stubbed, Refusal>)
    requires cd in cands && StubsAre(names, c, cands, hits, s)
    requires forall i | 0 <= i < |s.used| :: s.used[i] in c.stubs && NamesAStub(names, c, s, s.used[i])
    ensures r.Err? <==> Unbacked(hits, cd, part) && forall i | 0 <= i < |c.stubs| :: !names(c.stubs[i], cd.member)
    ensures r.Err? ==> r.error == NothingBacks(cd, part)
    ensures r.Ok? ==>
      && StubsAre(names, c, cands, hits, r.value)
      && (forall i | 0 <= i < |r.value.used| ::
         r.value.used[i] in c.stubs && NamesAStub(names, c, r.value, r.value.used[i]))
      && (forall e :: e in s.stubs ==> e in r.value.stubs)
      && (Unbacked(hits, cd, part) ==> StubFor(cd, part) in r.value.stubs)
  {
    if !Unbacked(hits, cd, part) {
      return Ok(s);
    }
    var name := StubOf(names, c.stubs, cd.member);
    if name.None? {
      return Err(NothingBacks(cd, part));
    }
    UsedNamesStubs(names, c, s, StubFor(cd, part), name.value);
    assert StubFor(cd, part) in s.stubs + [StubFor(cd, part)];
    return Ok(WithStub(s, StubFor(cd, part), name.value));
  }

  ghost predicate StubsGrow(
      names: Naming, c: Class, cands: seq<Candidate>, hits: seq<Matched>, s: Stubbed, t: Stubbed) {
    && StubsAre(names, c, cands, hits, t)
    && (forall i | 0 <= i < |t.used| :: t.used[i] in c.stubs && NamesAStub(names, c, t, t.used[i]))
    && (forall e :: e in s.stubs ==> e in t.stubs)
  }

  /** The parts of one member. */
  method StubParts(
      names: Naming, c: Class, cands: seq<Candidate>, hits: seq<Matched>, cd: Candidate, s: Stubbed)
    returns (r: Result<Stubbed, Refusal>)
    requires cd in cands && StubsGrow(names, c, cands, hits, s, s)
    ensures r.Err? ==> r.error.NothingBacks?
                       && r.error.candidate == cd && Unbacked(hits, cd, r.error.part)
                       && forall i | 0 <= i < |c.stubs| :: !names(c.stubs[i], cd.member)
    ensures r.Ok? ==> StubsGrow(names, c, cands, hits, s, r.value)
                      && forall part :: Unbacked(hits, cd, part) ==> StubFor(cd, part) in r.value.stubs
  {
    var t := s;
    for k := 0 to 3
      invariant StubsGrow(names, c, cands, hits, s, t)
      invariant forall i | 0 <= i < k :: Unbacked(hits, cd, PartsInOrder()[i]) ==>
          StubFor(cd, PartsInOrder()[i]) in t.stubs
    {
      t :- StubPart(names, c, cands, hits, cd, PartsInOrder()[k], t);
    }
    forall part | Unbacked(hits, cd, part) ensures StubFor(cd, part) in t.stubs {
      var i := match part case TheMethod => 0 case TheGetter => 1 case TheSetter => 2;
      assert PartsInOrder()[i] == part;
    }
    return Ok(t);
  }

  method Stubs(names: Naming, c: Class, cands: seq<Candidate>, hits: seq<Matched>) returns (r: Result<Stubbed, Refusal>)
    ensures r.Ok? ==> StubsCover(names, c, cands, hits, r.value, |cands|)
    ensures r.Err? ==> r.error.NothingBacks?
                       && r.error.candidate in cands && Unbacked(hits, r.error.candidate, r.error.part)
                       && forall i | 0 <= i < |c.stubs| :: !names(c.stubs[i], r.error.candidate.member)
  {
    var s := Stubbed([], []);
    for n := 0 to |cands|
      invariant StubsCover(names, c, cands, hits, s, n)
    {
      s :- StubParts(names, c, cands, hits, cands[n], s);
    }
    return Ok(s);
  }

  // ----- one target's plan -----

  datatype Plan = Plan(hits: seq<Matched>, stubbed: Stubbed)

  ghost predicate Planned(names: Naming, c: Class, cands: seq<Candidate>, p: Plan) {
    HitsOf(names, c.methods, cands, p.hits, |c.methods|) && StubsCover(names, c, cands, p.hits, p.stubbed, |cands|)
  }

  ghost predicate Named(names: Naming, c: Class, m: Member) {
    exists k | 0 <= k < |c.stubs| :: names(c.stubs[k], m)
  }

  /** The methods match, and each abstract part none of them backs is named in stubs. */
  ghost predicate Plannable(names: Naming, c: Class, cands: seq<Candidate>) {
    && Matchable(names, c.methods, cands)
    && forall i, part | 0 <= i < |cands| && Unbacked(HitsIn(names, c.methods, cands, |c.methods|), cands[i], part) ::
         Named(names, c, cands[i].member)
  }

  method PlanFor(names: Naming, c: Class, cands: seq<Candidate>) returns (r: Result<Plan, Refusal>)
    ensures r.Ok? <==> Plannable(names, c, cands)
    ensures r.Ok? ==> Planned(names, c, cands, r.value) && r.value.hits == HitsIn(names, c.methods, cands, |c.methods|)
  {
    var hits :- Hits(names, c.methods, cands);
    var stubbed := Stubs(names, c, cands, hits);
    if stubbed.Err? {
      ghost var i :| 0 <= i < |cands| && cands[i] == stubbed.error.candidate;
      assert Unbacked(hits, cands[i], stubbed.error.part);
      return Err(stubbed.error);
    }
    CoveredAreNamed(names, c, cands, hits, stubbed.value);
    return Ok(Plan(hits, stubbed.value));
  }

  lemma {:induction false} CoveredAreNamed(
      names: Naming, c: Class, cands: seq<Candidate>, hits: seq<Matched>, s: Stubbed)
    requires StubsCover(names, c, cands, hits, s, |cands|)
    ensures forall i, part | 0 <= i < |cands| && Unbacked(hits, cands[i], part) :: Named(names, c, cands[i].member)
  {
    forall i, part | 0 <= i < |cands| && Unbacked(hits, cands[i], part) ensures Named(names, c, cands[i].member) {
      var e := StubFor(cands[i], part);
      var k :| 0 <= k < |s.stubs| && s.stubs[k] == e;
      var name := StubOf(names, c.stubs, e.candidate.member).value;
      var at :| 0 <= at < |c.stubs| && c.stubs[at] == name;
    }
  }

  /** Of the parts of a plan, those that are for `part` of the members `key` names. */
  function Count(matched: seq<Matched>, key: Key, part: Part): nat {
    if matched == [] then 0 else (if Backs(matched[0], key, part) then 1 else 0) + Count(matched[1..], key, part)
  }

  lemma {:induction false} CountIsOne(hits: seq<Matched>, key: Key, part: Part)
    requires forall i, j | 0 <= i < j < |hits| :: !Backs(hits[i], KeyOf(hits[j].candidate), hits[j].part)
    ensures Count(hits, key, part) == if HasBacked(hits, key, part) then 1 else 0
  {
    if hits != [] {
      var rest := hits[1..];
      assert forall i | 0 <= i < |rest| :: rest[i] == hits[i + 1];
      CountIsOne(rest, key, part);
      if Backs(hits[0], key, part) {
        assert !HasBacked(rest, key, part);
      }
      assert HasBacked(hits, key, part) <==> Backs(hits[0], key, part) || HasBacked(rest, key, part) by {
        if i :| 0 <= i < |rest| && Backs(rest[i], key, part) {
          assert Backs(hits[i + 1], key, part);
        }
      }
    }
  }

  /** On a planned target every abstract part of every member is backed by exactly one
      method, one that names that member and fits it, or else is stubbed by a name of
      the class's stubs, and then by no method. */
  lemma {:induction false} EveryAbstractPartIsCovered(
      names: Naming, c: Class, cands: seq<Candidate>, p: Plan, i: nat, part: Part)
    requires Planned(names, c, cands, p) && i < |cands| && IsAbstract(cands[i].member, part)
    ensures var key := KeyOf(cands[i]);
            if HasBacked(p.hits, key, part) then
              Count(p.hits, key, part) == 1 && Count(p.stubbed.stubs, key, part) == 0
              && forall h :: h in p.hits && Backs(h, key, part) ==>
                 h.method_.Some? && h.method_.value in c.methods && NamedAndFits(names, h.method_.value, h.candidate)
            else
              Count(p.hits, key, part) == 0 && StubFor(cands[i], part) in p.stubbed.stubs
              && exists k | 0 <= k < |c.stubs| :: names(c.stubs[k], cands[i].member)
  {
    var key := KeyOf(cands[i]);
    CountIsOne(p.hits, key, part);
    if HasBacked(p.hits, key, part) {
      NoneIsStubbed(p.hits, p.stubbed.stubs, key, part);
      forall h | h in p.hits && Backs(h, key, part)
        ensures h.method_.Some? && h.method_.value in c.methods && NamedAndFits(names, h.method_.value, h.candidate)
      {
        HitIsOf(names, h.method_.value, cands);
        assert c.methods[..|c.methods|] == c.methods;
      }
    } else {
      assert Unbacked(p.hits, cands[i], part);
      var e := StubFor(cands[i], part);
      var k :| 0 <= k < |p.stubbed.stubs| && p.stubbed.stubs[k] == e;
    }
  }

  lemma {:induction false} NoneIsStubbed(hits: seq<Matched>, stubs: seq<Matched>, key: Key, part: Part)
    requires HasBacked(hits, key, part) && forall i | 0 <= i < |stubs| ::
        Unbacked(hits, stubs[i].candidate, stubs[i].part)
    ensures Count(stubs, key, part) == 0
  {
    if stubs != [] {
      NoneIsStubbed(hits, stubs[1..], key, part);
    }
  }

  // ----- both targets -----

  predicate IsBacked(p: Plan, index: nat) {
    exists i | 0 <= i < |p.hits| :: p.hits[i].method_.Some? && p.hits[i].method_.value.index == index
  }

  /** The checks over both targets: each name in stubs makes a member throw on one of
      them, and each `#[member]` method backs one on one of them. */
  method Check(c: Class, net: Plan, standard: Plan) returns (r: Result<(), Refusal>)
    ensures r.Ok? <==>
      && (forall i | 0 <= i < |c.stubs| :: c.stubs[i] in net.stubbed.used || c.stubs[i] in standard.stubbed.used)
      && (forall i | 0 <= i < |c.methods| && c.methods[i].member.Some? ::
         IsBacked(net, c.methods[i].index) || IsBacked(standard, c.methods[i].index))
  {
    for i := 0 to |c.stubs|
      invariant forall k | 0 <= k < i :: c.stubs[k] in net.stubbed.used || c.stubs[k] in standard.stubbed.used
    {
      if c.stubs[i] !in net.stubbed.used && c.stubs[i] !in standard.stubbed.used {
        return Err(StubNamesNothing(c.stubs[i]));
      }
    }
    for i := 0 to |c.methods|
      invariant forall k | 0 <= k < i && c.methods[k].member.Some? ::
          IsBacked(net, c.methods[k].index) || IsBacked(standard, c.methods[k].index)
    {
      if c.methods[i].member.Some? && !IsBacked(net, c.methods[i].index) && !IsBacked(standard, c.methods[i].index) {
        return Err(BacksNothing(c.methods[i]));
      }
    }
    return Ok(());
  }

  /** Some marked method of that index backs a member. */
  ghost predicate BacksSome(names: Naming, c: Class, cands: seq<Candidate>, index: nat) {
    exists i :: 0 <= i < |c.methods| && HitsAt(names, c.methods, cands, i) && c.methods[i].index == index
  }

  /** `name` is the first in stubs that names the member of some unbacked part. */
  ghost predicate Stubbing(names: Naming, c: Class, cands: seq<Candidate>, name: string) {
    exists i, part :: 0 <= i < |cands| && Unbacked(HitsIn(names, c.methods, cands, |c.methods|), cands[i], part)
                      && StubOf(names, c.stubs, cands[i].member) == Some(name)
  }

  lemma {:induction false} BackedIs(names: Naming, c: Class, cands: seq<Candidate>, p: Plan, index: nat)
    requires Planned(names, c, cands, p) && p.hits == HitsIn(names, c.methods, cands, |c.methods|)
    ensures IsBacked(p, index) <==> BacksSome(names, c, cands, index)
  {
    if IsBacked(p, index) {
      var a :| 0 <= a < |p.hits| && p.hits[a].method_.Some? && p.hits[a].method_.value.index == index;
      var i := SomeIsFrom(c.methods, m => HitOf(names, m, cands), a, |c.methods|);
      HitIsOfItsMethod(names, c.methods[i], cands);
    }
    if i :| 0 <= i < |c.methods| && HitsAt(names, c.methods, cands, i) && c.methods[i].index == index {
      var a := SomeIsIn(c.methods, m => HitOf(names, m, cands), i, |c.methods|);
      HitIsOfItsMethod(names, c.methods[i], cands);
    }
  }

  lemma {:induction false} UsedIs(names: Naming, c: Class, cands: seq<Candidate>, p: Plan, name: string)
    requires Planned(names, c, cands, p) && p.hits == HitsIn(names, c.methods, cands, |c.methods|)
    ensures name in p.stubbed.used <==> Stubbing(names, c, cands, name)
  {
    if name in p.stubbed.used {
      var k :| 0 <= k < |p.stubbed.stubs| && StubOf(names, c.stubs, p.stubbed.stubs[k].candidate.member) == Some(name);
      var e := p.stubbed.stubs[k];
      var i :| 0 <= i < |cands| && cands[i] == e.candidate;
      assert Unbacked(p.hits, cands[i], e.part);
    }
    if i, part :|
      0 <= i < |cands| && Unbacked(p.hits, cands[i], part) && StubOf(names, c.stubs, cands[i].member) == Some(name)
    {
      var e := StubFor(cands[i], part);
      var k :| 0 <= k < |p.stubbed.stubs| && p.stubbed.stubs[k] == e;
    }
  }

  /** Every name in stubs is used and every marked method backs a member, on one target
      or the other. */
  ghost predicate NothingIdle(names: Naming, c: Class, net: seq<Candidate>, standard: seq<Candidate>) {
    && (forall i | 0 <= i < |c.stubs| ::
       Stubbing(names, c, net, c.stubs[i]) || Stubbing(names, c, standard, c.stubs[i]))
    && (forall i | 0 <= i < |c.methods| && c.methods[i].member.Some? ::
          BacksSome(names, c, net, c.methods[i].index) || BacksSome(names, c, standard, c.methods[i].index))
  }

  /** A class is planned exactly when each target can be and nothing is idle. */
  method PlanClass(
      names: Naming, c: Class, net: seq<Candidate>, standard: seq<Candidate>)
    returns (r: Result<(Plan, Plan), Refusal>)
    ensures r.Ok? <==> Plannable(names, c, net) && Plannable(names, c, standard) && NothingIdle(names, c, net, standard)
    ensures r.Ok? ==> Planned(names, c, net, r.value.0) && Planned(names, c, standard, r.value.1)
    ensures r.Ok? ==> forall i | 0 <= i < |c.stubs| ::
        c.stubs[i] in r.value.0.stubbed.used || c.stubs[i] in r.value.1.stubbed.used
    ensures r.Ok? ==> forall i | 0 <= i < |c.methods| && c.methods[i].member.Some? ::
                        IsBacked(r.value.0, c.methods[i].index) || IsBacked(r.value.1, c.methods[i].index)
  {
    var a :- PlanFor(names, c, net);
    var b :- PlanFor(names, c, standard);
    var checked := Check(c, a, b);
    IdleIs(names, c, net, standard, a, b);
    if checked.Err? {
      return Err(checked.error);
    }
    return Ok((a, b));
  }

  lemma {:induction false} StubsIdleIs(
      names: Naming, c: Class, net: seq<Candidate>, standard: seq<Candidate>, a: Plan, b: Plan, i: nat)
    requires Planned(names, c, net, a) && a.hits == HitsIn(names, c.methods, net, |c.methods|)
    requires Planned(names, c, standard, b) && b.hits == HitsIn(names, c.methods, standard, |c.methods|)
    requires i < |c.stubs|
    ensures c.stubs[i] in a.stubbed.used || c.stubs[i] in b.stubbed.used <==>
            Stubbing(names, c, net, c.stubs[i]) || Stubbing(names, c, standard, c.stubs[i])
  {
    UsedIs(names, c, net, a, c.stubs[i]);
    UsedIs(names, c, standard, b, c.stubs[i]);
  }

  lemma {:induction false} MethodIdleIs(
      names: Naming, c: Class, net: seq<Candidate>, standard: seq<Candidate>, a: Plan, b: Plan, i: nat)
    requires Planned(names, c, net, a) && a.hits == HitsIn(names, c.methods, net, |c.methods|)
    requires Planned(names, c, standard, b) && b.hits == HitsIn(names, c.methods, standard, |c.methods|)
    requires i < |c.methods|
    ensures IsBacked(a, c.methods[i].index) || IsBacked(b, c.methods[i].index) <==>
            BacksSome(names, c, net, c.methods[i].index) || BacksSome(names, c, standard, c.methods[i].index)
  {
    BackedIs(names, c, net, a, c.methods[i].index);
    BackedIs(names, c, standard, b, c.methods[i].index);
  }

  lemma {:induction false} IdleIs(
      names: Naming, c: Class, net: seq<Candidate>, standard: seq<Candidate>, a: Plan, b: Plan)
    requires Planned(names, c, net, a) && a.hits == HitsIn(names, c.methods, net, |c.methods|)
    requires Planned(names, c, standard, b) && b.hits == HitsIn(names, c.methods, standard, |c.methods|)
    ensures NothingIdle(names, c, net, standard) <==>
            && (forall i | 0 <= i < |c.stubs| :: c.stubs[i] in a.stubbed.used || c.stubs[i] in b.stubbed.used)
            && (forall i | 0 <= i < |c.methods| && c.methods[i].member.Some? ::
               IsBacked(a, c.methods[i].index) || IsBacked(b, c.methods[i].index))
  {
    forall i: nat | i < |c.stubs|
      ensures c.stubs[i] in a.stubbed.used || c.stubs[i] in b.stubbed.used <==>
              Stubbing(names, c, net, c.stubs[i]) || Stubbing(names, c, standard, c.stubs[i])
    {
      StubsIdleIs(names, c, net, standard, a, b, i);
    }
    forall i: nat | i < |c.methods|
      ensures IsBacked(a, c.methods[i].index) || IsBacked(b, c.methods[i].index) <==>
              BacksSome(names, c, net, c.methods[i].index) || BacksSome(names, c, standard, c.methods[i].index)
    {
      MethodIdleIs(names, c, net, standard, a, b, i);
    }
  }

  /** `hits` has a hit of the method itself, on a member it names and fits. */
  ghost predicate HasHitOf(names: Naming, hits: seq<Matched>, cands: seq<Candidate>, m: Method) {
    exists k :: 0 <= k < |hits|
                && hits[k].method_ == Some(m) && hits[k].candidate in cands && NamedAndFits(names, m, hits[k].candidate)
  }

  /** Where methods have indexes of their own, a `#[member]` method of a planned class
      is itself a hit, on a member it names and fits, on one target or the other. */
  lemma {:induction false} EveryMemberMethodBacksOne(
      names: Naming, c: Class, net: seq<Candidate>, standard: seq<Candidate>, a: Plan, b: Plan, i: nat)
    requires Planned(names, c, net, a) && Planned(names, c, standard, b)
    requires forall j, k | 0 <= j < k < |c.methods| :: c.methods[j].index != c.methods[k].index
    requires i < |c.methods| && c.methods[i].member.Some? &&
        (IsBacked(a, c.methods[i].index) || IsBacked(b, c.methods[i].index))
    ensures HasHitOf(names, a.hits, net, c.methods[i]) || HasHitOf(names, b.hits, standard, c.methods[i])
  {
    if IsBacked(a, c.methods[i].index) {
      BackedMethodFits(names, c, net, a, i);
    } else {
      BackedMethodFits(names, c, standard, b, i);
    }
  }

  lemma {:induction false} HitFits(
      names: Naming, methods: seq<Method>, cands: seq<Candidate>, hits: seq<Matched>, k: nat)
    requires HitsOf(names, methods, cands, hits, |methods|) && k < |hits|
    ensures hits[k].method_.Some? && hits[k].method_.value in methods
    ensures hits[k].candidate in cands && NamedAndFits(names, hits[k].method_.value, hits[k].candidate)
  {
    assert methods[..|methods|] == methods;
    HitIsOf(names, hits[k].method_.value, cands);
  }

  lemma {:induction false} BackedMethodFits(names: Naming, c: Class, cands: seq<Candidate>, p: Plan, i: nat)
    requires Planned(names, c, cands, p)
    requires forall j, k | 0 <= j < k < |c.methods| :: c.methods[j].index != c.methods[k].index
    requires i < |c.methods| && IsBacked(p, c.methods[i].index)
    ensures HasHitOf(names, p.hits, cands, c.methods[i])
  {
    var k :| 0 <= k < |p.hits| && p.hits[k].method_.Some? && p.hits[k].method_.value.index == c.methods[i].index;
    HitFits(names, c.methods, cands, p.hits, k);
  }

  /** A name of a planned class's stubs names an abstract part that no method backs,
      on one target or the other. */
  lemma {:induction false} EveryStubNameIsUsed(
      names: Naming, c: Class, net: seq<Candidate>, standard: seq<Candidate>, a: Plan, b: Plan, name: string)
    requires Planned(names, c, net, a) && Planned(names, c, standard, b)
    requires name in a.stubbed.used || name in b.stubbed.used
    ensures exists cd: Candidate, part: Part ::
              names(name, cd.member)
              && ((cd in net && Unbacked(a.hits, cd, part)) || (cd in standard && Unbacked(b.hits, cd, part)))
  {
    var p := if name in a.stubbed.used then a else b;
    var k :| 0 <= k < |p.stubbed.stubs| && StubOf(names, c.stubs, p.stubbed.stubs[k].candidate.member) == Some(name);
    var e := p.stubbed.stubs[k];
    assert names(name, e.candidate.member);
    assert e.candidate in (if name in a.stubbed.used then net else standard);
  }
}
