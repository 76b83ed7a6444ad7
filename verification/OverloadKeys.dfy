/** What tells the members of a type apart, `signature` and `key` of
    crates/cargo-pwrs/src/bases.rs, in the members' own terms; and that methods of a Rust
    class can back overloads of one name apart. */
module OverloadKeys {
  import opened Results
  import opened Conversions
  import opened Members
  import opened MemberFit
  import opened RenderMembers
  import opened PlanTarget
  import opened DeclaredMembers

  /** Both passed by value or neither, and of one type. */
  predicate SameParam(a: Param, b: Param) {
    && (a.mode == ByValue <==> b.mode == ByValue)
    && a.ty.name == b.ty.name
    && a.ty.nullable == b.ty.nullable
  }

  predicate SameParams(a: seq<Param>, b: seq<Param>) {
    |a| == |b| && forall i | 0 <= i < |a| :: SameParam(a[i], b[i])
  }

  /** One type declares both, by one name, with as many type parameters and alike parameters. */
  predicate SameMember(a: Member, b: Member) {
    a.from == b.from && a.name == b.name && |a.typeParams| == |b.typeParams| && SameParams(a.params, b.params)
  }

  lemma {:induction false} ParamTypesAre(params: seq<Param>)
    ensures |ParamTypes(params)| == |params|
    ensures forall i | 0 <= i < |params| ::
              ParamTypes(params)[i] == (params[i].mode != ByValue, params[i].ty.name, params[i].ty.nullable)
  {
    if params != [] {
      ParamTypesAre(params[1..]);
    }
  }

  /** Two members have one key exactly when they are declared alike: the rest of a
      parameter, the result and the member's kind are no part of it. */
  lemma {:induction false} SameKeyExactlyWhen(a: Candidate, b: Candidate)
    ensures KeyOf(a) == KeyOf(b) <==> SameMember(a.member, b.member)
  {
    SameTypesExactlyWhen(a.member.params, b.member.params);
  }

  lemma {:induction false} SameTypesExactlyWhen(a: seq<Param>, b: seq<Param>)
    ensures ParamTypes(a) == ParamTypes(b) <==> SameParams(a, b)
  {
    ParamTypesAre(a);
    ParamTypesAre(b);
    if SameParams(a, b) {
      forall i | 0 <= i < |a| ensures ParamTypes(a)[i] == ParamTypes(b)[i] {
        assert SameParam(a[i], b[i]);
      }
    }
    if ParamTypes(a) == ParamTypes(b) {
      forall i | 0 <= i < |a| ensures SameParam(a[i], b[i]) {
        assert ParamTypes(a)[i] == ParamTypes(b)[i];
      }
    }
  }

  // ----- the one member a method names and fits -----

  lemma {:induction false} FittingNone(names: Naming, m: Method, cands: seq<Candidate>)
    ensures Fitting(names, m, cands) == [] <==> forall k | 0 <= k < |cands| :: !NamedAndFits(names, m, cands[k])
  {
    if cands != [] {
      FittingNone(names, m, cands[1..]);
      assert forall k | 0 < k < |cands| :: cands[k] == cands[1..][k - 1];
    }
  }

  /** It names and fits two of the members. */
  predicate FitsTwo(names: Naming, m: Method, cands: seq<Candidate>) {
    exists i, j | 0 <= i < j < |cands| :: NamedAndFits(names, m, cands[i]) && NamedAndFits(names, m, cands[j])
  }

  lemma {:induction false} FittingTwo(names: Naming, m: Method, cands: seq<Candidate>)
    ensures |Fitting(names, m, cands)| > 1 <==> FitsTwo(names, m, cands)
  {
    if cands != [] {
      var rest := cands[1..];
      assert forall k | 0 < k < |cands| :: cands[k] == rest[k - 1];
      FittingTwo(names, m, rest);
      FittingNone(names, m, rest);
      if NamedAndFits(names, m, cands[0]) {
        if Fitting(names, m, rest) != [] {
          var k :| 0 <= k < |rest| && NamedAndFits(names, m, rest[k]);
          assert NamedAndFits(names, m, cands[k + 1]);
        }
      } else {
        assert Fitting(names, m, cands) == Fitting(names, m, rest);
        TwoOfRest(names, m, cands);
      }
    }
  }

  lemma {:induction false} TwoOfRest(names: Naming, m: Method, cands: seq<Candidate>)
    requires cands != [] && !NamedAndFits(names, m, cands[0])
    ensures FitsTwo(names, m, cands) <==> FitsTwo(names, m, cands[1..])
  {
    var rest := cands[1..];
    if i, j :| 0 <= i < j < |cands| && NamedAndFits(names, m, cands[i]) && NamedAndFits(names, m, cands[j]) {
      assert NamedAndFits(names, m, rest[i - 1]) && NamedAndFits(names, m, rest[j - 1]);
    }
    if i, j :| 0 <= i < j < |rest| && NamedAndFits(names, m, rest[i]) && NamedAndFits(names, m, rest[j]) {
      assert NamedAndFits(names, m, cands[i + 1]) && NamedAndFits(names, m, cands[j + 1]);
    }
  }

  /** A method has no hit exactly when it names and fits no member, several when it does
      two, and otherwise the one it does. */
  lemma {:induction false} FoundExactlyWhen(names: Naming, m: Method, cands: seq<Candidate>)
    ensures FoundOf(names, m, cands).NoHit? <==> forall k | 0 <= k < |cands| :: !NamedAndFits(names, m, cands[k])
    ensures FoundOf(names, m, cands).Several? <==> FitsTwo(names, m, cands)
    ensures FoundOf(names, m, cands).Hit? ==>
              exists k | 0 <= k < |cands| ::
                NamedAndFits(names, m, cands[k]) && FoundOf(names, m, cands) == Hit(MatchedAs(m, cands[k]))
  {
    FittingNone(names, m, cands);
    FittingTwo(names, m, cands);
    if FoundOf(names, m, cands).Hit? {
      FittingAreOf(names, m, cands, 0);
    }
  }

  /** Of the members only the one at `i` is one `m` names and fits. */
  ghost predicate FitsOnly(names: Naming, m: Method, cands: seq<Candidate>, i: nat) {
    i < |cands| && forall k | 0 <= k < |cands| :: NamedAndFits(names, m, cands[k]) <==> k == i
  }

  lemma {:induction false} OnlyFitIsFound(names: Naming, m: Method, cands: seq<Candidate>, i: nat)
    requires FitsOnly(names, m, cands, i)
    ensures FoundOf(names, m, cands) == Hit(MatchedAs(m, cands[i]))
    decreases |cands|
  {
    var rest := cands[1..];
    assert forall k | 0 <= k < |rest| :: rest[k] == cands[k + 1];
    assert NamedAndFits(names, m, cands[0]) <==> 0 == i;
    if i == 0 {
      FittingNone(names, m, rest);
      assert Fitting(names, m, cands) == [MatchedAs(m, cands[0])];
    } else {
      OnlyFitIsFound(names, m, rest, i - 1);
      assert Fitting(names, m, cands) == Fitting(names, m, rest);
    }
  }

  /** A method that fits one member alone is a hit on it, of a planned target. */
  lemma {:induction false} OnlyFitIsHit(names: Naming, c: Class, cands: seq<Candidate>, p: Plan, m: Method, i: nat)
    requires Planned(names, c, cands, p) && m in c.methods && FitsOnly(names, m, cands, i)
    ensures MatchedAs(m, cands[i]) in p.hits && m.member.Some?
  {
    OnlyFitIsFound(names, m, cands, i);
    assert NamedAndFits(names, m, cands[i]);
    var k :| 0 <= k < |c.methods| && c.methods[k] == m;
  }

  // ----- overloads of one name -----

  predicate IsAbstractMethod(m: Member) {
    m.kind == AMethod && m.slot == Abstract
  }

  lemma {:induction false} BackedByIt(hits: seq<Matched>, hit: Matched, e: Matched)
    requires forall a, b | 0 <= a < b < |hits| :: !Backs(hits[a], KeyOf(hits[b].candidate), hits[b].part)
    requires hit in hits && e in hits && Backs(e, KeyOf(hit.candidate), hit.part)
    ensures e == hit
  {
    var a :| 0 <= a < |hits| && hits[a] == hit;
    var b :| 0 <= b < |hits| && hits[b] == e;
  }

  /** The one declaration of an abstract method that one marked method alone fits runs it. */
  lemma {:induction false} OnlyFitIsDeclared(
      names: Naming, c: Class, base: seq<Member>, own: seq<string>, cands: seq<Candidate>, p: Plan,
      out: seq<Rendering>, m: Method, i: nat)
    returns (r: nat)
    requires Planned(names, c, cands, p) && CandidatesAreRead(base, cands) && Rendered(AllMatched(p), base, own, out)
    requires m in c.methods && FitsOnly(names, m, cands, i) && IsAbstractMethod(cands[i].member)
    ensures MatchedAs(m, cands[i]) in p.hits
    ensures r < |out| && IsMethod(out[r]) && out[r].key == KeyOf(cands[i]) && out[r].found == MatchedAs(m, cands[i])
  {
    var hit := MatchedAs(m, cands[i]);
    OnlyFitIsHit(names, c, cands, p, m, i);
    FitIsOfKind(m, cands[i]);
    var e;
    r, e := EveryAbstractPartIsDeclared(names, c, base, own, cands, p, out, i, TheMethod);
    var k :| 0 <= k < |p.hits| && p.hits[k] == hit;
    assert Backs(p.hits[k], KeyOf(cands[i]), TheMethod);
    BackedByIt(p.hits, hit, e);
  }

  /** Two abstract methods declared apart, say by the type of one parameter, and a method
      of the class for each, which names and fits that one alone: both are hits, and each
      of two declarations runs its own. */
  lemma {:induction false} OverloadsAreBackedApart(
      names: Naming, c: Class, base: seq<Member>, own: seq<string>, cands: seq<Candidate>, p: Plan,
      out: seq<Rendering>, m: Method, n: Method, i: nat, j: nat)
    returns (r: nat, q: nat)
    requires Planned(names, c, cands, p) && CandidatesAreRead(base, cands) && Rendered(AllMatched(p), base, own, out)
    requires m in c.methods && FitsOnly(names, m, cands, i) && IsAbstractMethod(cands[i].member)
    requires n in c.methods && FitsOnly(names, n, cands, j) && IsAbstractMethod(cands[j].member)
    requires !SameMember(cands[i].member, cands[j].member)
    ensures MatchedAs(m, cands[i]) in p.hits && MatchedAs(n, cands[j]) in p.hits
    ensures r < |out| && IsMethod(out[r]) && out[r].found == MatchedAs(m, cands[i])
    ensures q < |out| && IsMethod(out[q]) && out[q].found == MatchedAs(n, cands[j])
    ensures r != q
  {
    r := OnlyFitIsDeclared(names, c, base, own, cands, p, out, m, i);
    q := OnlyFitIsDeclared(names, c, base, own, cands, p, out, n, j);
    SameKeyExactlyWhen(cands[i], cands[j]);
  }

  /** No method of the class names and fits the member, as any of the types' members
      declared alike. */
  ghost predicate NothingFits(names: Naming, c: Class, cands: seq<Candidate>, i: nat)
    requires i < |cands|
  {
    forall m, k | m in c.methods && 0 <= k < |cands| && SameMember(cands[k].member, cands[i].member) ::
      !NamedAndFits(names, m, cands[k])
  }

  /** An abstract method that nothing fits is stubbed, whatever backs its overloads. */
  lemma {:induction false} UnfitIsStubbed(names: Naming, c: Class, cands: seq<Candidate>, p: Plan, i: nat)
    requires Planned(names, c, cands, p) && i < |cands| && IsAbstractMethod(cands[i].member)
    requires NothingFits(names, c, cands, i)
    ensures StubFor(cands[i], TheMethod) in p.stubbed.stubs
  {
    forall k | 0 <= k < |p.hits| ensures KeyOf(p.hits[k].candidate) != KeyOf(cands[i]) {
      HitFits(names, c.methods, cands, p.hits, k);
      var at :| 0 <= at < |cands| && cands[at] == p.hits[k].candidate;
      SameKeyExactlyWhen(cands[at], cands[i]);
    }
    assert Unbacked(p.hits, cands[i], TheMethod);
  }

  /** A class one method of which names and fits each of two members declared apart, and
      each method one of them alone, is not refused for it. */
  lemma {:induction false} ApartDoNotClash(names: Naming, m: Method, n: Method, cands: seq<Candidate>, i: nat, j: nat)
    requires FitsOnly(names, m, cands, i) && FitsOnly(names, n, cands, j)
    requires !SameMember(cands[i].member, cands[j].member)
    ensures HitOf(names, m, cands).Some? && HitOf(names, n, cands).Some?
    ensures !BackOnePart(HitOf(names, m, cands).value, HitOf(names, n, cands).value)
  {
    OnlyFitIsFound(names, m, cands, i);
    OnlyFitIsFound(names, n, cands, j);
    assert NamedAndFits(names, m, cands[i]) && NamedAndFits(names, n, cands[j]);
    SameKeyExactlyWhen(cands[i], cands[j]);
  }

  // ----- which parts are abstract -----

  /** In a planned class each abstract method, getter and setter has its declaration. */
  lemma {:induction false} AbstractMemberIsDeclared(
      names: Naming, c: Class, base: seq<Member>, own: seq<string>, cands: seq<Candidate>, p: Plan,
      out: seq<Rendering>, i: nat)
    requires Planned(names, c, cands, p) && CandidatesAreRead(base, cands) && Rendered(AllMatched(p), base, own, out)
    requires i < |cands|
    ensures cands[i].member.kind == AMethod && cands[i].member.slot == Abstract ==>
              exists r | 0 <= r < |out| :: out[r].key == KeyOf(cands[i]) && out[r].member.kind == AMethod
    ensures cands[i].member.kind == AProperty && cands[i].member.getter.Some? &&
            cands[i].member.getter.value.slot == Abstract ==>
              exists r | 0 <= r < |out| :: out[r].key == KeyOf(cands[i]) && out[r].getter.Some?
    ensures cands[i].member.kind == AProperty && cands[i].member.setter.Some? &&
            cands[i].member.setter.value.slot == Abstract ==>
              exists r | 0 <= r < |out| :: out[r].key == KeyOf(cands[i]) && out[r].setter.Some?
  {
    var m := cands[i].member;
    if m.kind == AMethod && m.slot == Abstract {
      var r, _ := EveryAbstractPartIsDeclared(names, c, base, own, cands, p, out, i, TheMethod);
    }
    if m.kind == AProperty && m.getter.Some? && m.getter.value.slot == Abstract {
      var r, _ := EveryAbstractPartIsDeclared(names, c, base, own, cands, p, out, i, TheGetter);
    }
    if m.kind == AProperty && m.setter.Some? && m.setter.value.slot == Abstract {
      var r, _ := EveryAbstractPartIsDeclared(names, c, base, own, cands, p, out, i, TheSetter);
    }
  }

  /** What a planned class throws from is abstract: a method, a getter or a setter. */
  lemma {:induction false} OnlyAbstractIsStubbed(names: Naming, c: Class, cands: seq<Candidate>, p: Plan, k: nat)
    requires Planned(names, c, cands, p) && k < |p.stubbed.stubs|
    ensures var e := p.stubbed.stubs[k];
            match e.part
            case TheMethod => e.candidate.member.kind == AMethod && e.candidate.member.slot == Abstract
            case TheGetter => e.candidate.member.getter.Some? && e.candidate.member.getter.value.slot == Abstract
            case TheSetter => e.candidate.member.setter.Some? && e.candidate.member.setter.value.slot == Abstract
  {
    assert Unbacked(p.hits, p.stubbed.stubs[k].candidate, p.stubbed.stubs[k].part);
  }
}
