/** From a class's methods to the text both targets compile: what `plan_target` matches
    and stubs goes through `render_members`, and its pieces through `merge`, in
    crates/cargo-pwrs/src/bases.rs. */
module DeclaredMembers {
  import opened Results
  import opened CSharpLines
  import opened Members
  import opened MemberFit
  import opened RenderMembers
  import opened PlanTarget
  import opened TargetMerge

  /** What is read of a type: members of one key are of one kind, as C# has them in one
      type, and members of no interface are the base's. */
  ghost predicate CandidatesAreRead(base: seq<Member>, cands: seq<Candidate>) {
    && (forall i, j | 0 <= i < |cands| && 0 <= j < |cands| && KeyOf(cands[i]) == KeyOf(cands[j]) ::
          cands[i].member.kind == cands[j].member.kind)
    && (forall i | 0 <= i < |cands| && cands[i].interface.None? :: cands[i].member in base)
    && (forall i, j | 0 <= i < j < |base| && base[i].kind == AMethod && base[j].kind == AMethod ::
          SignatureOf(base[i]) != SignatureOf(base[j]))
  }

  /** What is declared: the hits, then the stubs. */
  function AllMatched(p: Plan): seq<Matched> {
    p.hits + p.stubbed.stubs
  }

  /** `out` declares every match and keeps its declarations apart. */
  ghost predicate Rendered(matched: seq<Matched>, base: seq<Member>, own: seq<string>, out: seq<Rendering>) {
    && KeepsApart(own, base, out)
    && ExplicitOnlyWhenForced(own, base, out)
    && (forall i | 0 <= i < |out| :: Faithful(matched, out[i]) && PublicIsNew(base, own, out[i]))
    && (forall i | 0 <= i < |matched| :: HasKey(out, KeyOf(matched[i].candidate)))
  }

  /** The declaration runs `e` for the part. */
  predicate Declares(r: Rendering, key: Key, part: Part, e: Matched) {
    r.key == key &&
    match part
    case TheMethod => IsMethod(r) && r.found == e
    case TheGetter => !IsMethod(r) && r.getter == Some(e)
    case TheSetter => !IsMethod(r) && r.setter == Some(e)
  }

  /** The kind of member a part is of. */
  predicate OfKind(part: Part, kind: Kind) {
    if part == TheMethod then kind == AMethod else kind == AProperty
  }

  // ----- every match is of a part its member has -----

  lemma {:induction false} FitIsOfKind(m: Method, cd: Candidate)
    requires FitOf(m, cd).Ok?
    ensures OfKind(FitOf(m, cd).value.part, cd.member.kind)
  {}

  lemma {:induction false} MatchedIsOfKind(names: Naming, c: Class, cands: seq<Candidate>, p: Plan, k: nat)
    requires Planned(names, c, cands, p) && k < |AllMatched(p)|
    ensures AllMatched(p)[k].candidate in cands && OfKind(AllMatched(p)[k].part, AllMatched(p)[k].candidate.member.kind)
  {
    var e := AllMatched(p)[k];
    if k < |p.hits| {
      assert e == p.hits[k];
      HitFits(names, c.methods, cands, p.hits, k);
      HitIsAsMatched(names, c, cands, p, k);
      FitIsOfKind(e.method_.value, e.candidate);
    } else {
      assert e == p.stubbed.stubs[k - |p.hits|];
      assert Unbacked(p.hits, e.candidate, e.part);
    }
  }

  lemma {:induction false} HitIsAsMatched(names: Naming, c: Class, cands: seq<Candidate>, p: Plan, k: nat)
    requires Planned(names, c, cands, p) && k < |p.hits|
    requires p.hits[k].method_.Some? && FitOf(p.hits[k].method_.value, p.hits[k].candidate).Ok?
    ensures p.hits[k] == MatchedAs(p.hits[k].method_.value, p.hits[k].candidate)
  {
    FittingAreOf(names, p.hits[k].method_.value, cands, 0);
  }

  lemma {:induction false} KindsOfOneKey(
      names: Naming, c: Class, base: seq<Member>, cands: seq<Candidate>, p: Plan, e: Matched, i: nat)
    requires Planned(names, c, cands, p) && CandidatesAreRead(base, cands)
    requires e in AllMatched(p) && i < |cands| && KeyOf(e.candidate) == KeyOf(cands[i])
    ensures OfKind(e.part, cands[i].member.kind) && e.candidate.member.kind == cands[i].member.kind
  {
    var k :| 0 <= k < |AllMatched(p)| && AllMatched(p)[k] == e;
    MatchedIsOfKind(names, c, cands, p, k);
    var j :| 0 <= j < |cands| && cands[j] == e.candidate;
  }

  // ----- each abstract part is declared once -----

  /** The match that is declared for an abstract part: a method's hit when one backs it,
      and its stub when none does. */
  ghost predicate Covers(names: Naming, c: Class, cands: seq<Candidate>, p: Plan, i: nat, part: Part, e: Matched)
    requires i < |cands|
  {
    if HasBacked(p.hits, KeyOf(cands[i]), part) then
      e in p.hits && Backs(e, KeyOf(cands[i]), part)
      && e.method_.Some? && e.method_.value in c.methods && NamedAndFits(names, e.method_.value, e.candidate)
    else
      e in p.stubbed.stubs && Backs(e, KeyOf(cands[i]), part) && e.method_.None? && Named(names, c, cands[i].member)
  }

  lemma {:induction false} AMatchCovers(
      names: Naming, c: Class, cands: seq<Candidate>, p: Plan, i: nat, part: Part, e: Matched)
    requires Planned(names, c, cands, p) && i < |cands| && IsAbstract(cands[i].member, part)
    requires e in AllMatched(p) && Backs(e, KeyOf(cands[i]), part)
    ensures Covers(names, c, cands, p, i, part, e)
  {
    EveryAbstractPartIsCovered(names, c, cands, p, i, part);
    StubsAreUnbacked(names, c, cands, p, e);
    assert e in p.hits ==> HasBacked(p.hits, KeyOf(cands[i]), part) by {
      if k :| 0 <= k < |p.hits| && p.hits[k] == e {
        assert Backs(p.hits[k], KeyOf(cands[i]), part);
      }
    }
  }

  lemma {:induction false} StubsAreUnbacked(names: Naming, c: Class, cands: seq<Candidate>, p: Plan, e: Matched)
    requires Planned(names, c, cands, p)
    ensures e in p.stubbed.stubs ==> e.method_.None? && Unbacked(p.hits, e.candidate, e.part)
  {
    if e in p.stubbed.stubs {
      var k :| 0 <= k < |p.stubbed.stubs| && p.stubbed.stubs[k] == e;
      assert e == StubFor(e.candidate, e.part);
    }
  }

  lemma {:induction false} MatchedAt(p: Plan, k: nat)
    requires k < |p.hits| + |p.stubbed.stubs|
    ensures k < |AllMatched(p)|
    ensures AllMatched(p)[k] == if k < |p.hits| then p.hits[k] else p.stubbed.stubs[k - |p.hits|]
  {}

  lemma {:induction false} UnbackedIsStubbed(
      names: Naming, c: Class, cands: seq<Candidate>, p: Plan, i: nat, part: Part) returns (at: nat)
    requires Planned(names, c, cands, p) && i < |cands| && Unbacked(p.hits, cands[i], part)
    ensures at < |p.stubbed.stubs| && p.stubbed.stubs[at] == StubFor(cands[i], part)
  {
    at :| 0 <= at < |p.stubbed.stubs| && p.stubbed.stubs[at] == StubFor(cands[i], part);
  }

  lemma {:induction false} SomeMatchBacks(
      names: Naming, c: Class, cands: seq<Candidate>, p: Plan, i: nat, part: Part) returns (k: nat)
    requires Planned(names, c, cands, p) && i < |cands| && IsAbstract(cands[i].member, part)
    ensures k < |AllMatched(p)| && Backs(AllMatched(p)[k], KeyOf(cands[i]), part)
  {
    if HasBacked(p.hits, KeyOf(cands[i]), part) {
      k :| 0 <= k < |p.hits| && Backs(p.hits[k], KeyOf(cands[i]), part);
      MatchedAt(p, k);
    } else {
      var at := UnbackedIsStubbed(names, c, cands, p, i, part);
      k := |p.hits| + at;
      MatchedAt(p, k);
    }
  }

  /** The declaration of a key declares the part's match. */
  lemma {:induction false} KeyDeclares(
      matched: seq<Matched>, r: Rendering, key: Key, part: Part, k: nat) returns (e: Matched)
    requires Faithful(matched, r) && r.key == key
    requires k < |matched| && Backs(matched[k], key, part)
    requires forall x | x in matched && KeyOf(x.candidate) == key ::
        OfKind(x.part, matched[k].candidate.member.kind) && x.candidate.member.kind == matched[k].candidate.member.kind
    ensures e in matched && Backs(e, key, part) && Declares(r, key, part, e)
  {
    assert OfKind(part, matched[k].candidate.member.kind);
    assert OfKind(r.found.part, matched[k].candidate.member.kind);
    if part == TheMethod {
      e := r.found;
    } else {
      FirstPartFinds(matched, key, part, k);
      e := FirstPart(matched, key, part).value;
    }
  }

  /** On a planned target every abstract method and accessor is declared in exactly one
      declaration, which runs the method that backs it or, where none does, its stub. */
  lemma {:induction false} EveryAbstractPartIsDeclared(
      names: Naming, c: Class, base: seq<Member>, own: seq<string>, cands: seq<Candidate>, p: Plan,
      out: seq<Rendering>, i: nat, part: Part)
    returns (r: nat, e: Matched)
    requires Planned(names, c, cands, p) && CandidatesAreRead(base, cands) && Rendered(AllMatched(p), base, own, out)
    requires i < |cands| && IsAbstract(cands[i].member, part)
    ensures r < |out| && Declares(out[r], KeyOf(cands[i]), part, e) && Covers(names, c, cands, p, i, part, e)
    ensures forall j | 0 <= j < |out| && out[j].key == KeyOf(cands[i]) :: j == r
  {
    var key := KeyOf(cands[i]);
    var k := SomeMatchBacks(names, c, cands, p, i, part);
    assert HasKey(out, KeyOf(AllMatched(p)[k].candidate));
    r :| 0 <= r < |out| && out[r].key == key;
    forall x | x in AllMatched(p) && KeyOf(x.candidate) == key
      ensures OfKind(x.part, AllMatched(p)[k].candidate.member.kind) &&
          x.candidate.member.kind == AllMatched(p)[k].candidate.member.kind
    {
      KindsOfOneKey(names, c, base, cands, p, x, i);
      KindsOfOneKey(names, c, base, cands, p, AllMatched(p)[k], i);
    }
    e := KeyDeclares(AllMatched(p), out[r], key, part, k);
    AMatchCovers(names, c, cands, p, i, part, e);
  }

  /** In a planned class a matched getter and setter of one property are declared
      together, whichever backs which. */
  lemma {:induction false} PlannedAccessorsLandTogether(
      names: Naming, c: Class, base: seq<Member>, own: seq<string>, cands: seq<Candidate>, p: Plan,
      out: seq<Rendering>, g: nat, s: nat)
    requires Planned(names, c, cands, p) && CandidatesAreRead(base, cands) && Rendered(AllMatched(p), base, own, out)
    requires g < |AllMatched(p)| && s < |AllMatched(p)|
    requires KeyOf(AllMatched(p)[g].candidate) == KeyOf(AllMatched(p)[s].candidate)
    requires AllMatched(p)[g].part == TheGetter && AllMatched(p)[s].part == TheSetter
    ensures exists i | 0 <= i < |out| ::
              out[i].key == KeyOf(AllMatched(p)[g].candidate) && out[i].getter.Some? && out[i].setter.Some?
  {
    var matched := AllMatched(p);
    var key := KeyOf(matched[g].candidate);
    MatchedIsOfKind(names, c, cands, p, g);
    var i :| 0 <= i < |cands| && cands[i] == matched[g].candidate;
    FirstOfKeyFinds(matched, key, g);
    KindsOfOneKey(names, c, base, cands, p, FirstOfKey(matched, key).value, i);
    AccessorsLandTogether(matched, out, g, s);
  }

  /** One target's declarations. */
  method DeclareMembers(names: Naming, c: Class, base: seq<Member>, own: seq<string>, cands: seq<Candidate>)
    returns (r: Result<(Plan, seq<Rendering>), Refusal>)
    requires CandidatesAreRead(base, cands)
    ensures r.Ok? <==> Plannable(names, c, cands)
    ensures r.Ok? ==> Planned(names, c, cands, r.value.0) && Rendered(AllMatched(r.value.0), base, own, r.value.1)
  {
    var planned := PlanFor(names, c, cands);
    if planned.Err? {
      return Err(planned.error);
    }
    var p := planned.value;
    forall k | 0 <= k < |AllMatched(p)| ensures AllMatched(p)[k].candidate in cands {
      MatchedIsOfKind(names, c, cands, p, k);
    }
    var out := Render(AllMatched(p), base, own);
    return Ok((p, out));
  }

  // ----- both targets -----

  /** The text is what C# reads: the conditions each on a line of its own. */
  lemma {:induction false} ConditionsAreWritten(a: string, b: string)
    ensures a != b ==> Both(a, b) == "#if NET\n" + a + "#else\n" + b + "#endif\n"
    ensures OnOne(IF_NET, a) == "#if NET\n" + a + "#endif\n" && OnOne(IF_NOT_NET, b) == "#if !NET\n" + b + "#endif\n"
  {
    assert IF_NET + "\n" == "#if NET\n" && IF_NOT_NET + "\n" == "#if !NET\n";
    assert ELSE + "\n" == "#else\n" && ENDIF + "\n" == "#endif\n";
  }

  /** The pieces of one target's declarations. */
  function PiecesOf(out: seq<Rendering>, text: Rendering -> string): seq<Piece> {
    seq(|out|, i requires 0 <= i < |out| => Piece(out[i].key, text(out[i])))
  }

  /** Whatever plain text each declaration has, both targets compile their own
      declarations from the merged text: a rendered target's keys are distinct. */
  lemma {:induction false} DeclarationsMergeRightly(
    own: seq<string>, netBase: seq<Member>, standardBase: seq<Member>,
    net: seq<Rendering>, standard: seq<Rendering>, netText: Rendering -> string, standardText: Rendering -> string)
    requires KeepsApart(own, netBase, net) && KeepsApart(own, standardBase, standard)
    requires (forall i | 0 <= i < |net| :: Plain(netText(net[i]))) && forall i | 0 <= i < |standard| ::
        Plain(standardText(standard[i]))
    ensures var a, b := PiecesOf(net, netText), PiecesOf(standard, standardText);
            && Preprocessed(Merged(a, b), true) == Some(Concat(a))
            && Preprocessed(Merged(a, b), false) == Some(Concat(StandardOrder(a, b)))
            && multiset(StandardOrder(a, b)) == multiset(b)
  {
    MergeKeepsMeaning(PiecesOf(net, netText), PiecesOf(standard, standardText));
  }
}
