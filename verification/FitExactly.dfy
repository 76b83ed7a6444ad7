/** Exactly when a Rust method fits a method member, in terms of the two alone: what
    `fit` of crates/cargo-pwrs/src/bases.rs accepts. */
module FitExactly {
  import opened Results
  import opened Conversions
  import opened Members
  import opened MemberFit
  import opened GivesComplete

  /** `at` lists the indexes in order. */
  ghost predicate Lists(at: seq<nat>, all: set<nat>) {
    && (forall i: nat :: i in at <==> i in all)
    && (forall a, b | 0 <= a < b < |at| :: at[a] < at[b])
  }

  /** The parameters not passed out. */
  ghost predicate AreIns(at: seq<nat>, params: seq<Param>) {
    Lists(at, set i | 0 <= i < |params| && params[i].mode != Out)
  }

  /** The parameters passed out. */
  ghost predicate AreOuts(at: seq<nat>, params: seq<Param>) {
    Lists(at, set i | 0 <= i < |params| && params[i].mode == Out)
  }

  /** The arguments a member passes. */
  ghost predicate ArePassed(at: seq<nat>, ps: seq<MethodParam>) {
    Lists(at, set i | 0 <= i < |ps| && IsPassed(ps[i]))
  }

  /** The parameter is not the object itself or the type arguments. */
  predicate IsPassed(p: MethodParam) {
    p.slot != This && p.slot != Types
  }

  /** The parameter, which the caller gives a value for, and the argument at its place. */
  predicate Pairs(p: Param, a: MethodParam) {
    && !p.unsupported
    && (p.mode == Ref <==> a.byRef)
    && Implicitly(p.ty, TyOfParam(a))
    && (p.mode == Ref ==> ConvertsGiven(TyOfParam(a), p.ty, p.generic).Some?)
  }

  /** The parameters not passed out pair one by one with the arguments passed. */
  ghost predicate ArgumentsPair(member: Member, m: Method) {
    exists ins: seq<nat>, args: seq<nat> ::
      AreIns(ins, member.params) && ArePassed(args, m.params) && PairUp(member.params, ins, m.params, args)
  }

  predicate PairUp(params: seq<Param>, ins: seq<nat>, ps: seq<MethodParam>, args: seq<nat>) {
    |ins| == |args| && forall k | 0 <= k < |ins| ::
      ins[k] < |params| && args[k] < |ps| && Pairs(params[ins[k]], ps[args[k]])
  }

  /** A value the call gives reaches a place of that type. */
  predicate Reaches(r: MethodRet, ty: Ty, generic: bool) {
    ConvertsGiven(TyOfRet(r), ty, generic).Some?
  }

  /** `bool M(.., out V v)` and a method returning one `Option<V>`. */
  ghost predicate IsTry(member: Member, m: Method, out: nat) {
    && member.result.name == Bool && !member.result.nullable
    && m.retParts.None? && m.ret.Some? && m.ret.value.optional
    && AreOuts([out], member.params)
  }

  /** The value of the Option, which is no object's, reaches the out parameter. */
  predicate TryReaches(member: Member, m: Method, out: nat) {
    out < |member.params| && m.ret.Some? && m.ret.value.clr != Object
    && Reaches(m.ret.value.(optional := false), member.params[out].ty, member.params[out].generic)
  }

  /** The call gives the result, when there is one, and a value for each out parameter. */
  ghost predicate ValuesReach(member: Member, m: Method) {
    exists outs: seq<nat> :: AreOuts(outs, member.params) && GivenReach(member, Parts(m), outs)
  }

  predicate GivenReach(member: Member, given: seq<MethodRet>, outs: seq<nat>) {
    var first := if member.result.name == Void then 0 else 1;
    && |given| == first + |outs|
    && (first == 1 ==> Reaches(given[0], member.result, member.resultGeneric))
    && forall k | 0 <= k < |outs| ::
         outs[k] < |member.params|
         && Reaches(given[first + k], member.params[outs[k]].ty, member.params[outs[k]].generic)
  }

  ghost predicate GivesFit(member: Member, m: Method) {
    && (forall out: nat :: IsTry(member, m, out) ==> TryReaches(member, m, out))
    && ((forall out: nat :: !IsTry(member, m, out)) ==> ValuesReach(member, m))
  }

  /** What a member asks that no argument or value answers: a slot a class can fill, type
      arguments on both sides or neither, and types some Rust type stands for. */
  ghost predicate CanBeBacked(m: Method, member: Member, interface: bool) {
    && CanOverride(member.slot, interface)
    && (member.typeParams == [] <==> forall i | 0 <= i < |m.params| :: m.params[i].slot != Types)
    && (forall i | 0 <= i < |member.typeParams| :: !member.typeParams[i].refStruct)
    && !member.resultRef && !member.resultUnsupported
    && (forall i | 0 <= i < |member.params| && member.params[i].mode == Out :: !member.params[i].unsupported)
  }

  // ----- listings -----

  lemma {:induction false} ListsIsUnique(a: seq<nat>, b: seq<nat>, all: set<nat>)
    requires Lists(a, all) && Lists(b, all)
    ensures a == b
    decreases |a|
  {
    if a == [] {
      NothingIsListed(b, all);
    } else {
      var last := a[|a| - 1];
      assert last in a && last in b;
      assert b[|b| - 1] in b && b[|b| - 1] in a;
      assert last == b[|b| - 1];
      ListsShorter(a, all);
      ListsShorter(b, all);
      ListsIsUnique(a[..|a| - 1], b[..|b| - 1], all - {last});
      assert a == a[..|a| - 1] + [last] && b == b[..|b| - 1] + [last];
    }
  }

  lemma {:induction false} NothingIsListed(b: seq<nat>, all: set<nat>)
    requires Lists([], all) && Lists(b, all)
    ensures b == []
  {
    var none: seq<nat> := [];
    FirstIsIn(b);
    assert forall i: nat :: i in none <==> i in all;
  }

  lemma {:induction false} FirstIsIn(b: seq<nat>)
    ensures b != [] ==> b[0] in b
  {}

  lemma {:induction false} ListsShorter(a: seq<nat>, all: set<nat>)
    requires Lists(a, all) && a != []
    ensures Lists(a[..|a| - 1], all - {a[|a| - 1]})
  {
    var init, last := a[..|a| - 1], a[|a| - 1];
    assert a == init + [last];
    assert last !in init by {
      assert forall k | 0 <= k < |init| :: init[k] == a[k] && a[k] < a[|a| - 1];
    }
    var rest := all - {last};
    forall i: nat ensures i in init <==> i in rest {
      assert i in a <==> i in init || i == last;
    }
    forall x, y | 0 <= x < y < |init| ensures init[x] < init[y] {
      assert init[x] == a[x] && init[y] == a[y];
    }
    assert Lists(init, rest);
  }

  lemma {:induction false} ListsAhead(i: nat, rest: seq<nat>, all: set<nat>)
    requires Lists(rest, all) && forall j | j in all :: i < j
    ensures Lists([i] + rest, {i} + all)
  {
    var at, more := [i] + rest, {i} + all;
    forall j: nat ensures j in at <==> j in more {
      assert j in at <==> j == i || j in rest;
    }
    forall x, y | 0 <= x < y < |at| ensures at[x] < at[y] {
      assert at[y] == rest[y - 1] && rest[y - 1] in rest;
      if x > 0 {
        assert at[x] == rest[x - 1];
      }
    }
    assert Lists(at, more);
  }

  ghost function InsFrom(params: seq<Param>, i: nat): set<nat> {
    set j | i <= j < |params| && params[j].mode != Out
  }

  lemma {:induction false} InIndexesAre(params: seq<Param>, i: nat)
    requires i <= |params|
    ensures Lists(InIndexes(params, i), InsFrom(params, i))
    decreases |params| - i
  {
    if i < |params| {
      InIndexesAre(params, i + 1);
      if params[i].mode != Out {
        ListsAhead(i, InIndexes(params, i + 1), InsFrom(params, i + 1));
        assert InsFrom(params, i) == {i} + InsFrom(params, i + 1);
      } else {
        assert InsFrom(params, i) == InsFrom(params, i + 1);
      }
    }
  }

  function PassedAt(ps: seq<MethodParam>, i: nat): (at: seq<nat>)
    requires i <= |ps|
    ensures forall k | 0 <= k < |at| :: i <= at[k] < |ps|
    decreases |ps| - i
  {
    if i == |ps| then [] else (if IsPassed(ps[i]) then [i] else []) + PassedAt(ps, i + 1)
  }

  ghost function PassedFrom(ps: seq<MethodParam>, i: nat): set<nat> {
    set j | i <= j < |ps| && IsPassed(ps[j])
  }

  lemma {:induction false} PassedAtAre(ps: seq<MethodParam>, i: nat)
    requires i <= |ps|
    ensures Lists(PassedAt(ps, i), PassedFrom(ps, i))
    decreases |ps| - i
  {
    if i < |ps| {
      PassedAtAre(ps, i + 1);
      if IsPassed(ps[i]) {
        ListsAhead(i, PassedAt(ps, i + 1), PassedFrom(ps, i + 1));
        assert PassedFrom(ps, i) == {i} + PassedFrom(ps, i + 1);
      } else {
        assert PassedFrom(ps, i) == PassedFrom(ps, i + 1);
      }
    }
  }

  lemma {:induction false} RustArgsArePassed(ps: seq<MethodParam>, i: nat)
    requires i <= |ps|
    ensures |RustArgs(ps[i..])| == |PassedAt(ps, i)|
    ensures forall k | 0 <= k < |PassedAt(ps, i)| ::
              RustArgs(ps[i..])[k] == RustArg(TyOfParam(ps[PassedAt(ps, i)[k]]), ps[PassedAt(ps, i)[k]].byRef)
    decreases |ps| - i
  {
    if i < |ps| {
      RustArgsArePassed(ps, i + 1);
      assert ps[i..][0] == ps[i] && ps[i..][1..] == ps[i + 1..];
      var rest, more := PassedAt(ps, i + 1), RustArgs(ps[i + 1..]);
      if IsPassed(ps[i]) {
        assert PassedAt(ps, i) == [i] + rest && RustArgs(ps[i..]) == [RustArg(TyOfParam(ps[i]), ps[i].byRef)] + more;
      } else {
        assert PassedAt(ps, i) == rest && RustArgs(ps[i..]) == more;
      }
    }
  }

  // ----- arguments -----

  lemma {:induction false} ArgFitsWhen(p: Param, a: MethodParam)
    ensures ArgFits(p, RustArg(TyOfParam(a), a.byRef)).None? <==> Pairs(p, a)
  {}

  lemma {:induction false} ArgsFitWhen(params: seq<Param>, ps: seq<MethodParam>)
    ensures ArgsFitOf(params, InIndexes(params, 0), RustArgs(ps)).None? <==>
            PairUp(params, InIndexes(params, 0), ps, PassedAt(ps, 0))
  {
    var ins, args, rust := InIndexes(params, 0), PassedAt(ps, 0), RustArgs(ps);
    assert ps[0..] == ps;
    RustArgsArePassed(ps, 0);
    if |ins| == |rust| {
      FirstMisfitIs(params, ins, rust);
      forall k | 0 <= k < |ins| ensures ArgFits(params[ins[k]], rust[k]).None? <==> Pairs(params[ins[k]], ps[args[k]]) {
        ArgFitsWhen(params[ins[k]], ps[args[k]]);
      }
    }
  }

  lemma {:induction false} ArgumentsPairWhen(member: Member, m: Method)
    ensures ArgsFitOf(member.params, InIndexes(member.params, 0), RustArgs(m.params)).None? <==>
        ArgumentsPair(member, m)
  {
    var ins, args := InIndexes(member.params, 0), PassedAt(m.params, 0);
    ArgsFitWhen(member.params, m.params);
    InIndexesAre(member.params, 0);
    PassedAtAre(m.params, 0);
    assert AreIns(ins, member.params) && ArePassed(args, m.params) by {
      assert (set i | 0 <= i < |member.params| && member.params[i].mode != Out) == InsFrom(member.params, 0);
      assert (set i | 0 <= i < |m.params| && IsPassed(m.params[i])) == PassedFrom(m.params, 0);
    }
    forall i1: seq<nat>, a1: seq<nat> | AreIns(i1, member.params) && ArePassed(a1, m.params)
      ensures i1 == ins && a1 == args
    {
      ListsIsUnique(i1, ins, set i | 0 <= i < |member.params| && member.params[i].mode != Out);
      ListsIsUnique(a1, args, set i | 0 <= i < |m.params| && IsPassed(m.params[i]));
    }
  }

  // ----- values -----

  lemma {:induction false} OutsAre(member: Member)
    ensures AreOuts(IndexesOf(member.params, Out, 0), member.params)
    ensures forall outs: seq<nat> :: AreOuts(outs, member.params) ==> outs == IndexesOf(member.params, Out, 0)
  {
    IndexesAreAll(member.params, Out, 0);
    forall outs: seq<nat> | AreOuts(outs, member.params) ensures outs == IndexesOf(member.params, Out, 0) {
      ListsIsUnique(outs, IndexesOf(member.params, Out, 0),
        set i | 0 <= i < |member.params| && member.params[i].mode == Out);
    }
  }

  lemma {:induction false} OutWritesWhen(params: seq<Param>, at: seq<nat>, given: seq<MethodRet>, part: nat)
    requires part + |at| <= |given| && forall k | 0 <= k < |at| :: at[k] < |params|
    ensures OutWrites(params, at, given, part).Ok? <==>
            forall k | 0 <= k < |at| :: Reaches(given[part + k], params[at[k]].ty, params[at[k]].generic)
    decreases |at|
  {
    if at != [] {
      OutWritesWhen(params, at[1..], given, part + 1);
      forall k | 0 < k < |at|
        ensures Reaches(given[part + k], params[at[k]].ty, params[at[k]].generic) <==>
                Reaches(given[part + 1 + (k - 1)], params[at[1..][k - 1]].ty, params[at[1..][k - 1]].generic)
      {
        assert at[k] == at[1..][k - 1] && part + k == part + 1 + (k - 1);
      }
    }
  }

  lemma {:induction false} TriesWhen(member: Member, m: Method)
    ensures Tries(member, m) <==> exists out: nat :: IsTry(member, m, out)
    ensures Tries(member, m) ==> IsTry(member, m, IndexesOf(member.params, Out, 0)[0])
  {
    OutsAre(member);
    var outs := IndexesOf(member.params, Out, 0);
    if Tries(member, m) {
      assert outs == [outs[0]];
      assert IsTry(member, m, outs[0]);
    }
    if out: nat :| IsTry(member, m, out) {
      assert AreOuts([out], member.params);
      assert outs == [out];
      OneOptional(m);
    }
  }

  lemma {:induction false} OneOptional(m: Method)
    requires m.retParts.None? && m.ret.Some?
    ensures Parts(m) == [m.ret.value]
  {}

  lemma {:induction false} TryGivesWhen(member: Member, m: Method)
    requires Tries(member, m)
    ensures TryGives(member, m).Ok? <==> TryReaches(member, m, IndexesOf(member.params, Out, 0)[0])
  {}

  lemma {:induction false} PlainGivesWhen(member: Member, m: Method)
    requires !Tries(member, m)
    ensures MethodGivesOf(member, m).Ok? <==> GivenReach(member, Parts(m), IndexesOf(member.params, Out, 0))
  {
    var outs, given := IndexesOf(member.params, Out, 0), Parts(m);
    var first := if member.result.name == Void then 0 else 1;
    if |given| == first + |outs| {
      OutWritesWhen(member.params, outs, given, first);
      PlainGivesAre(member, m, outs, given, first);
    }
  }

  lemma {:induction false} PlainGivesAre(member: Member, m: Method, outs: seq<nat>, given: seq<MethodRet>, first: nat)
    requires !Tries(member, m) && outs == IndexesOf(member.params, Out, 0) && given == Parts(m)
    requires first == (if member.result.name == Void then 0 else 1) && |given| == first + |outs|
    ensures MethodGivesOf(member, m).Ok? <==>
            (first == 1 ==> Reaches(given[0], member.result, member.resultGeneric))
            && OutWrites(member.params, outs, given, first).Ok?
  {}

  lemma {:induction false} GivesFitWhen(member: Member, m: Method)
    ensures MethodGivesOf(member, m).Ok? <==> GivesFit(member, m)
  {
    TriesWhen(member, m);
    OutsAre(member);
    if Tries(member, m) {
      TryGivesWhen(member, m);
      forall out: nat | IsTry(member, m, out) ensures out == IndexesOf(member.params, Out, 0)[0] {
        assert [out] == IndexesOf(member.params, Out, 0);
      }
    } else {
      PlainGivesWhen(member, m);
    }
  }

  /** A method fits a method member exactly when a class can give the member at all, each
      parameter not passed out pairs with the argument at its place, and the values the
      call gives reach the result and the out parameters, or the try pattern's one. */
  lemma {:induction false} MethodFitsExactlyWhen(m: Method, member: Member, interface: bool)
    ensures FitMethod(m, member, interface).Ok? <==>
            CanBeBacked(m, member, interface) && ArgumentsPair(member, m) && GivesFit(member, m)
  {
    ArgumentsPairWhen(member, m);
    GivesFitWhen(member, m);
    BackableWhen(m, member, interface);
  }

  /** A method fits a candidate exactly as the method it is, or as one of the accessors
      of the property it is: an interface's candidate as an interface's. */
  lemma {:induction false} CandidateFitsExactlyWhen(m: Method, cand: Candidate)
    ensures FitOf(m, cand).Ok? <==>
            var member, interface := cand.member, cand.interface.Some?;
            || (member.kind.AMethod? && CanBeBacked(m, member, interface)
                && ArgumentsPair(member, m) && GivesFit(member, m))
            || (member.kind.AProperty? && (SetterFits(m, member, interface) || GetterFitsSomehow(m, member, interface)))
  {
    var member, interface := cand.member, cand.interface.Some?;
    match member.kind
    case AMethod => MethodFitsExactlyWhen(m, member, interface);
    case AProperty => PropertyFitsWhen(m, member, interface);
    case _ =>
  }

  ghost predicate GetterFitsSomehow(m: Method, member: Member, interface: bool) {
    exists how :: GetterFits(m, member, interface, how)
  }

  lemma {:induction false} PropertyFitsWhen(m: Method, member: Member, interface: bool)
    ensures FitProperty(m, member, interface).Ok? <==>
            SetterFits(m, member, interface) || GetterFitsSomehow(m, member, interface)
  {
    if FitProperty(m, member, interface).Ok? {
      PropertyFitsExactlyWhen(m, member, interface, FitProperty(m, member, interface).value);
    }
    if SetterFits(m, member, interface) {
      PropertyFitsExactlyWhen(m, member, interface, Fitted(TheSetter, None, NOTHING));
    }
    if how :| GetterFits(m, member, interface, how) {
      PropertyFitsExactlyWhen(m, member, interface, Fitted(TheGetter, Some(how), NOTHING));
    }
  }

  lemma {:induction false} BackableWhen(m: Method, member: Member, interface: bool)
    ensures FitMethod(m, member, interface).Ok? <==>
            && CanBeBacked(m, member, interface)
            && ArgsFitOf(member.params, InIndexes(member.params, 0), RustArgs(m.params)).None?
            && MethodGivesOf(member, m).Ok?
  {
    OverridableWhen(member.slot, interface);
  }

  lemma {:induction false} OverridableWhen(slot: Slot, interface: bool)
    ensures Overridable(slot, interface).Ok? <==> CanOverride(slot, interface)
  {}

  // ----- what an argument takes and what a value reaches -----

  /** The value types known by name: `nint`, `nuint` and `decimal` are not among them. */
  const VALUE_NAMES: set<TypeName> :=
    {Bool, Other("SwitchParameter"), Num(SByte), Num(Short), Num(Int), Num(Long), Num(Byte), Num(UShort), Num(UInt),
     Num(ULong), Num(Float), Num(Double), Num(Char)}

  predicate IsValue(clr: TypeName, valueType: bool) {
    valueType || clr in VALUE_NAMES
  }

  /** An optional string, which is declared an object. */
  predicate IsOptionalText(a: MethodParam) {
    a.slot == Str16 && a.optional
  }

  lemma {:induction false} ValuesAre(clr: TypeName, valueType: bool)
    ensures IsReferenceType(clr, valueType) <==> !IsValue(clr, valueType)
  {}

  /** An argument takes a parameter's values exactly when it has the parameter's type,
      that of a wider number or object, and is optional where they can be null. */
  lemma {:induction false} ArgumentTakesExactlyWhen(from: Ty, a: MethodParam)
    ensures Implicitly(from, TyOfParam(a)) <==>
            var nullable := IsValue(a.clr, a.valueType) && a.optional;
            if IsOptionalText(a) then from.name == Object ==> !from.nullable
            else if from.name == a.clr || Widens(from.name, a.clr) then from.nullable ==> nullable
            else a.clr == Object && !nullable
  {
    ValuesAre(a.clr, a.valueType);
    WidensToItself(from.name);
  }

  lemma {:induction false} WidensToItself(n: TypeName)
    ensures !Widens(n, n) && !Widens(n, Object)
  {}

  /** A value reaches a place exactly when it has the place's type, that of a narrower
      number or any where an object is, and is not null where the place is not; or when it
      is an object and the place a reference. Only an object reaches a type parameter. */
  lemma {:induction false} ValueReachesExactlyWhen(r: MethodRet, ty: Ty, generic: bool)
    ensures Reaches(r, ty, generic) <==>
            var nullable := IsValue(r.clr, r.valueType) && r.optional;
            if generic then r.clr == Object && !nullable
            else if r.clr == ty.name then nullable ==> ty.nullable
            else
              || (ty.name == Object && !ty.nullable)
              || (Widens(r.clr, ty.name) && (nullable ==> ty.nullable))
              || (r.clr == Object && !ty.value)
  {
    ValuesAre(r.clr, r.valueType);
  }
}
