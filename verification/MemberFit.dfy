/** Whether a Rust method fits a .NET member, and where each value its call gives
    goes: `fit` and what it calls in crates/cargo-pwrs/src/bases.rs. */
module MemberFit {
  import opened Results
  import opened Conversions
  import opened Members

  datatype Part = TheMethod | TheGetter | TheSetter

  /** One out or ref parameter the member writes: its index, the part its value is
      in and how that converts. */
  datatype Write = Write(param: nat, part: nat, how: Conv)

  datatype Gives = Gives(result: Option<(nat, Conv)>, writes: seq<Write>, tries: bool)

  const NOTHING := Gives(None, [], false)

  datatype Misfit =
    | IsStatic | IsSealed | NotVirtual
    | NeedsTypeArguments | TakesTypeArguments | AllowsRefStruct
    | ReturnsUnsupported | OutUnsupported
    | ArgumentCount | ArgumentUnsupported | NotByMut | ByMut | ArgumentDoesNotConvert | ArgumentDoesNotConvertBack
    | OptionOfObject | TryDoesNotConvert | GivenCount | ResultDoesNotConvert | OutDoesNotConvert
    | PackedProperty | PropertyUnsupported | NoGetter | NoSetter | PropertyDoesNotConvert | NeitherGetterNorSetter
    | NotBackable

  predicate IsBool(t: Ty) {
    t.name == Bool && !t.nullable
  }

  predicate ReturnsValue(member: Member) {
    member.result.name != Void
  }

  function Overridable(slot: Slot, interface: bool): Result<(), Misfit> {
    if interface && (slot.Abstract? || slot.Default?) then Ok(())
    else if !interface && (slot.Abstract? || slot.Virtual?) then Ok(())
    else if slot.Static? || slot.StaticAbstract? then Err(IsStatic)
    else if !interface && slot.Sealed? then Err(IsSealed)
    else Err(NotVirtual)
  }

  datatype RustArg = RustArg(ty: Ty, byRef: bool)

  /** The arguments a member passes: all but the object it runs on and its type arguments. */
  function RustArgs(ps: seq<MethodParam>): seq<RustArg> {
    if ps == [] then []
    else
      (if ps[0].slot != This && ps[0].slot != Types then [RustArg(TyOfParam(ps[0]), ps[0].byRef)] else [])
      + RustArgs(ps[1..])
  }

  /** The indexes, from `i` on, of the parameters passed as `mode`. */
  function IndexesOf(params: seq<Param>, mode: Mode, i: nat): (at: seq<nat>)
    requires i <= |params|
    ensures forall k | 0 <= k < |at| :: i <= at[k] < |params| && params[at[k]].mode == mode
    decreases |params| - i
  {
    if i == |params| then []
    else (if params[i].mode == mode then [i] else []) + IndexesOf(params, mode, i + 1)
  }

  /** The indexes of the parameters a caller gives a value for. */
  function InIndexes(params: seq<Param>, i: nat): (at: seq<nat>)
    requires i <= |params|
    ensures forall k | 0 <= k < |at| :: i <= at[k] < |params| && params[at[k]].mode != Out
    decreases |params| - i
  {
    if i == |params| then []
    else (if params[i].mode != Out then [i] else []) + InIndexes(params, i + 1)
  }

  // ----- the arguments -----

  /** What one parameter asks of the argument at its place. */
  function ArgFits(p: Param, r: RustArg): Option<Misfit> {
    if p.unsupported then Some(ArgumentUnsupported)
    else if p.mode.Ref? && !r.byRef then Some(NotByMut)
    else if !p.mode.Ref? && r.byRef then Some(ByMut)
    else if !Implicitly(p.ty, r.ty) then Some(ArgumentDoesNotConvert)
    else if r.byRef && ConvertsGiven(r.ty, p.ty, p.generic).None? then Some(ArgumentDoesNotConvertBack)
    else None
  }

  function FirstMisfit(params: seq<Param>, at: seq<nat>, rust: seq<RustArg>): Option<Misfit>
    requires |at| == |rust| && forall k | 0 <= k < |at| :: at[k] < |params|
  {
    if at == [] then None
    else
      match ArgFits(params[at[0]], rust[0])
      case Some(why) => Some(why)
      case None => FirstMisfit(params, at[1..], rust[1..])
  }

  function ArgsFitOf(params: seq<Param>, at: seq<nat>, rust: seq<RustArg>): Option<Misfit>
    requires forall k | 0 <= k < |at| :: at[k] < |params|
  {
    if |at| != |rust| then Some(ArgumentCount) else FirstMisfit(params, at, rust)
  }

  method ArgsFit(params: seq<Param>, at: seq<nat>, rust: seq<RustArg>) returns (r: Option<Misfit>)
    requires forall k | 0 <= k < |at| :: at[k] < |params|
    ensures r == ArgsFitOf(params, at, rust)
  {
    if |at| != |rust| {
      return Some(ArgumentCount);
    }
    assert at[0..] == at && rust[0..] == rust;
    for k := 0 to |at|
      invariant FirstMisfit(params, at, rust) == FirstMisfit(params, at[k..], rust[k..])
    {
      assert at[k..][1..] == at[k + 1..] && rust[k..][1..] == rust[k + 1..];
      var p, r := params[at[k]], rust[k];
      if p.unsupported {
        return Some(ArgumentUnsupported);
      }
      match (p.mode, r.byRef) {
        case (Ref, false) => return Some(NotByMut);
        case (Ref, true) =>
        case (_, true) => return Some(ByMut);
        case (_, false) =>
      }
      match Converts(p.ty, r.ty) {
        case Some(Same) =>
        case Some(Implicit) =>
        case _ => return Some(ArgumentDoesNotConvert);
      }
      if r.byRef && ConvertsGiven(r.ty, p.ty, p.generic).None? {
        return Some(ArgumentDoesNotConvertBack);
      }
    }
    return None;
  }

  // ----- what the call gives -----

  /** Where the out parameters `at` get their values: from `part` on, in order. */
  function OutWrites(params: seq<Param>, at: seq<nat>, given: seq<MethodRet>, part: nat): Result<seq<Write>, Misfit>
    requires part + |at| <= |given| && forall k | 0 <= k < |at| :: at[k] < |params|
    decreases |at|
  {
    if at == [] then Ok([])
    else
      var p := params[at[0]];
      match ConvertsGiven(TyOfRet(given[part]), p.ty, p.generic)
      case None => Err(OutDoesNotConvert)
      case Some(how) =>
        var more :- OutWrites(params, at[1..], given, part + 1);
        Ok([Write(at[0], part, how)] + more)
  }

  /** Whether the try pattern applies: bool M(.., out V v) backed by a method
      returning Option<V>. */
  predicate Tries(member: Member, m: Method) {
    IsBool(member.result) && |IndexesOf(member.params, Out, 0)| == 1
    && m.retParts.None? && |Parts(m)| == 1 && Parts(m)[0].optional
  }

  function NotNullable(t: Ty): Ty {
    t.(nullable := false)
  }

  function TryGives(member: Member, m: Method): Result<Gives, Misfit>
    requires Tries(member, m)
  {
    var at, given := IndexesOf(member.params, Out, 0)[0], Parts(m)[0];
    var out := member.params[at];
    if given.clr == Object then Err(OptionOfObject)
    else
      match ConvertsGiven(NotNullable(TyOfRet(given)), out.ty, out.generic)
      case Some(how) => Ok(Gives(None, [Write(at, 0, how)], true))
      case None => Err(TryDoesNotConvert)
  }

  function MethodGivesOf(member: Member, m: Method): Result<Gives, Misfit> {
    var outs, given := IndexesOf(member.params, Out, 0), Parts(m);
    if Tries(member, m) then TryGives(member, m)
    else if |given| != (if ReturnsValue(member) then 1 else 0) + |outs| then Err(GivenCount)
    else if !ReturnsValue(member) then
      var writes :- OutWrites(member.params, outs, given, 0);
      Ok(Gives(None, writes, false))
    else
      match ConvertsGiven(TyOfRet(given[0]), member.result, member.resultGeneric)
      case None => Err(ResultDoesNotConvert)
      case Some(how) =>
        var writes :- OutWrites(member.params, outs, given, 1);
        Ok(Gives(Some((0, how)), writes, false))
  }

  function Added(writes: seq<Write>, r: Result<seq<Write>, Misfit>): Result<seq<Write>, Misfit> {
    match r
    case Ok(more) => Ok(writes + more)
    case Err(why) => Err(why)
  }

  method MethodGives(member: Member, m: Method) returns (r: Result<Gives, Misfit>)
    ensures r == MethodGivesOf(member, m)
  {
    var outs := IndexesOf(member.params, Out, 0);
    var given := Parts(m);
    var returns_ := ReturnsValue(member);
    if returns_ && IsBool(member.result) && |outs| == 1 && m.retParts.None? && |given| == 1 && given[0].optional {
      r := TryGives(member, m);
      return;
    }
    var wanted := (if returns_ then 1 else 0) + |outs|;
    if |given| != wanted {
      return Err(GivenCount);
    }
    var result: Option<(nat, Conv)> := None;
    var first := 0;
    if returns_ {
      var how := ConvertsGiven(TyOfRet(given[0]), member.result, member.resultGeneric);
      if how.None? {
        return Err(ResultDoesNotConvert);
      }
      result := Some((0, how.value));
      first := 1;
    }
    var writes :- GiveOuts(member.params, outs, given, first);
    return Ok(Gives(result, writes, false));
  }

  /** The loop over the out parameters. */
  method GiveOuts(
      params: seq<Param>, outs: seq<nat>, given: seq<MethodRet>, first: nat) returns (r: Result<seq<Write>, Misfit>)
    requires first + |outs| <= |given| && forall k | 0 <= k < |outs| :: outs[k] < |params|
    ensures r == OutWrites(params, outs, given, first)
  {
    var writes: seq<Write> := [];
    assert outs[0..] == outs;
    AddedNothing(OutWrites(params, outs, given, first));
    for k := 0 to |outs|
      invariant OutWrites(params, outs, given, first) == Added(writes, OutWrites(params, outs[k..], given, first + k))
    {
      assert outs[k..][1..] == outs[k + 1..];
      var out := params[outs[k]];
      var how := ConvertsGiven(TyOfRet(given[first + k]), out.ty, out.generic);
      if how.None? {
        return Err(OutDoesNotConvert);
      }
      var write := Write(outs[k], first + k, how.value);
      AddedTwice(writes, [write], OutWrites(params, outs[k + 1..], given, first + k + 1));
      writes := writes + [write];
    }
    assert writes + [] == writes;
    return Ok(writes);
  }

  lemma {:induction false} AddedNothing(r: Result<seq<Write>, Misfit>)
    ensures Added([], r) == r
  {
    if r.Ok? {
      assert [] + r.value == r.value;
    }
  }

  lemma {:induction false} AddedTwice(a: seq<Write>, b: seq<Write>, r: Result<seq<Write>, Misfit>)
    ensures Added(a, Added(b, r)) == Added(a + b, r)
  {
    if r.Ok? {
      assert a + (b + r.value) == a + b + r.value;
    }
  }

  /** Where the ref parameters `at` get their values back: from `part` on, as the
      `&mut` arguments `backs` give them, each that converts. */
  function RefWritesOf(params: seq<Param>, at: seq<nat>, backs: seq<MethodParam>, part: nat): seq<Write>
    requires forall k | 0 <= k < |at| :: at[k] < |params|
    decreases |at|
  {
    if at == [] || backs == [] then []
    else
      var p := params[at[0]];
      var how := ConvertsGiven(TyOfParam(backs[0]), p.ty, p.generic);
      (if how.Some? then [Write(at[0], part, how.value)] else []) + RefWritesOf(params, at[1..], backs[1..], part + 1)
  }

  /** The loop over the ref parameters and the `&mut` arguments beside them. */
  method RefWrites(params: seq<Param>, refs: seq<nat>, backs: seq<MethodParam>, first: nat) returns (writes: seq<Write>)
    requires forall k | 0 <= k < |refs| :: refs[k] < |params|
    ensures writes == RefWritesOf(params, refs, backs, first)
  {
    writes := [];
    var n := if |refs| < |backs| then |refs| else |backs|;
    ghost var all := RefWritesOf(params, refs, backs, first);
    assert refs[0..] == refs && backs[0..] == backs;
    for k := 0 to n
      invariant all == writes + RefWritesOf(params, refs[k..], backs[k..], first + k)
    {
      assert refs[k..][1..] == refs[k + 1..] && backs[k..][1..] == backs[k + 1..];
      ghost var more := RefWritesOf(params, refs[k + 1..], backs[k + 1..], first + k + 1);
      var p := params[refs[k]];
      var how := ConvertsGiven(TyOfParam(backs[k]), p.ty, p.generic);
      if how.Some? {
        var write := Write(refs[k], first + k, how.value);
        assert writes + ([write] + more) == writes + [write] + more;
        writes := writes + [write];
      } else {
        assert [] + more == more;
      }
    }
  }

  // ----- the fit -----

  datatype Fitted = Fitted(part: Part, ret: Option<Conv>, gives: Gives)

  predicate TakesTypes(m: Method) {
    exists i | 0 <= i < |m.params| :: m.params[i].slot == Types
  }

  function FitMethod(m: Method, member: Member, interface: bool): Result<Fitted, Misfit> {
    var _ :- Overridable(member.slot, interface);
    if member.typeParams != [] && !TakesTypes(m) then Err(NeedsTypeArguments)
    else if member.typeParams == [] && TakesTypes(m) then Err(TakesTypeArguments)
    else if exists i | 0 <= i < |member.typeParams| :: member.typeParams[i].refStruct then Err(AllowsRefStruct)
    else if member.resultRef || member.resultUnsupported then Err(ReturnsUnsupported)
    else if exists i | 0 <= i < |member.params| ::
      member.params[i].mode == Out && member.params[i].unsupported then Err(OutUnsupported)
    else
      match ArgsFitOf(member.params, InIndexes(member.params, 0), RustArgs(m.params))
      case Some(why) => Err(why)
      case None =>
        var gives :- MethodGivesOf(member, m);
        var refs := RefWritesOf(member.params, IndexesOf(member.params, Ref, 0), ByRefParams(m.params), |Parts(m)|);
        Ok(Fitted(TheMethod, None, gives.(writes := gives.writes + refs)))
  }

  function AllIndexes(n: nat): (at: seq<nat>)
    ensures |at| == n && forall i | 0 <= i < n :: at[i] == i
  {
    if n == 0 then [] else AllIndexes(n - 1) + [n - 1]
  }

  function FitProperty(m: Method, member: Member, interface: bool): Result<Fitted, Misfit> {
    var rust, n := RustArgs(m.params), |member.params|;
    if Packed(m) then Err(PackedProperty)
    else if TakesTypes(m) then Err(TakesTypeArguments)
    else if member.typeUnsupported then Err(PropertyUnsupported)
    else if |rust| == n && m.ret.Some? then
      if member.getter.None? then Err(NoGetter)
      else
        var _ :- Overridable(member.getter.value.slot, interface);
        match ArgsFitOf(member.params, AllIndexes(n), rust)
        case Some(why) => Err(why)
        case None =>
          match Converts(TyOfRet(m.ret.value), member.ty)
          case Some(how) => Ok(Fitted(TheGetter, Some(how), NOTHING))
          case None => Err(PropertyDoesNotConvert)
    else if |rust| == n + 1 && m.ret.None? then
      if member.setter.None? then Err(NoSetter)
      else
        var _ :- Overridable(member.setter.value.slot, interface);
        match ArgsFitOf(member.params, AllIndexes(n), rust[..n])
        case Some(why) => Err(why)
        case None => if Implicitly(member.ty, rust[n].ty) then Ok(Fitted(TheSetter, None, NOTHING))
          else Err(PropertyDoesNotConvert)
    else Err(NeitherGetterNorSetter)
  }

  function FitOf(m: Method, cand: Candidate): Result<Fitted, Misfit> {
    match cand.member.kind
    case AMethod => FitMethod(m, cand.member, cand.interface.Some?)
    case AProperty => FitProperty(m, cand.member, cand.interface.Some?)
    case AnEvent => Err(NotBackable)
    case AnotherKind => Err(NotBackable)
  }

  method Fit(m: Method, cand: Candidate) returns (r: Result<Fitted, Misfit>)
    ensures r == FitOf(m, cand)
  {
    match cand.member.kind
    case AMethod => r := FitToMethod(m, cand.member, cand.interface.Some?);
    case AProperty => r := FitToProperty(m, cand.member, cand.interface.Some?);
    case AnEvent => r := Err(NotBackable);
    case AnotherKind => r := Err(NotBackable);
  }

  method FitToMethod(m: Method, member: Member, interface: bool) returns (r: Result<Fitted, Misfit>)
    ensures r == FitMethod(m, member, interface)
  {
    var _ :- Overridable(member.slot, interface);
    var takes := TakesTypes(m);
    if member.typeParams != [] && !takes {
      return Err(NeedsTypeArguments);
    }
    if member.typeParams == [] && takes {
      return Err(TakesTypeArguments);
    }
    if exists i | 0 <= i < |member.typeParams| :: member.typeParams[i].refStruct {
      return Err(AllowsRefStruct);
    }
    if member.resultRef || member.resultUnsupported {
      return Err(ReturnsUnsupported);
    }
    if exists i | 0 <= i < |member.params| :: member.params[i].mode == Out && member.params[i].unsupported {
      return Err(OutUnsupported);
    }
    var why := ArgsFit(member.params, InIndexes(member.params, 0), RustArgs(m.params));
    if why.Some? {
      return Err(why.value);
    }
    var gives :- MethodGives(member, m);
    var refs := RefWrites(member.params, IndexesOf(member.params, Ref, 0), ByRefParams(m.params), |Parts(m)|);
    return Ok(Fitted(TheMethod, None, gives.(writes := gives.writes + refs)));
  }

  method FitToProperty(m: Method, member: Member, interface: bool) returns (r: Result<Fitted, Misfit>)
    ensures r == FitProperty(m, member, interface)
  {
    if Packed(m) {
      return Err(PackedProperty);
    }
    if TakesTypes(m) {
      return Err(TakesTypeArguments);
    }
    if member.typeUnsupported {
      return Err(PropertyUnsupported);
    }
    var rust, n := RustArgs(m.params), |member.params|;
    if |rust| == n && m.ret.Some? {
      if member.getter.None? {
        return Err(NoGetter);
      }
      var _ :- Overridable(member.getter.value.slot, interface);
      var why := ArgsFit(member.params, AllIndexes(n), rust);
      if why.Some? {
        return Err(why.value);
      }
      var how := Converts(TyOfRet(m.ret.value), member.ty);
      return if how.Some? then Ok(Fitted(TheGetter, how, NOTHING)) else Err(PropertyDoesNotConvert);
    }
    if |rust| == n + 1 && m.ret.None? {
      if member.setter.None? {
        return Err(NoSetter);
      }
      var _ :- Overridable(member.setter.value.slot, interface);
      var why := ArgsFit(member.params, AllIndexes(n), rust[..n]);
      if why.Some? {
        return Err(why.value);
      }
      match Converts(member.ty, rust[n].ty) {
        case Some(Same) => return Ok(Fitted(TheSetter, None, NOTHING));
        case Some(Implicit) => return Ok(Fitted(TheSetter, None, NOTHING));
        case _ => return Err(PropertyDoesNotConvert);
      }
    }
    return Err(NeitherGetterNorSetter);
  }

  // ----- what a property's fit means -----

  /** A class may give its own accessor: an abstract one, a virtual one of its base or
      one an interface has by default. */
  predicate CanOverride(slot: Slot, interface: bool) {
    slot.Abstract? || (if interface then slot.Default? else slot.Virtual?)
  }

  /** Each index parameter has its argument, which its value becomes implicitly. */
  predicate TakesIndexes(params: seq<Param>, rust: seq<RustArg>) {
    |params| <= |rust| && forall i | 0 <= i < |params| ::
      !params[i].unsupported && params[i].mode != Ref && Implicitly(params[i].ty, rust[i].ty)
  }

  /** The call gives one value or none, and takes no type arguments, for a property
      whose type some Rust type stands for. */
  predicate MayBack(m: Method, member: Member) {
    !Packed(m) && !TakesTypes(m) && !member.typeUnsupported
  }

  /** The method takes the indexes and returns what the property's type takes. */
  predicate GetterFits(m: Method, member: Member, interface: bool, how: Conv) {
    && MayBack(m, member)
    && member.getter.Some? && CanOverride(member.getter.value.slot, interface)
    && |RustArgs(m.params)| == |member.params| && TakesIndexes(member.params, RustArgs(m.params))
    && m.ret.Some? && Converts(TyOfRet(m.ret.value), member.ty) == Some(how)
  }

  /** The method takes the indexes and the value, with no conversion when the call runs,
      and returns nothing. */
  predicate SetterFits(m: Method, member: Member, interface: bool) {
    && MayBack(m, member)
    && member.setter.Some? && CanOverride(member.setter.value.slot, interface)
    && |RustArgs(m.params)| == |member.params| + 1 && TakesIndexes(member.params, RustArgs(m.params))
    && m.ret.None? && Implicitly(member.ty, RustArgs(m.params)[|member.params|].ty)
  }

  lemma {:induction false} FirstMisfitIs(params: seq<Param>, at: seq<nat>, rust: seq<RustArg>)
    requires |at| == |rust| && forall k | 0 <= k < |at| :: at[k] < |params|
    ensures FirstMisfit(params, at, rust).None? <==> forall k | 0 <= k < |at| :: ArgFits(params[at[k]], rust[k]).None?
  {
    if at != [] {
      FirstMisfitIs(params, at[1..], rust[1..]);
      assert forall k | 1 <= k < |at| :: at[k] == at[1..][k - 1] && rust[k] == rust[1..][k - 1];
    }
  }

  lemma {:induction false} NoneByRef(ps: seq<MethodParam>)
    requires forall i | 0 <= i < |ps| :: !ps[i].byRef
    ensures forall i | 0 <= i < |RustArgs(ps)| :: !RustArgs(ps)[i].byRef
  {
    if ps != [] {
      NoneByRef(ps[1..]);
    }
  }

  lemma {:induction false} IndexesFitWhen(params: seq<Param>, rust: seq<RustArg>)
    requires |rust| == |params| && forall i | 0 <= i < |rust| :: !rust[i].byRef
    ensures ArgsFitOf(params, AllIndexes(|params|), rust).None? <==> TakesIndexes(params, rust)
  {
    var at := AllIndexes(|params|);
    FirstMisfitIs(params, at, rust);
    forall i | 0 <= i < |params|
      ensures ArgFits(params[at[i]], rust[i]).None? <==>
          !params[i].unsupported && params[i].mode != Ref && Implicitly(params[i].ty, rust[i].ty)
    {
      assert at[i] == i;
    }
  }

  lemma {:induction false} TakesFewerIndexes(params: seq<Param>, rust: seq<RustArg>)
    requires |rust| == |params| + 1
    ensures TakesIndexes(params, rust) <==> TakesIndexes(params, rust[..|params|])
  {}

  /** A method fits a property exactly as its getter or as its setter: the accessor can
      be overridden, every index converts implicitly, the value converts the way it
      goes, and the call packs nothing. */
  lemma {:induction false} PropertyFitsExactlyWhen(m: Method, member: Member, interface: bool, fitted: Fitted)
    ensures FitProperty(m, member, interface) == Ok(fitted) <==>
            || (fitted == Fitted(TheSetter, None, NOTHING) && SetterFits(m, member, interface))
            || (fitted.ret.Some? && fitted == Fitted(TheGetter, fitted.ret, NOTHING) &&
              GetterFits(m, member, interface, fitted.ret.value))
  {
    var rust, n := RustArgs(m.params), |member.params|;
    if MayBack(m, member) {
      NoneByRef(m.params);
      if |rust| == n {
        IndexesFitWhen(member.params, rust);
      } else if |rust| == n + 1 {
        IndexesFitWhen(member.params, rust[..n]);
        TakesFewerIndexes(member.params, rust);
      }
    }
  }
}
