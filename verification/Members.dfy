/** The members of .NET types and the methods of Rust classes, as
    crates/cargo-pwrs/src/members.rs and descriptor.rs describe them. */
module Members {
  import opened Results
  import opened Conversions

  /** How a parameter is passed. */
  datatype Mode = ByValue | In | Ref | Out

  datatype Param = Param(ty: Ty, unsupported: bool, generic: bool, mode: Mode)

  datatype TypeParam = TypeParam(name: string, constrained: bool, refStruct: bool)

  datatype Slot = Abstract | Virtual | Default | Sealed | Static | StaticAbstract | NoSlot

  datatype Access = Public | Protected

  datatype Accessor = Accessor(access: Access, slot: Slot)

  datatype Kind = AMethod | AProperty | AnEvent | AnotherKind

  /** `result` is `void` for a method returning nothing. */
  datatype Member = Member(
    kind: Kind,
    name: string,
    from: string,
    slot: Slot,
    typeParams: seq<TypeParam>,
    params: seq<Param>,
    result: Ty,
    resultUnsupported: bool,
    resultGeneric: bool,
    resultRef: bool,
    ty: Ty,
    typeUnsupported: bool,
    getter: Option<Accessor>,
    setter: Option<Accessor>)

  /** The slots of an argument that matching tells apart. */
  datatype ArgSlot = This | Types | Str16 | AnotherSlot

  datatype MethodParam = MethodParam(slot: ArgSlot, clr: TypeName, valueType: bool, optional: bool, byRef: bool)

  datatype MethodRet = MethodRet(clr: TypeName, valueType: bool, optional: bool)

  /** `member` is what the method's `#[member]` names, when it has that mark. */
  datatype Method = Method(index: nat, member: Option<string>, params: seq<MethodParam>, ret: Option<MethodRet>,
    retParts: Option<seq<MethodRet>>)

  /** A member a method may back, and the interface it is of, when it is one's. */
  datatype Candidate = Candidate(member: Member, interface: Option<string>)

  predicate IsReferenceType(clr: TypeName, valueType: bool) {
    !valueType && clr != Bool && clr != Other("SwitchParameter")
    && !(clr.Num? && clr.n != NInt && clr.n != NUInt && clr.n != Decimal)
  }

  /** An optional string is declared `object`. */
  function TyOfParam(p: MethodParam): Ty {
    if p.slot == Str16 && p.optional then Ty(Object, false, false)
    else
      var value := !IsReferenceType(p.clr, p.valueType);
      Ty(p.clr, value, value && p.optional)
  }

  function TyOfRet(r: MethodRet): Ty {
    var value := !IsReferenceType(r.clr, r.valueType);
    Ty(r.clr, value, value && r.optional)
  }

  /** The values a call gives before the `&mut` arguments' values. */
  function Parts(m: Method): seq<MethodRet> {
    if m.retParts.Some? then m.retParts.value else if m.ret.Some? then [m.ret.value] else []
  }

  function ByRefParams(ps: seq<MethodParam>): seq<MethodParam> {
    if ps == [] then [] else (if ps[0].byRef then [ps[0]] else []) + ByRefParams(ps[1..])
  }

  /** Whether the call returns one array of its parts and its `&mut` arguments. */
  predicate Packed(m: Method) {
    m.retParts.Some? || exists i | 0 <= i < |m.params| :: m.params[i].byRef
  }

  function AsRet(p: MethodParam): MethodRet {
    MethodRet(p.clr, p.valueType, p.optional)
  }

  function AsRets(ps: seq<MethodParam>): (rs: seq<MethodRet>)
    ensures |rs| == |ps| && forall i | 0 <= i < |ps| :: rs[i] == AsRet(ps[i])
  {
    if ps == [] then [] else [AsRet(ps[0])] + AsRets(ps[1..])
  }

  /** The values a call gives: its parts, then each `&mut` argument's. */
  function GivenTypes(m: Method): seq<MethodRet> {
    Parts(m) + AsRets(ByRefParams(m.params))
  }
}
