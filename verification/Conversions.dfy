/** How a value of one C# type reaches a place of another: `conv` and `conv_given`
    of crates/cargo-pwrs/src/bases.rs. */
module Conversions {
  import opened Results

  /** The numeric types C# widens between, by their keywords. */
  datatype Number =
    | SByte | Byte | Short | UShort | Int | UInt | Long | ULong | NInt | NUInt
    | Char | Float | Double | Decimal

  /** A type's name as matching compares it: one of the numbers, `object`, `bool`,
      `void`, or any other name. */
  datatype TypeName = Num(n: Number) | Object | Bool | Void | Other(name: string)

  /** A C# type: for the nullable `T?` of a value type the name is `T`'s. */
  datatype Ty = Ty(name: TypeName, value: bool, nullable: bool)

  datatype Conv = Same | Implicit | FromObject | Generic

  /** The types a number converts to with no cast. */
  function Wider(from: Number): set<Number> {
    match from
    case SByte => {Short, Int, Long, Float, Double, Decimal, NInt}
    case Byte => {Short, UShort, Int, UInt, Long, ULong, Float, Double, Decimal, NInt, NUInt}
    case Short => {Int, Long, Float, Double, Decimal, NInt}
    case UShort => {Int, UInt, Long, ULong, Float, Double, Decimal, NInt, NUInt}
    case Int => {Long, Float, Double, Decimal, NInt}
    case UInt => {Long, ULong, Float, Double, Decimal, NUInt}
    case Long => {Float, Double, Decimal}
    case ULong => {Float, Double, Decimal}
    case NInt => {Float, Double, Decimal}
    case NUInt => {ULong, Float, Double, Decimal}
    case Char => {UShort, Int, UInt, Long, ULong, Float, Double, Decimal, NInt, NUInt}
    case Float => {Double}
    case Double => {}
    case Decimal => {}
  }

  predicate Widens(from: TypeName, to: TypeName) {
    from.Num? && to.Num? && to.n in Wider(from.n)
  }

  function Converts(from: Ty, to: Ty): Option<Conv> {
    if from.name == to.name then
      if from.nullable && !to.nullable then None
      else if !from.nullable && to.nullable then Some(Implicit)
      else Some(Same)
    else if to.name == Object && !to.nullable then Some(Implicit)
    else if Widens(from.name, to.name) && (!from.nullable || to.nullable) then Some(Implicit)
    else if from.name == Object && !to.value then Some(FromObject)
    else None
  }

  /** How a value Rust gives reaches a type that `generic` says names a type
      parameter of the member: only an object does. */
  function ConvertsGiven(from: Ty, to: Ty, generic: bool): Option<Conv> {
    if generic then
      if from.name == Object && !from.nullable then Some(Generic) else None
    else Converts(from, to)
  }

  /** With no conversion made when the call runs. */
  predicate Implicitly(from: Ty, to: Ty) {
    Converts(from, to) == Some(Same) || Converts(from, to) == Some(Implicit)
  }

  /** No number widens to itself, and what a number widens to twice it widens to. */
  lemma {:induction false} WideningComposes(a: Number, b: Number, c: Number)
    requires b in Wider(a) && c in Wider(b)
    ensures c in Wider(a) && a != c
  {}

  /** Implicit conversions compose, except through `object`: anything becomes an
      object, and an object becomes the `object?` that no other type becomes. */
  lemma {:induction false} ImplicitComposes(a: Ty, b: Ty, c: Ty)
    requires Implicitly(a, b) && Implicitly(b, c)
    ensures Implicitly(a, c) <==> !(a.name != Object && b.name == Object && c.name == Object && c.nullable)
  {
    if a.name.Num? && b.name.Num? && c.name.Num? && Widens(a.name, b.name) && Widens(b.name, c.name) {
      WideningComposes(a.name.n, b.name.n, c.name.n);
    }
  }

  // ----- what the table of numbers says -----

  datatype Range = Range(low: int, high: int)

  predicate IsInteger(n: Number) {
    n != Float && n != Double && n != Decimal
  }

  function Signed(bits: nat): Range
    requires bits == 8 || bits == 16 || bits == 32 || bits == 64
  {
    var half :=
      if bits == 8 then 0x80 else if bits == 16 then 0x8000 else if bits == 32 then 0x8000_0000
      else 0x8000_0000_0000_0000;
    Range(-half, half - 1)
  }

  function Unsigned(bits: nat): Range
    requires bits == 8 || bits == 16 || bits == 32 || bits == 64
  {
    Range(0, Signed(bits).high - Signed(bits).low)
  }

  /** The values an integer type has where a native one takes `native` bits. */
  function RangeOf(n: Number, native: nat): Range
    requires IsInteger(n) && (native == 32 || native == 64)
  {
    match n
    case SByte => Signed(8)
    case Short => Signed(16)
    case Int => Signed(32)
    case Long => Signed(64)
    case NInt => Signed(native)
    case Byte => Unsigned(8)
    case UShort => Unsigned(16)
    case Char => Unsigned(16)
    case UInt => Unsigned(32)
    case ULong => Unsigned(64)
    case NUInt => Unsigned(native)
  }

  predicate Contains(wide: Range, narrow: Range) {
    wide.low <= narrow.low && narrow.high <= wide.high
  }

  /** Every value of the one is a value of the other, on 32-bit and 64-bit platforms
      alike, whichever each is compiled for. */
  predicate HoldsAll(from: Number, to: Number) {
    if IsInteger(from) && IsInteger(to) then Contains(RangeOf(to, 32), RangeOf(from, 64))
    else IsInteger(from) || (from == Float && to == Double)
  }

  /** A number widens exactly to the others that hold all its values, but for two things:
      nothing widens to a char, as C# has it, and an `nint` does not widen to a `long`,
      which C# would let it. */
  lemma {:induction false} WidensExactlyToWhatHoldsIt(from: Number, to: Number)
    ensures to in Wider(from) <==> from != to && to != Char && !(from == NInt && to == Long) && HoldsAll(from, to)
  {
    match from
    case SByte => SignedWidens(from, to);
    case Short => SignedWidens(from, to);
    case Int => SignedWidens(from, to);
    case Long => SignedWidens(from, to);
    case NInt => SignedWidens(from, to);
    case Float =>
    case Double =>
    case Decimal =>
    case _ => UnsignedWidens(from, to);
  }

  lemma {:induction false} SignedWidens(from: Number, to: Number)
    requires from == SByte || from == Short || from == Int || from == Long || from == NInt
    ensures to in Wider(from) <==> from != to && to != Char && !(from == NInt && to == Long) && HoldsAll(from, to)
  {}

  lemma {:induction false} UnsignedWidens(from: Number, to: Number)
    requires from == Byte || from == UShort || from == Char || from == UInt || from == ULong || from == NUInt
    ensures to in Wider(from) <==> from != to && to != Char && HoldsAll(from, to)
  {}

  /** A value reaches a place with no conversion at the call exactly when the names are
      one, the place is an object or the number widens, and a null there can be stays. */
  lemma {:induction false} ImplicitExactlyWhen(from: Ty, to: Ty)
    ensures Implicitly(from, to) <==>
            && (from.name == to.name || (to.name == Object && !to.nullable) || Widens(from.name, to.name))
            && (from.nullable ==> to.nullable || (to.name == Object && from.name != Object))
  {
    WideningIsOfNumbers(from.name, to.name);
  }

  lemma {:induction false} WideningIsOfNumbers(from: TypeName, to: TypeName)
    ensures Widens(from, to) ==> from.Num? && to.Num? && from != to
  {
    if Widens(from, to) {
      WidensExactlyToWhatHoldsIt(from.n, to.n);
    }
  }

  /** Only an object is converted when the call runs, and only to another reference type. */
  lemma {:induction false} ConvertedAtTheCallExactlyWhen(from: Ty, to: Ty)
    ensures Converts(from, to) == Some(FromObject) <==> from.name == Object && to.name != Object && !to.value
  {}
}
