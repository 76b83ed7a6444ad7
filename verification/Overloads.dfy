/** Which constructor arguments choose: `choose_constructor` in
    crates/cargo-pwrs/src/bases.rs for a base's, and the choice in `render` in
    crates/cargo-pwrs/src/passthrough.rs for an attribute's. */
module Overloads {
  import opened Results
  import opened Conversions
  import opened Members

  // ----- sequences by what is in them -----

  function Filter<T>(s: seq<T>, p: T -> bool): seq<T> {
    if s == [] then []
    else Filter(s[..|s| - 1], p) + if p(s[|s| - 1]) then [s[|s| - 1]] else []
  }

  lemma {:induction false} FilterCounts<T>(s: seq<T>, p: T -> bool, x: T)
    ensures multiset(Filter(s, p))[x] == if p(x) then multiset(s)[x] else 0
  {
    if s != [] {
      FilterCounts(s[..|s| - 1], p, x);
      assert s == s[..|s| - 1] + [s[|s| - 1]];
    }
  }

  lemma {:induction false} FilterHas<T>(s: seq<T>, p: T -> bool)
    ensures forall x :: x in Filter(s, p) <==> x in s && p(x)
  {
    forall x ensures x in Filter(s, p) <==> x in s && p(x) {
      FilterCounts(s, p, x);
      assert x in multiset(s) <==> x in s;
      assert x in multiset(Filter(s, p)) <==> x in Filter(s, p);
    }
  }

  lemma {:induction false} FilterPermuted<T>(s: seq<T>, t: seq<T>, p: T -> bool)
    requires multiset(s) == multiset(t)
    ensures multiset(Filter(s, p)) == multiset(Filter(t, p))
    ensures |Filter(s, p)| == |Filter(t, p)|
    ensures |Filter(s, p)| == 1 ==> Filter(s, p) == Filter(t, p)
  {
    var a, b := multiset(Filter(s, p)), multiset(Filter(t, p));
    forall x: T ensures a[x] == b[x] {
      FilterCounts(s, p, x);
      FilterCounts(t, p, x);
    }
    SameCounts(a, b);
    SameIfOne(Filter(s, p), Filter(t, p));
  }

  lemma {:induction false} SameCounts<T>(a: multiset<T>, b: multiset<T>)
    requires forall x: T :: a[x] == b[x]
    ensures a == b
  {
    assert forall x :: x !in a - b && x !in b - a;
    assert a - b == multiset{} && b - a == multiset{};
    assert a == a * b + (a - b) && b == a * b + (b - a);
  }

  lemma {:induction false} SameIfOne<T>(a: seq<T>, b: seq<T>)
    requires multiset(a) == multiset(b)
    ensures |a| == |b|
    ensures |a| == 1 ==> a == b
  {
    assert |multiset(a)| == |a| && |multiset(b)| == |b|;
    if |a| == 1 {
      assert b[0] in multiset(b);
      assert b[0] in multiset(a);
    }
  }

  /** `p` holds at `i` alone. */
  ghost predicate OnlyAt<T>(s: seq<T>, p: T -> bool, i: nat) {
    i < |s| && p(s[i]) && forall j | 0 <= j < |s| && j != i :: !p(s[j])
  }

  lemma {:induction false} FilterNone<T>(s: seq<T>, p: T -> bool)
    ensures Filter(s, p) == [] <==> forall j | 0 <= j < |s| :: !p(s[j])
  {
    if s != [] {
      FilterNone(s[..|s| - 1], p);
    }
  }

  lemma {:induction false} FilterOne<T>(s: seq<T>, p: T -> bool, i: nat)
    requires OnlyAt(s, p, i)
    ensures Filter(s, p) == [s[i]]
  {
    var init := s[..|s| - 1];
    if i == |s| - 1 {
      FilterNone(init, p);
    } else {
      assert OnlyAt(init, p, i);
      FilterOne(init, p, i);
    }
  }

  lemma {:induction false} FilterOneIsAt<T>(s: seq<T>, p: T -> bool) returns (i: nat)
    requires |Filter(s, p)| == 1
    ensures OnlyAt(s, p, i) && Filter(s, p) == [s[i]]
  {
    var init := s[..|s| - 1];
    if p(s[|s| - 1]) {
      i := |s| - 1;
      FilterNone(init, p);
    } else {
      i := FilterOneIsAt(init, p);
    }
  }

  // ----- a base's constructors -----

  datatype Ctor = Ctor(params: seq<Param>)

  /** A constructor and how each value reaches its parameter. */
  datatype Chosen = Chosen(ctor: Ctor, convs: seq<Conv>)

  /** Two refusals of a choice. */
  datatype NoChoice = NoneFits | SeveralFit

  predicate Takes(ctor: Ctor, given: seq<Ty>) {
    && |ctor.params| == |given|
    && (forall i | 0 <= i < |given| :: ctor.params[i].mode == ByValue && !ctor.params[i].unsupported)
    && (forall i | 0 <= i < |given| :: Converts(given[i], ctor.params[i].ty).Some?)
  }

  predicate TakesExactly(ctor: Ctor, given: seq<Ty>) {
    Takes(ctor, given) && forall i | 0 <= i < |given| :: Converts(given[i], ctor.params[i].ty) == Some(Same)
  }

  function ConvsTo(ctor: Ctor, given: seq<Ty>): (convs: seq<Conv>)
    requires Takes(ctor, given)
    ensures |convs| == |given| && forall i | 0 <= i < |given| :: Some(convs[i]) == Converts(given[i], ctor.params[i].ty)
  {
    seq(|given|, i requires 0 <= i < |given| => Converts(given[i], ctor.params[i].ty).value)
  }

  function FittingOf(ctors: seq<Ctor>, given: seq<Ty>): seq<Ctor> {
    Filter(ctors, ctor => Takes(ctor, given))
  }

  function ExactOf(ctors: seq<Ctor>, given: seq<Ty>): seq<Ctor> {
    Filter(ctors, ctor => TakesExactly(ctor, given))
  }

  function ChoiceOf(ctors: seq<Ctor>, given: seq<Ty>): Result<Ctor, NoChoice> {
    var fitting, exact := FittingOf(ctors, given), ExactOf(ctors, given);
    if |exact| == 1 then Ok(exact[0])
    else if |exact| == 0 && |fitting| == 1 then Ok(fitting[0])
    else Err(if fitting == [] then NoneFits else SeveralFit)
  }

  method ConvsFor(ctor: Ctor, given: seq<Ty>) returns (convs: Option<seq<Conv>>)
    ensures convs.Some? <==> Takes(ctor, given)
    ensures convs.Some? ==> convs.value == ConvsTo(ctor, given)
  {
    if |ctor.params| != |given| {
      return None;
    }
    for i := 0 to |given|
      invariant forall k | 0 <= k < i :: ctor.params[k].mode == ByValue && !ctor.params[k].unsupported
    {
      if ctor.params[i].mode != ByValue || ctor.params[i].unsupported {
        return None;
      }
    }
    var out: seq<Conv> := [];
    for i := 0 to |given|
      invariant |out| == i && forall k | 0 <= k < i :: Some(out[k]) == Converts(given[k], ctor.params[k].ty)
    {
      var c := Converts(given[i], ctor.params[i].ty);
      if c.None? {
        return None;
      }
      out := out + [c.value];
    }
    return Some(out);
  }

  /** Each constructor `ctors` names, with how the values reach it. */
  ghost predicate Pairs(fits: seq<Chosen>, ctors: seq<Ctor>, given: seq<Ty>) {
    |fits| == |ctors| && forall i | 0 <= i < |fits| ::
      fits[i].ctor == ctors[i] && Takes(ctors[i], given) && fits[i].convs == ConvsTo(ctors[i], given)
  }

  method FittingWith(ctors: seq<Ctor>, given: seq<Ty>) returns (fitting: seq<Chosen>)
    ensures Pairs(fitting, FittingOf(ctors, given), given)
  {
    fitting := [];
    for i := 0 to |ctors|
      invariant Pairs(fitting, FittingOf(ctors[..i], given), given)
    {
      assert ctors[..i + 1][..i] == ctors[..i];
      var convs := ConvsFor(ctors[i], given);
      if convs.Some? {
        fitting := fitting + [Chosen(ctors[i], convs.value)];
      }
    }
    assert ctors[..|ctors|] == ctors;
  }

  lemma {:induction false} ExactWithinFitting(ctors: seq<Ctor>, given: seq<Ty>)
    ensures ExactOf(ctors, given) == ExactOf(FittingOf(ctors, given), given)
  {
    FilterTwice(ctors, ctor => Takes(ctor, given), ctor => TakesExactly(ctor, given),
      ctor => TakesExactly(ctor, given));
  }

  method ExactIndices(fitting: seq<Chosen>, ghost ctors: seq<Ctor>, ghost given: seq<Ty>) returns (exact: seq<nat>)
    requires Pairs(fitting, ctors, given)
    ensures |exact| == |ExactOf(ctors, given)|
    ensures forall k | 0 <= k < |exact| :: exact[k] < |fitting| && ctors[exact[k]] == ExactOf(ctors, given)[k]
  {
    exact := [];
    for i := 0 to |fitting|
      invariant |exact| == |ExactOf(ctors[..i], given)|
      invariant forall k | 0 <= k < |exact| :: exact[k] < |fitting| && ctors[exact[k]] == ExactOf(ctors[..i], given)[k]
    {
      assert ctors[..i + 1][..i] == ctors[..i];
      assert fitting[i].ctor == ctors[i];
      if forall k | 0 <= k < |fitting[i].convs| :: fitting[i].convs[k] == Same {
        exact := exact + [i];
      }
    }
    assert ctors[..|fitting|] == ctors;
  }

  method ChooseConstructor(ctors: seq<Ctor>, given: seq<Ty>) returns (r: Result<Chosen, NoChoice>)
    ensures match ChoiceOf(ctors, given)
            case Ok(ctor) => Takes(ctor, given) && r == Ok(Chosen(ctor, ConvsTo(ctor, given)))
            case Err(e) => r == Err(e)
  {
    var fitting := FittingWith(ctors, given);
    ghost var named := FittingOf(ctors, given);
    ExactWithinFitting(ctors, given);
    var exact := ExactIndices(fitting, named, given);
    if |exact| == 1 {
      return Ok(fitting[exact[0]]);
    } else if |exact| == 0 && |fitting| == 1 {
      return Ok(fitting[0]);
    }
    return Err(if fitting == [] then NoneFits else SeveralFit);
  }

  /** The choice is the sole constructor taking every value as it is, or, when none
      does, the sole one taking them at all; and there is no other choice. */
  lemma {:induction false} ChoiceIsTheSoleFit(ctors: seq<Ctor>, given: seq<Ty>, ctor: Ctor)
    ensures ChoiceOf(ctors, given) == Ok(ctor) <==>
            exists i: nat | i < |ctors| && ctors[i] == ctor ::
              || OnlyAt(ctors, c => TakesExactly(c, given), i)
              || (OnlyAt(ctors, c => Takes(c, given), i) && forall k | 0 <= k < |ctors| ::
                !TakesExactly(ctors[k], given))
  {
    var takes, exactly := c => Takes(c, given), c => TakesExactly(c, given);
    FilterNone(ctors, exactly);
    if |ExactOf(ctors, given)| == 1 {
      var i := FilterOneIsAt(ctors, exactly);
    } else if |ExactOf(ctors, given)| == 0 && |FittingOf(ctors, given)| == 1 {
      var i := FilterOneIsAt(ctors, takes);
    }
    forall i: nat | OnlyAt(ctors, exactly, i) ensures ExactOf(ctors, given) == [ctors[i]] {
      FilterOne(ctors, exactly, i);
    }
    forall i: nat | OnlyAt(ctors, takes, i) ensures FittingOf(ctors, given) == [ctors[i]] {
      FilterOne(ctors, takes, i);
    }
  }

  lemma {:induction false} ChoiceIgnoresOrder(ctors: seq<Ctor>, permuted: seq<Ctor>, given: seq<Ty>)
    requires multiset(ctors) == multiset(permuted)
    ensures ChoiceOf(ctors, given) == ChoiceOf(permuted, given)
  {
    FilterPermuted(ctors, permuted, ctor => Takes(ctor, given));
    FilterPermuted(ctors, permuted, ctor => TakesExactly(ctor, given));
  }

  // ----- an attribute's constructors -----

  /** A value an attribute is given. */
  datatype Passed =
    | Text(value: string)
    | Integer(text: string)
    | Float(text: string)
    | Boolean(on: bool)
    | Character(value: string)
    | Nothing
    | Many(items: seq<Passed>)

  /** `spread` marks a params array; the type is C#'s name of it. */
  datatype AttributeParam = AttributeParam(ty: string, spread: bool)

  datatype AttributeCtor = AttributeCtor(isPublic: bool, params: seq<AttributeParam>)

  /** Writes a value as C# of a type; None when the type does not take it, and an
      error when no type would. */
  type Convert = (Passed, string) -> Result<Option<string>, string>

  datatype NoArguments = Unwritable(why: string) | NotChosen(reason: NoChoice)

  const GLOBAL: string := "global::"
  const OBJECT: string := "object"
  const SYSTEM_OBJECT: string := "System.Object"

  function WithoutGlobal(ty: string): string {
    if |ty| >= |GLOBAL| && |GLOBAL| > 0 && ty[..|GLOBAL|] == GLOBAL then WithoutGlobal(ty[|GLOBAL|..]) else ty
  }

  predicate IsObject(ty: string) {
    WithoutGlobal(ty) == OBJECT || WithoutGlobal(ty) == SYSTEM_OBJECT
  }

  /** The type without the brackets of an array, however many it has. */
  function Element(ty: string): string {
    if |ty| >= 2 && ty[|ty| - 2] == '[' && ty[|ty| - 1] == ']' then Element(ty[..|ty| - 2]) else ty
  }

  /** Whether the arguments past the others each fill one place of a params array. */
  predicate Spreads(ctor: AttributeCtor, n: nat) {
    ctor.params != [] && ctor.params[|ctor.params| - 1].spread && n != |ctor.params|
  }

  predicate HasShape(ctor: AttributeCtor, n: nat) {
    if Spreads(ctor, n) then n + 1 >= |ctor.params| else n == |ctor.params|
  }

  /** The type each of `n` arguments is written as. */
  function TypeAt(ctor: AttributeCtor, n: nat, i: nat): string
    requires HasShape(ctor, n) && i < n
  {
    if !Spreads(ctor, n) || i < |ctor.params| - 1 then ctor.params[i].ty
    else Element(ctor.params[|ctor.params| - 1].ty)
  }

  /** The arguments from `i` on as C#, up to the first its type does not take. */
  function Written(ctor: AttributeCtor, args: seq<Passed>, convert: Convert, i: nat): Result<seq<string>, string>
    requires HasShape(ctor, |args|) && i <= |args|
    decreases |args| - i
  {
    if i == |args| then Ok([])
    else
      match convert(args[i], TypeAt(ctor, |args|, i))
      case Err(e) => Err(e)
      case Ok(None) => Ok([])
      case Ok(Some(text)) =>
        match Written(ctor, args, convert, i + 1)
        case Err(e) => Err(e)
        case Ok(rest) => Ok([text] + rest)
  }

  /** A constructor's public, shaped for the arguments and met by a value no type takes. */
  predicate Stops(ctor: AttributeCtor, args: seq<Passed>, convert: Convert) {
    ctor.isPublic && HasShape(ctor, |args|) && Written(ctor, args, convert, 0).Err?
  }

  predicate Fits(ctor: AttributeCtor, args: seq<Passed>, convert: Convert) {
    && ctor.isPublic && HasShape(ctor, |args|)
    && Written(ctor, args, convert, 0).Ok? && |Written(ctor, args, convert, 0).value| == |args|
  }

  /** How many of the parameters take object. */
  function ObjectParams(params: seq<AttributeParam>): nat {
    if params == [] then 0 else ObjectParams(params[..|params| - 1]) + if IsObject(params[|params| - 1].ty) then 1
      else 0
  }

  function Objects(ctor: AttributeCtor, n: nat): nat {
    ObjectParams(ctor.params) + if Spreads(ctor, n) then 1 else 0
  }

  predicate Least(ctor: AttributeCtor, among: multiset<AttributeCtor>, n: nat) {
    forall other | other in among :: Objects(ctor, n) <= Objects(other, n)
  }

  function FitsOf(ctors: seq<AttributeCtor>, args: seq<Passed>, convert: Convert): seq<AttributeCtor> {
    Filter(ctors, ctor => Fits(ctor, args, convert))
  }

  function LeastOf(ctors: seq<AttributeCtor>, n: nat): seq<AttributeCtor> {
    var among := multiset(ctors);
    Filter(ctors, ctor => Least(ctor, among, n))
  }

  /** The constructor chosen, where no value stops the choice. */
  function BestOf(ctors: seq<AttributeCtor>, args: seq<Passed>, convert: Convert): Result<AttributeCtor, NoChoice> {
    var best := LeastOf(FitsOf(ctors, args, convert), |args|);
    if |best| == 1 then Ok(best[0]) else Err(if best == [] then NoneFits else SeveralFit)
  }

  /** One constructor that fits: how many of its parameters take object or spread a
      params array, and its arguments as C#. */
  datatype Fitted = Fitted(objects: nat, texts: seq<string>)

  function AfterTexts(texts: seq<string>, rest: Result<seq<string>, string>): Result<seq<string>, string> {
    if rest.Ok? then Ok(texts + rest.value) else rest
  }

  method WriteArguments(
      ctor: AttributeCtor, args: seq<Passed>, convert: Convert) returns (r: Result<seq<string>, string>)
    requires HasShape(ctor, |args|)
    ensures r == Written(ctor, args, convert, 0)
  {
    var texts: seq<string> := [];
    NoTextsBefore(Written(ctor, args, convert, 0));
    for i := 0 to |args|
      invariant Written(ctor, args, convert, 0) == AfterTexts(texts, Written(ctor, args, convert, i))
    {
      var text := convert(args[i], TypeAt(ctor, |args|, i));
      if text.Err? {
        return Err(text.error);
      }
      if text.value.None? {
        assert texts + [] == texts;
        return Ok(texts);
      }
      OneTextMore(texts, text.value.value, Written(ctor, args, convert, i + 1));
      texts := texts + [text.value.value];
    }
    assert texts + [] == texts;
    return Ok(texts);
  }

  lemma {:induction false} NoTextsBefore(rest: Result<seq<string>, string>)
    ensures AfterTexts([], rest) == rest
  {
    if rest.Ok? {
      assert [] + rest.value == rest.value;
    }
  }

  lemma {:induction false} OneTextMore(texts: seq<string>, text: string, rest: Result<seq<string>, string>)
    ensures AfterTexts(texts, if rest.Ok? then Ok([text] + rest.value) else rest) == AfterTexts(texts + [text], rest)
  {
    if rest.Ok? {
      assert texts + ([text] + rest.value) == texts + [text] + rest.value;
    }
  }

  ghost predicate FittedAs(fits: seq<Fitted>, ctors: seq<AttributeCtor>, args: seq<Passed>, convert: Convert) {
    |fits| == |ctors| && forall i | 0 <= i < |fits| ::
      && Fits(ctors[i], args, convert) && fits[i].objects == Objects(ctors[i], |args|)
      && Ok(fits[i].texts) == Written(ctors[i], args, convert, 0)
  }

  method FitAll(ctors: seq<AttributeCtor>, args: seq<Passed>, convert: Convert) returns (r: Result<seq<Fitted>, string>)
    ensures r.Ok? <==> forall i | 0 <= i < |ctors| :: !Stops(ctors[i], args, convert)
    ensures r.Ok? ==> FittedAs(r.value, FitsOf(ctors, args, convert), args, convert)
  {
    var fits: seq<Fitted> := [];
    for i := 0 to |ctors|
      invariant forall k | 0 <= k < i :: !Stops(ctors[k], args, convert)
      invariant FittedAs(fits, FitsOf(ctors[..i], args, convert), args, convert)
    {
      assert ctors[..i + 1][..i] == ctors[..i];
      var ctor := ctors[i];
      if ctor.isPublic && HasShape(ctor, |args|) {
        var texts := WriteArguments(ctor, args, convert);
        if texts.Err? {
          return Err(texts.error);
        }
        if |texts.value| == |args| {
          var objects := CountObjects(ctor, |args|);
          fits := fits + [Fitted(objects, texts.value)];
        }
      }
    }
    assert ctors[..|ctors|] == ctors;
    return Ok(fits);
  }

  method CountObjects(ctor: AttributeCtor, n: nat) returns (objects: nat)
    ensures objects == Objects(ctor, n)
  {
    objects := 0;
    for i := 0 to |ctor.params|
      invariant objects == ObjectParams(ctor.params[..i])
    {
      assert ctor.params[..i + 1][..i] == ctor.params[..i];
      objects := objects + if IsObject(ctor.params[i].ty) then 1 else 0;
    }
    assert ctor.params[..|ctor.params|] == ctor.params;
    objects := objects + if Spreads(ctor, n) then 1 else 0;
  }

  method LeastCount(fits: seq<Fitted>) returns (best: nat)
    requires fits != []
    ensures forall k | 0 <= k < |fits| :: best <= fits[k].objects
    ensures exists k | 0 <= k < |fits| :: best == fits[k].objects
  {
    best := fits[0].objects;
    for i := 1 to |fits|
      invariant forall k | 0 <= k < i :: best <= fits[k].objects
      invariant exists k | 0 <= k < i :: best == fits[k].objects
    {
      if fits[i].objects < best {
        best := fits[i].objects;
      }
    }
  }

  /** Those of the least count, in order. */
  method Fewest(
      fits: seq<Fitted>, ghost ctors: seq<AttributeCtor>, ghost args: seq<Passed>, ghost convert: Convert)
    returns (chosen: seq<Fitted>)
    requires FittedAs(fits, ctors, args, convert)
    ensures FittedAs(chosen, LeastOf(ctors, |args|), args, convert)
  {
    if fits == [] {
      return [];
    }
    var best := LeastCount(fits);
    chosen := WithCount(fits, ctors, args, convert, best);
    ghost var among := multiset(ctors);
    assert forall i | 0 <= i < |ctors| :: Least(ctors[i], among, |args|) <==> Objects(ctors[i], |args|) == best;
    FilterSame(ctors, ctor => Least(ctor, among, |args|), ctor => Objects(ctor, |args|) == best);
  }

  lemma {:induction false} FilterSame<T>(s: seq<T>, p: T -> bool, q: T -> bool)
    requires forall i | 0 <= i < |s| :: p(s[i]) == q(s[i])
    ensures Filter(s, p) == Filter(s, q)
  {
    if s != [] {
      FilterSame(s[..|s| - 1], p, q);
    }
  }

  method WithCount(
      fits: seq<Fitted>, ghost ctors: seq<AttributeCtor>, ghost args: seq<Passed>, ghost convert: Convert, best: nat)
    returns (chosen: seq<Fitted>)
    requires FittedAs(fits, ctors, args, convert)
    ensures FittedAs(chosen, Filter(ctors, ctor => Objects(ctor, |args|) == best), args, convert)
  {
    ghost var least := ctor => Objects(ctor, |args|) == best;
    chosen := [];
    for i := 0 to |fits|
      invariant FittedAs(chosen, Filter(ctors[..i], least), args, convert)
    {
      assert ctors[..i + 1][..i] == ctors[..i];
      if fits[i].objects == best {
        chosen := chosen + [fits[i]];
      }
    }
    assert ctors[..|ctors|] == ctors;
  }

  predicate Stopped(r: Result<seq<string>, NoArguments>) {
    r.Err? && r.error.Unwritable?
  }

  /** The arguments of the best constructor, or why there is none. */
  predicate Best(r: Result<seq<string>, NoArguments>, ctors: seq<AttributeCtor>, args: seq<Passed>, convert: Convert) {
    var best := BestOf(ctors, args, convert);
    if best.Ok? then Fits(best.value, args, convert) && r == Ok(Written(best.value, args, convert, 0).value)
    else r == Err(NotChosen(best.error))
  }

  method ChooseArguments(
      ctors: seq<AttributeCtor>, args: seq<Passed>, convert: Convert) returns (r: Result<seq<string>, NoArguments>)
    ensures Stopped(r) <==> exists i :: 0 <= i < |ctors| && Stops(ctors[i], args, convert)
    ensures !Stopped(r) ==> Best(r, ctors, args, convert)
  {
    var fits := FitAll(ctors, args, convert);
    if fits.Err? {
      return Err(Unwritable(fits.error));
    }
    var chosen := Fewest(fits.value, FitsOf(ctors, args, convert), args, convert);
    if |chosen| == 1 {
      return Ok(chosen[0].texts);
    }
    return Err(NotChosen(if chosen == [] then NoneFits else SeveralFit));
  }

  /** What fits is taken argument by argument, each as the type its place gives it. */
  lemma {:induction false} FitIsArgumentByArgument(ctor: AttributeCtor, args: seq<Passed>, convert: Convert, i: nat)
    requires HasShape(ctor, |args|) && i <= |args|
    ensures Written(ctor, args, convert, i).Ok? && |Written(ctor, args, convert, i).value| == |args| - i <==>
            forall k | i <= k < |args| ::
              convert(args[k], TypeAt(ctor, |args|, k)).Ok? && convert(args[k], TypeAt(ctor, |args|, k)).value.Some?
    ensures Written(ctor, args, convert, i).Ok? && |Written(ctor, args, convert, i).value| == |args| - i ==>
            forall k | i <= k < |args| ::
              convert(args[k], TypeAt(ctor, |args|, k)) == Ok(Some(Written(ctor, args, convert, i).value[k - i]))
    decreases |args| - i
  {
    if i < |args| {
      FitIsArgumentByArgument(ctor, args, convert, i + 1);
    }
  }

  /** The constructor chosen fits, and every other that fits has more objects. */
  ghost predicate SoleLeast(ctors: seq<AttributeCtor>, args: seq<Passed>, convert: Convert, i: nat) {
    && i < |ctors| && Fits(ctors[i], args, convert)
    && forall j | 0 <= j < |ctors| && j != i && Fits(ctors[j], args, convert) ::
       Objects(ctors[j], |args|) > Objects(ctors[i], |args|)
  }

  lemma {:induction false} FilterTwice<T>(s: seq<T>, p: T -> bool, q: T -> bool, both: T -> bool)
    requires forall x :: both(x) <==> p(x) && q(x)
    ensures Filter(Filter(s, p), q) == Filter(s, both)
  {
    if s != [] {
      var init, last := s[..|s| - 1], s[|s| - 1];
      FilterTwice(init, p, q, both);
      var before := Filter(init, p);
      if p(last) {
        assert (before + [last])[..|before|] == before;
      } else {
        assert before + [] == before && Filter(init, both) + [] == Filter(init, both);
      }
    }
  }

  lemma {:induction false} BestIsTheSoleLeast(
      ctors: seq<AttributeCtor>, args: seq<Passed>, convert: Convert, ctor: AttributeCtor)
    ensures BestOf(ctors, args, convert) == Ok(ctor) <==>
        exists i: nat :: SoleLeast(ctors, args, convert, i) && ctors[i] == ctor
  {
    BestIsFiltered(ctors, args, convert);
    var among := multiset(FitsOf(ctors, args, convert));
    var best := c => Fits(c, args, convert) && Least(c, among, |args|);
    if |Filter(ctors, best)| == 1 {
      var i := FilterOneIsAt(ctors, best);
      OnlyLeast(ctors, args, convert, i);
    }
    forall i: nat | SoleLeast(ctors, args, convert, i) ensures Filter(ctors, best) == [ctors[i]] {
      OnlyLeast(ctors, args, convert, i);
      FilterOne(ctors, best, i);
    }
  }

  lemma {:induction false} BestIsFiltered(ctors: seq<AttributeCtor>, args: seq<Passed>, convert: Convert)
    ensures var among := multiset(FitsOf(ctors, args, convert));
            LeastOf(FitsOf(ctors, args, convert), |args|) ==
              Filter(ctors, c => Fits(c, args, convert) && Least(c, among, |args|))
  {
    var among := multiset(FitsOf(ctors, args, convert));
    FilterTwice(ctors, c => Fits(c, args, convert), c => Least(c, among, |args|), c => Fits(c, args, convert) &&
      Least(c, among, |args|));
  }

  lemma {:induction false} LeastAmongFits(
      ctors: seq<AttributeCtor>, args: seq<Passed>, convert: Convert, c: AttributeCtor)
    ensures Least(c, multiset(FitsOf(ctors, args, convert)), |args|) <==>
            forall j | 0 <= j < |ctors| && Fits(ctors[j], args, convert) ::
              Objects(c, |args|) <= Objects(ctors[j], |args|)
  {
    var fits := FitsOf(ctors, args, convert);
    FilterHas(ctors, c => Fits(c, args, convert));
    forall other ensures other in multiset(fits) <==> other in ctors && Fits(other, args, convert) {
      assert other in multiset(fits) <==> other in fits;
    }
    forall j | 0 <= j < |ctors| ensures ctors[j] in ctors {}
  }

  lemma {:induction false} OnlyLeast(ctors: seq<AttributeCtor>, args: seq<Passed>, convert: Convert, i: nat)
    requires i < |ctors|
    ensures var among := multiset(FitsOf(ctors, args, convert));
            OnlyAt(ctors, c => Fits(c, args, convert) && Least(c, among, |args|), i) <==>
              SoleLeast(ctors, args, convert, i)
  {
    var among := multiset(FitsOf(ctors, args, convert));
    var best := c => Fits(c, args, convert) && Least(c, among, |args|);
    forall j | 0 <= j < |ctors|
      ensures best(ctors[j]) <==>
          Fits(ctors[j], args, convert) && forall k | 0 <= k < |ctors| && Fits(ctors[k], args, convert) ::
            Objects(ctors[j], |args|) <= Objects(ctors[k], |args|)
    {
      LeastAmongFits(ctors, args, convert, ctors[j]);
    }
  }

  /** Neither the choice nor whether a value stops it depends on the order. */
  lemma {:induction false} BestIgnoresOrder(
      ctors: seq<AttributeCtor>, permuted: seq<AttributeCtor>, args: seq<Passed>, convert: Convert)
    requires multiset(ctors) == multiset(permuted)
    ensures BestOf(ctors, args, convert) == BestOf(permuted, args, convert)
    ensures (exists c :: c in ctors && Stops(c, args, convert)) <==>
        (exists c :: c in permuted && Stops(c, args, convert))
  {
    FilterPermuted(ctors, permuted, ctor => Fits(ctor, args, convert));
    var among := multiset(FitsOf(ctors, args, convert));
    FilterPermuted(FitsOf(ctors, args, convert), FitsOf(permuted, args, convert), ctor => Least(ctor, among, |args|));
    forall c: AttributeCtor ensures c in ctors <==> c in permuted {
      assert c in ctors <==> c in multiset(ctors);
      assert c in permuted <==> c in multiset(permuted);
    }
  }

  // ----- what the types' names say -----

  /** The type an array of arrays of `ty`, `n` deep, is named. */
  function ArrayOf(ty: string, n: nat): string {
    if n == 0 then ty else ArrayOf(ty, n - 1) + "[]"
  }

  predicate IsNoArray(ty: string) {
    !(|ty| >= 2 && ty[|ty| - 2] == '[' && ty[|ty| - 1] == ']')
  }

  lemma {:induction false} ElementOfArrays(ty: string, n: nat)
    requires IsNoArray(ty)
    ensures Element(ArrayOf(ty, n)) == ty
  {
    if n > 0 {
      var inner := ArrayOf(ty, n - 1);
      assert ArrayOf(ty, n)[..|inner|] == inner;
      ElementOfArrays(ty, n - 1);
    }
  }

  /** `global::` so many times before a name. */
  function Globally(name: string, n: nat): string {
    if n == 0 then name else "global::" + Globally(name, n - 1)
  }

  lemma {:induction false} WithoutGlobals(name: string, n: nat)
    requires name == OBJECT || name == SYSTEM_OBJECT
    ensures WithoutGlobal(Globally(name, n)) == name
  {
    assert GLOBAL[0] == 'g' && name[0] != 'g';
    if n > 0 {
      var rest := Globally(name, n - 1);
      assert (GLOBAL + rest)[..|GLOBAL|] == GLOBAL && (GLOBAL + rest)[|GLOBAL|..] == rest;
      WithoutGlobals(name, n - 1);
    } else if |name| >= |GLOBAL| {
      assert name[..|GLOBAL|][0] == name[0];
    }
  }

  lemma {:induction false} GlobalsOf(ty: string) returns (n: nat)
    ensures ty == Globally(WithoutGlobal(ty), n)
    decreases |ty|
  {
    if |ty| >= |GLOBAL| && |GLOBAL| > 0 && ty[..|GLOBAL|] == GLOBAL {
      var more := GlobalsOf(ty[|GLOBAL|..]);
      n := more + 1;
      assert ty == GLOBAL + ty[|GLOBAL|..];
    } else {
      n := 0;
    }
  }

  /** A type is object exactly when it is named so, or `System.Object`, however many
      times `global::` is before it. */
  lemma {:induction false} ObjectExactlyWhen(ty: string)
    ensures IsObject(ty) <==> exists n: nat :: ty == Globally("object", n) || ty == Globally("System.Object", n)
  {
    if IsObject(ty) {
      var n := GlobalsOf(ty);
    }
    if n: nat :| ty == Globally(OBJECT, n) || ty == Globally(SYSTEM_OBJECT, n) {
      if ty == Globally(OBJECT, n) {
        WithoutGlobals(OBJECT, n);
      } else {
        WithoutGlobals(SYSTEM_OBJECT, n);
      }
    }
  }

  /** The value is taken as the type. */
  predicate TakenAs(v: Passed, ty: string, convert: Convert) {
    convert(v, ty).Ok? && convert(v, ty).value.Some?
  }

  /** The last parameter is a params array of such elements, and the arguments are not as
      many as the parameters. */
  predicate SpreadsAs(ctor: AttributeCtor, n: nat, ty: string, depth: nat) {
    && ctor.params != [] && n != |ctor.params| && IsNoArray(ty)
    && ctor.params[|ctor.params| - 1].spread && ctor.params[|ctor.params| - 1].ty == ArrayOf(ty, depth)
  }

  /** A constructor with a params array fits other than so many arguments exactly when it
      is public, has an argument for each other parameter, which takes it as its type, and
      takes every further argument as the array's element. */
  lemma {:induction false} SpreadFitsExactlyWhen(
      ctor: AttributeCtor, args: seq<Passed>, convert: Convert, ty: string, depth: nat)
    requires SpreadsAs(ctor, |args|, ty, depth)
    ensures Fits(ctor, args, convert) <==>
            var fixed := |ctor.params| - 1;
            && ctor.isPublic && |args| >= fixed
            && (forall k | 0 <= k < fixed :: TakenAs(args[k], ctor.params[k].ty, convert))
            && (forall k | fixed <= k < |args| :: TakenAs(args[k], ty, convert))
  {
    ElementOfArrays(ty, depth);
    if HasShape(ctor, |args|) {
      FitIsArgumentByArgument(ctor, args, convert, 0);
    }
  }

  /** One with as many parameters as arguments fits exactly when it is public and each
      parameter takes its argument as its type. */
  lemma {:induction false} PlainFitsExactlyWhen(ctor: AttributeCtor, args: seq<Passed>, convert: Convert)
    requires |ctor.params| == |args|
    ensures Fits(ctor, args, convert) <==>
            ctor.isPublic && forall k | 0 <= k < |args| :: TakenAs(args[k], ctor.params[k].ty, convert)
  {
    FitIsArgumentByArgument(ctor, args, convert, 0);
  }

  lemma {:induction false} ObjectParamsAre(params: seq<AttributeParam>)
    ensures ObjectParams(params) == |set i | 0 <= i < |params| && IsObject(params[i].ty)|
  {
    if params != [] {
      var init, last := params[..|params| - 1], |params| - 1;
      var all := set i | 0 <= i < |params| && IsObject(params[i].ty);
      var before := set i | 0 <= i < |init| && IsObject(init[i].ty);
      ObjectParamsAre(init);
      assert all == before + if IsObject(params[last].ty) then {last} else {};
      assert last !in before;
    }
  }

  // ----- what a base's constructor takes -----

  /** A value reaches a parameter as it is, as a number or object it implicitly becomes,
      or as an object converted when the call runs. */
  predicate ReachesAs(given: Ty, ty: Ty) {
    if given.name == ty.name then given.nullable ==> ty.nullable
    else
      || (ty.name == Object && !ty.nullable)
      || (Widens(given.name, ty.name) && (given.nullable ==> ty.nullable))
      || (given.name == Object && !ty.value)
  }

  lemma {:induction false} TakesExactlyWhen(ctor: Ctor, given: seq<Ty>)
    ensures Takes(ctor, given) <==>
            && |ctor.params| == |given|
            && (forall p | p in ctor.params :: p.mode == ByValue && !p.unsupported)
            && (forall i | 0 <= i < |given| :: ReachesAs(given[i], ctor.params[i].ty))
    ensures TakesExactly(ctor, given) <==>
            && Takes(ctor, given)
            && forall i | 0 <= i < |given| ::
                 given[i].name == ctor.params[i].ty.name && given[i].nullable == ctor.params[i].ty.nullable
  {
    forall a: Ty, b: Ty
      ensures Converts(a, b).Some? <==> ReachesAs(a, b)
      ensures Converts(a, b) == Some(Same) <==> a.name == b.name && a.nullable == b.nullable
    {
      ReachesAsIs(a, b);
    }
  }

  lemma {:induction false} ReachesAsIs(a: Ty, b: Ty)
    ensures Converts(a, b).Some? <==> ReachesAs(a, b)
    ensures Converts(a, b) == Some(Same) <==> a.name == b.name && a.nullable == b.nullable
  {}

  /** There is no choice because nothing fits exactly when no constructor takes the
      values; and because several do exactly when some does and none is the choice. */
  lemma {:induction false} NoChoiceExactlyWhen(ctors: seq<Ctor>, given: seq<Ty>)
    ensures ChoiceOf(ctors, given) == Err(NoneFits) <==> forall ctor | ctor in ctors :: !Takes(ctor, given)
    ensures ChoiceOf(ctors, given) == Err(SeveralFit) <==>
            (exists ctor | ctor in ctors :: Takes(ctor, given)) && ChoiceOf(ctors, given).Err?
  {
    FilterHas(ctors, ctor => Takes(ctor, given));
    FilterHas(ctors, ctor => TakesExactly(ctor, given));
    var fitting, exact := FittingOf(ctors, given), ExactOf(ctors, given);
    if exact != [] {
      assert exact[0] in exact;
      assert exact[0] in fitting;
    }
    if fitting != [] {
      assert fitting[0] in fitting;
    }
  }

  /** A constructor ranks by how many of its parameters take object, one more when the
      arguments spread over its params array. */
  lemma {:induction false} ObjectsAre(ctor: AttributeCtor, n: nat)
    ensures Objects(ctor, n) ==
            |set i | 0 <= i < |ctor.params| && IsObject(ctor.params[i].ty)|
            + if ctor.params != [] && ctor.params[|ctor.params| - 1].spread && n != |ctor.params| then 1 else 0
  {
    ObjectParamsAre(ctor.params);
  }

  /** No arguments are written because none fit exactly when no constructor does. */
  lemma {:induction false} NoBestExactlyWhen(ctors: seq<AttributeCtor>, args: seq<Passed>, convert: Convert)
    ensures BestOf(ctors, args, convert) == Err(NoneFits) <==> forall ctor | ctor in ctors :: !Fits(ctor, args, convert)
  {
    var fits := FitsOf(ctors, args, convert);
    FilterHas(ctors, ctor => Fits(ctor, args, convert));
    if fits != [] {
      assert fits[0] in ctors && Fits(fits[0], args, convert);
      SomeIsLeast(fits, |args|);
    }
  }

  /** Of some constructors one has the fewest objects. */
  lemma {:induction false} SomeIsLeast(ctors: seq<AttributeCtor>, n: nat)
    requires ctors != []
    ensures LeastOf(ctors, n) != []
  {
    var least := LeastAmong(ctors, n);
    FilterHas(ctors, ctor => Least(ctor, multiset(ctors), n));
    assert least in LeastOf(ctors, n);
  }

  lemma {:induction false} LeastAmong(ctors: seq<AttributeCtor>, n: nat) returns (least: AttributeCtor)
    requires ctors != []
    ensures least in ctors && forall other | other in ctors :: Objects(least, n) <= Objects(other, n)
  {
    var init, last := ctors[..|ctors| - 1], ctors[|ctors| - 1];
    assert ctors == init + [last];
    if init == [] {
      least := last;
    } else {
      least := LeastAmong(init, n);
      if Objects(last, n) < Objects(least, n) {
        least := last;
      }
    }
  }
}
