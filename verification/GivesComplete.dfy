/** What it means that a method fits a method member: every value its call gives has
    one place in the member, and every place the member must fill has one value. */
module GivesComplete {
  import opened Results
  import opened Conversions
  import opened Members
  import opened MemberFit

  /** The parts `gives` uses, the result's first and then the writes' in order. */
  function Used(gives: Gives): seq<nat> {
    (if gives.result.Some? then [gives.result.value.0] else []) + PartsOf(gives.writes)
  }

  function PartsOf(writes: seq<Write>): (ks: seq<nat>)
    ensures |ks| == |writes| && forall i | 0 <= i < |ks| :: ks[i] == writes[i].part
  {
    if writes == [] then [] else [writes[0].part] + PartsOf(writes[1..])
  }

  /** The parameters `gives` writes, in order. */
  function Written(writes: seq<Write>): (js: seq<nat>)
    ensures |js| == |writes| && forall i | 0 <= i < |js| :: js[i] == writes[i].param
  {
    if writes == [] then [] else [writes[0].param] + Written(writes[1..])
  }

  /** A `&mut` argument that a member does not pass: the object itself or the type arguments. */
  predicate HidesByRef(ps: seq<MethodParam>) {
    exists i | 0 <= i < |ps| :: ps[i].byRef && (ps[i].slot == This || ps[i].slot == Types)
  }

  /** The type matching gives value `k` of the call. */
  function GivenTy(m: Method, k: nat): Ty
    requires k < |GivenTypes(m)|
  {
    if k < |Parts(m)| then TyOfRet(Parts(m)[k]) else TyOfParam(ByRefParams(m.params)[k - |Parts(m)|])
  }

  // ----- indexes -----

  lemma {:induction false} IndexesAreAll(params: seq<Param>, mode: Mode, i: nat)
    requires i <= |params|
    ensures forall j :: j in IndexesOf(params, mode, i) <==> i <= j < |params| && params[j].mode == mode
    ensures forall a, b | 0 <= a < b < |IndexesOf(params, mode, i)| ::
        IndexesOf(params, mode, i)[a] < IndexesOf(params, mode, i)[b]
    decreases |params| - i
  {
    IndexesAreThose(params, mode, i);
    IndexesIncrease(params, mode, i);
  }

  lemma {:induction false} IndexesAreThose(params: seq<Param>, mode: Mode, i: nat)
    requires i <= |params|
    ensures forall j :: j in IndexesOf(params, mode, i) <==> i <= j < |params| && params[j].mode == mode
    decreases |params| - i
  {
    if i < |params| {
      IndexesAreThose(params, mode, i + 1);
    }
  }

  lemma {:induction false} IndexesIncrease(params: seq<Param>, mode: Mode, i: nat)
    requires i <= |params|
    ensures forall a, b | 0 <= a < b < |IndexesOf(params, mode, i)| ::
        IndexesOf(params, mode, i)[a] < IndexesOf(params, mode, i)[b]
    decreases |params| - i
  {
    if i < |params| {
      var rest := IndexesOf(params, mode, i + 1);
      IndexesIncrease(params, mode, i + 1);
      if params[i].mode == mode {
        AheadOfAll(i, rest);
      }
    }
  }

  lemma {:induction false} AheadOfAll(i: nat, rest: seq<nat>)
    requires forall a | 0 <= a < |rest| :: i < rest[a]
    requires forall a, b | 0 <= a < b < |rest| :: rest[a] < rest[b]
    ensures forall a, b | 0 <= a < b < |[i] + rest| :: ([i] + rest)[a] < ([i] + rest)[b]
  {
    var all := [i] + rest;
    forall a, b | 0 <= a < b < |all| ensures all[a] < all[b] {
      assert all[b] == rest[b - 1];
      if a > 0 {
        assert all[a] == rest[a - 1];
      }
    }
  }

  // ----- the writes -----

  lemma {:induction false} OutWritesAre(params: seq<Param>, at: seq<nat>, given: seq<MethodRet>, part: nat)
    requires part + |at| <= |given| && forall k | 0 <= k < |at| :: at[k] < |params|
    ensures var r := OutWrites(params, at, given, part);
            r.Ok? ==> |r.value| == |at| && forall k | 0 <= k < |at| ::
                r.value[k].param == at[k] && r.value[k].part == part + k
                && ConvertsGiven(TyOfRet(given[part + k]), params[at[k]].ty, params[at[k]].generic) ==
                   Some(r.value[k].how)
    decreases |at|
  {
    var r := OutWrites(params, at, given, part);
    if at != [] && r.Ok? {
      OutWritesAre(params, at[1..], given, part + 1);
      var more := OutWrites(params, at[1..], given, part + 1).value;
      assert r.value == [r.value[0]] + more;
      forall k | 0 <= k < |at|
        ensures r.value[k].param == at[k] && r.value[k].part == part + k
        ensures ConvertsGiven(TyOfRet(given[part + k]), params[at[k]].ty, params[at[k]].generic) == Some(r.value[k].how)
      {
        if k > 0 {
          assert r.value[k] == more[k - 1] && at[k] == at[1..][k - 1];
          assert part + k == part + 1 + (k - 1);
        }
      }
    }
  }

  lemma {:induction false} RefWritesAre(params: seq<Param>, at: seq<nat>, backs: seq<MethodParam>, part: nat)
    requires |at| <= |backs| && forall k | 0 <= k < |at| :: at[k] < |params|
    requires forall k | 0 <= k < |at| ::
        ConvertsGiven(TyOfParam(backs[k]), params[at[k]].ty, params[at[k]].generic).Some?
    ensures var ws := RefWritesOf(params, at, backs, part);
            |ws| == |at| && forall k | 0 <= k < |at| ::
                ws[k].param == at[k] && ws[k].part == part + k
                && ConvertsGiven(TyOfParam(backs[k]), params[at[k]].ty, params[at[k]].generic) == Some(ws[k].how)
    decreases |at|
  {
    if at != [] {
      RefWritesAre(params, at[1..], backs[1..], part + 1);
      var ws, more := RefWritesOf(params, at, backs, part), RefWritesOf(params, at[1..], backs[1..], part + 1);
      assert ws == [ws[0]] + more;
      assert forall k | 0 < k < |at| :: ws[k] == more[k - 1] && at[k] == at[1..][k - 1];
    }
  }

  lemma {:induction false} RefWritesAreFew(params: seq<Param>, at: seq<nat>, backs: seq<MethodParam>, part: nat)
    requires forall k | 0 <= k < |at| :: at[k] < |params|
    ensures |RefWritesOf(params, at, backs, part)| <= |at|
    decreases |at|
  {
    if at != [] && backs != [] {
      RefWritesAreFew(params, at[1..], backs[1..], part + 1);
    }
  }

  // ----- ref parameters and &mut arguments pair up -----

  function ByRefArgs(rust: seq<RustArg>): seq<RustArg> {
    if rust == [] then [] else (if rust[0].byRef then [rust[0]] else []) + ByRefArgs(rust[1..])
  }

  /** When the arguments fit, the ref parameters and the `&mut` arguments are as many,
      and each argument's value converts back to the parameter it is paired with. */
  lemma {:induction false} RefsArePaired(params: seq<Param>, i: nat, rust: seq<RustArg>)
    requires i <= |params| && |InIndexes(params, i)| == |rust|
    requires FirstMisfit(params, InIndexes(params, i), rust).None?
    ensures var refs, backs := IndexesOf(params, Ref, i), ByRefArgs(rust);
            |refs| == |backs| && forall k | 0 <= k < |refs| ::
                ConvertsGiven(backs[k].ty, params[refs[k]].ty, params[refs[k]].generic).Some?
    decreases |params| - i
  {
    if i < |params| {
      if params[i].mode == Out {
        assert InIndexes(params, i) == InIndexes(params, i + 1);
        RefsArePaired(params, i + 1, rust);
        assert IndexesOf(params, Ref, i) == IndexesOf(params, Ref, i + 1);
      } else {
        assert InIndexes(params, i)[1..] == InIndexes(params, i + 1);
        FitConvertsBack(params[i], rust[0]);
        RefsArePaired(params, i + 1, rust[1..]);
        PairOneMore(params, i, rust[0], IndexesOf(params, Ref, i + 1), ByRefArgs(rust[1..]));
        assert ByRefArgs(rust) == (if rust[0].byRef then [rust[0]] else []) + ByRefArgs(rust[1..]);
      }
    }
  }

  lemma {:induction false} FitConvertsBack(p: Param, r: RustArg)
    requires ArgFits(p, r).None?
    ensures p.mode == Ref <==> r.byRef
    ensures r.byRef ==> ConvertsGiven(r.ty, p.ty, p.generic).Some?
  {}

  lemma {:induction false} PairOneMore(params: seq<Param>, i: nat, r: RustArg, refs: seq<nat>, backs: seq<RustArg>)
    requires i < |params| && (r.byRef ==> ConvertsGiven(r.ty, params[i].ty, params[i].generic).Some?)
    requires |refs| == |backs| && forall k | 0 <= k < |refs| :: refs[k] < |params|
    requires forall k | 0 <= k < |refs| :: ConvertsGiven(backs[k].ty, params[refs[k]].ty, params[refs[k]].generic).Some?
    ensures var at, bs := (if r.byRef then [i] else []) + refs, (if r.byRef then [r] else []) + backs;
            forall k | 0 <= k < |at| ::
              at[k] < |params| && ConvertsGiven(bs[k].ty, params[at[k]].ty, params[at[k]].generic).Some?
  {
    var at, bs := (if r.byRef then [i] else []) + refs, (if r.byRef then [r] else []) + backs;
    var n := if r.byRef then 1 else 0;
    assert forall k | n <= k < |at| :: at[k] == refs[k - n] && bs[k] == backs[k - n];
  }

  /** The `&mut` arguments matching sees are all there are exactly when none is hidden. */
  lemma {:induction false} ByRefArgsAre(ps: seq<MethodParam>)
    ensures |ByRefArgs(RustArgs(ps))| <= |ByRefParams(ps)|
    ensures |ByRefArgs(RustArgs(ps))| == |ByRefParams(ps)| <==> !HidesByRef(ps)
    ensures !HidesByRef(ps) ==>
        forall k | 0 <= k < |ByRefParams(ps)| :: ByRefArgs(RustArgs(ps))[k].ty == TyOfParam(ByRefParams(ps)[k])
  {
    if ps != [] {
      ByRefArgsAre(ps[1..]);
      HidesFirstOrLater(ps);
      FirstByRef(ps);
    }
  }

  lemma {:induction false} HidesFirstOrLater(ps: seq<MethodParam>)
    requires ps != []
    ensures HidesByRef(ps) <==> (ps[0].byRef && (ps[0].slot == This || ps[0].slot == Types)) || HidesByRef(ps[1..])
  {
    assert forall i | 0 < i < |ps| :: ps[i] == ps[1..][i - 1];
  }

  lemma {:induction false} FirstByRef(ps: seq<MethodParam>)
    requires ps != []
    ensures ByRefParams(ps) == (if ps[0].byRef then [ps[0]] else []) + ByRefParams(ps[1..])
    ensures ByRefArgs(RustArgs(ps)) ==
            (if ps[0].byRef && ps[0].slot != This && ps[0].slot != Types then [RustArg(TyOfParam(ps[0]), true)] else [])
            + ByRefArgs(RustArgs(ps[1..]))
  {
    var rest := RustArgs(ps[1..]);
    if ps[0].slot != This && ps[0].slot != Types {
      assert RustArgs(ps)[1..] == rest;
    } else {
      assert RustArgs(ps) == rest;
    }
  }

  // ----- what a fit gives -----

  /** The out and ref parameters are written in order, the out ones first. */
  ghost predicate WritesInOrder(member: Member, writes: seq<Write>) {
    Written(writes) == IndexesOf(member.params, Out, 0) + IndexesOf(member.params, Ref, 0)
  }

  /** `w` takes its value from a part there is and converts it as its types ask. */
  predicate WriteConverts(member: Member, m: Method, tries: bool, w: Write) {
    && w.part < |GivenTypes(m)|
    && w.param < |member.params|
    && var p := member.params[w.param];
       var from := GivenTy(m, w.part);
       ConvertsGiven(if tries && w.part == 0 then NotNullable(from) else from, p.ty, p.generic) == Some(w.how)
  }

  predicate ResultConverts(member: Member, m: Method, result: (nat, Conv)) {
    result.0 < |GivenTypes(m)| &&
      ConvertsGiven(GivenTy(m, result.0), member.result, member.resultGeneric) == Some(result.1)
  }

  /** Each value reaches its place as its type and the place's say. */
  predicate ConvertsRightly(member: Member, m: Method, gives: Gives) {
    && (gives.result.Some? ==> ResultConverts(member, m, gives.result.value))
    && forall i | 0 <= i < |gives.writes| :: WriteConverts(member, m, gives.tries, gives.writes[i])
  }

  /** The writes `ws` are of the parameters `at`, from `part` on. */
  predicate Shaped(ws: seq<Write>, at: seq<nat>, part: nat) {
    |ws| == |at| && forall k | 0 <= k < |at| :: ws[k].param == at[k] && ws[k].part == part + k
  }

  function ResultParts(gives: Gives): nat {
    if gives.result.Some? then 1 else 0
  }

  /** What `method_gives` finds, before the ref writes are added. */
  predicate GivesParts(member: Member, m: Method, gives: Gives) {
    && (gives.tries <==> Tries(member, m))
    && (gives.result.Some? <==> ReturnsValue(member) && !gives.tries)
    && (gives.result.Some? ==> gives.result.value.0 == 0)
    && ResultParts(gives) + |gives.writes| == |Parts(m)|
    && Shaped(gives.writes, IndexesOf(member.params, Out, 0), ResultParts(gives))
    && ConvertsRightly(member, m, gives)
  }

  lemma {:induction false} TryGivesParts(member: Member, m: Method)
    requires Tries(member, m) && TryGives(member, m).Ok?
    ensures GivesParts(member, m, TryGives(member, m).value)
  {
    var gives := TryGives(member, m).value;
    assert GivenTy(m, 0) == TyOfRet(Parts(m)[0]);
    assert WriteConverts(member, m, true, gives.writes[0]);
  }

  lemma {:induction false} OutsConvert(member: Member, m: Method, ws: seq<Write>, part: nat)
    requires var outs := IndexesOf(member.params, Out, 0);
             part + |outs| <= |Parts(m)| && OutWrites(member.params, outs, Parts(m), part) == Ok(ws)
    ensures Shaped(ws, IndexesOf(member.params, Out, 0), part)
    ensures forall i | 0 <= i < |ws| :: WriteConverts(member, m, false, ws[i])
  {
    var outs := IndexesOf(member.params, Out, 0);
    OutWritesAre(member.params, outs, Parts(m), part);
    forall i | 0 <= i < |ws| ensures WriteConverts(member, m, false, ws[i]) {
      PartIsGiven(m, part + i);
      assert ws[i].param == outs[i] && ws[i].part == part + i;
    }
  }

  lemma {:induction false} PartIsGiven(m: Method, k: nat)
    requires k < |Parts(m)|
    ensures k < |GivenTypes(m)| && GivenTy(m, k) == TyOfRet(Parts(m)[k])
  {}

  lemma {:induction false} ByRefIsGiven(m: Method, k: nat)
    requires k < |ByRefParams(m.params)|
    ensures |Parts(m)| + k < |GivenTypes(m)| && GivenTy(m, |Parts(m)| + k) == TyOfParam(ByRefParams(m.params)[k])
  {}

  lemma {:induction false} MethodGivesParts(member: Member, m: Method)
    requires MethodGivesOf(member, m).Ok?
    ensures GivesParts(member, m, MethodGivesOf(member, m).value)
  {
    var gives := MethodGivesOf(member, m).value;
    if Tries(member, m) {
      TryGivesParts(member, m);
    } else {
      OutsConvert(member, m, gives.writes, ResultParts(gives));
    }
  }

  lemma {:induction false} UsedIsAll(gives: Gives, n: nat)
    requires ResultParts(gives) + |gives.writes| == n && (gives.result.Some? ==> gives.result.value.0 == 0)
    requires forall k | 0 <= k < |gives.writes| :: gives.writes[k].part == ResultParts(gives) + k
    ensures Used(gives) == AllIndexes(n)
  {}

  /** The fitted method's writes: those of the out parameters, then `more`. */
  lemma {:induction false} FitSplits(
      member: Member, m: Method, interface: bool, gives: Gives) returns (first: Gives, more: seq<Write>)
    requires FitMethod(m, member, interface) == Ok(Fitted(TheMethod, None, gives))
    ensures MethodGivesOf(member, m) == Ok(first)
    ensures more == RefWritesOf(member.params, IndexesOf(member.params, Ref, 0), ByRefParams(m.params), |Parts(m)|)
    ensures gives == first.(writes := first.writes + more)
    ensures ArgsFitOf(member.params, InIndexes(member.params, 0), RustArgs(m.params)).None?
  {
    first := MethodGivesOf(member, m).value;
    more := RefWritesOf(member.params, IndexesOf(member.params, Ref, 0), ByRefParams(m.params), |Parts(m)|);
  }

  /** The ref writes, when no `&mut` argument is hidden. */
  lemma {:induction false} RefsConvert(member: Member, m: Method, tries: bool)
    requires ArgsFitOf(member.params, InIndexes(member.params, 0), RustArgs(m.params)).None?
    requires !HidesByRef(m.params) && (tries ==> |Parts(m)| == 1)
    ensures var refs := IndexesOf(member.params, Ref, 0);
            var more := RefWritesOf(member.params, refs, ByRefParams(m.params), |Parts(m)|);
            && |refs| == |ByRefParams(m.params)|
            && Shaped(more, refs, |Parts(m)|)
            && forall i | 0 <= i < |more| :: WriteConverts(member, m, tries, more[i])
  {
    RefsArePaired(member.params, 0, RustArgs(m.params));
    ByRefArgsAre(m.params);
    RefWritesAre(member.params, IndexesOf(member.params, Ref, 0), ByRefParams(m.params), |Parts(m)|);
    RefWritesConvert(member, m, tries, IndexesOf(member.params, Ref, 0));
  }

  lemma {:induction false} RefWritesConvert(member: Member, m: Method, tries: bool, refs: seq<nat>)
    requires |refs| == |ByRefParams(m.params)| && forall k | 0 <= k < |refs| :: refs[k] < |member.params|
    requires tries ==> |Parts(m)| == 1
    requires var more := RefWritesOf(member.params, refs, ByRefParams(m.params), |Parts(m)|);
             |more| == |refs| && forall k | 0 <= k < |refs| ::
               more[k].param == refs[k] && more[k].part == |Parts(m)| + k
               && ConvertsGiven(TyOfParam(ByRefParams(m.params)[k]), member.params[refs[k]].ty,
                  member.params[refs[k]].generic) == Some(more[k].how)
    ensures var more := RefWritesOf(member.params, refs, ByRefParams(m.params), |Parts(m)|);
            forall k | 0 <= k < |more| :: WriteConverts(member, m, tries, more[k])
  {
    var more := RefWritesOf(member.params, refs, ByRefParams(m.params), |Parts(m)|);
    forall k | 0 <= k < |more| ensures WriteConverts(member, m, tries, more[k]) {
      ByRefIsGiven(m, k);
    }
  }

  /** With a hidden `&mut` argument there are fewer ref parameters than such arguments. */
  lemma {:induction false} HiddenLeavesSome(member: Member, m: Method)
    requires ArgsFitOf(member.params, InIndexes(member.params, 0), RustArgs(m.params)).None?
    requires HidesByRef(m.params)
    ensures |RefWritesOf(member.params, IndexesOf(member.params, Ref, 0), ByRefParams(m.params),
        |Parts(m)|)| < |ByRefParams(m.params)|
  {
    RefsArePaired(member.params, 0, RustArgs(m.params));
    ByRefArgsAre(m.params);
    RefWritesAreFew(member.params, IndexesOf(member.params, Ref, 0), ByRefParams(m.params), |Parts(m)|);
  }

  lemma {:induction false} AllAreUsed(member: Member, m: Method, first: Gives, more: seq<Write>)
    requires GivesParts(member, m, first)
    requires |more| == |ByRefParams(m.params)| && forall k | 0 <= k < |more| :: more[k].part == |Parts(m)| + k
    ensures Used(first.(writes := first.writes + more)) == AllIndexes(|GivenTypes(m)|)
  {
    UsedIsAll(first.(writes := first.writes + more), |GivenTypes(m)|);
  }

  /** When a method fits, its member's result and its out and ref parameters take the
      values of the call one by one, in order and leaving none over, if and only if
      the method takes neither its object nor its type arguments as `&mut`. */
  lemma {:induction false} FitIsABijection(member: Member, m: Method, interface: bool, gives: Gives)
    requires FitMethod(m, member, interface) == Ok(Fitted(TheMethod, None, gives))
    ensures Used(gives) == AllIndexes(|GivenTypes(m)|) <==> !HidesByRef(m.params)
  {
    var first, more := FitSplits(member, m, interface, gives);
    MethodGivesParts(member, m);
    if HidesByRef(m.params) {
      HiddenLeavesSome(member, m);
      assert |Used(gives)| < |GivenTypes(m)|;
    } else {
      RefsConvert(member, m, first.tries);
      AllAreUsed(member, m, first, more);
    }
  }

  /** A fit drops no ref argument, writes each out and ref parameter in order, and
      converts each value as its types ask. */
  lemma {:induction false} FitWritesEach(member: Member, m: Method, interface: bool, gives: Gives)
    requires FitMethod(m, member, interface) == Ok(Fitted(TheMethod, None, gives)) && !HidesByRef(m.params)
    ensures WritesInOrder(member, gives.writes)
    ensures ConvertsRightly(member, m, gives)
    ensures gives.tries <==> Tries(member, m)
    ensures gives.result.Some? <==> ReturnsValue(member) && !gives.tries
  {
    var first, more := FitSplits(member, m, interface, gives);
    MethodGivesParts(member, m);
    RefsConvert(member, m, first.tries);
    InOrderTogether(member, first.writes, more, ResultParts(first), |Parts(m)|);
  }

  lemma {:induction false} InOrderTogether(member: Member, outs: seq<Write>, refs: seq<Write>, i: nat, j: nat)
    requires Shaped(outs, IndexesOf(member.params, Out, 0), i) && Shaped(refs, IndexesOf(member.params, Ref, 0), j)
    ensures WritesInOrder(member, outs + refs)
  {
    var all, at := outs + refs, IndexesOf(member.params, Out, 0) + IndexesOf(member.params, Ref, 0);
    forall k | 0 <= k < |all| ensures all[k].param == at[k] {
      if k < |outs| {
        assert all[k] == outs[k];
      } else {
        assert all[k] == refs[k - |outs|];
      }
    }
  }

  /** Every out and ref parameter, and no other, is written, and none twice. */
  lemma {:induction false} WrittenAreTheOutAndRef(member: Member, writes: seq<Write>)
    requires WritesInOrder(member, writes)
    ensures forall j :: j in Written(writes) <==>
        0 <= j < |member.params| && (member.params[j].mode == Out || member.params[j].mode == Ref)
    ensures forall a, b | 0 <= a < b < |writes| :: writes[a].param != writes[b].param
  {
    var outs, refs := IndexesOf(member.params, Out, 0), IndexesOf(member.params, Ref, 0);
    IndexesAreAll(member.params, Out, 0);
    IndexesAreAll(member.params, Ref, 0);
    forall j ensures j in Written(writes) <==> j in outs || j in refs {
      assert j in outs + refs <==> j in outs || j in refs;
    }
    NoneTwice(member, outs, refs);
    assert forall i | 0 <= i < |writes| :: writes[i].param == (outs + refs)[i];
  }

  lemma {:induction false} NoneTwice(member: Member, outs: seq<nat>, refs: seq<nat>)
    requires forall k | 0 <= k < |outs| :: outs[k] < |member.params| && member.params[outs[k]].mode == Out
    requires forall k | 0 <= k < |refs| :: refs[k] < |member.params| && member.params[refs[k]].mode == Ref
    requires forall a, b | 0 <= a < b < |outs| :: outs[a] < outs[b]
    requires forall a, b | 0 <= a < b < |refs| :: refs[a] < refs[b]
    ensures forall a, b | 0 <= a < b < |outs + refs| :: (outs + refs)[a] != (outs + refs)[b]
  {
    forall a, b | 0 <= a < b < |outs + refs| ensures (outs + refs)[a] != (outs + refs)[b] {
      if a < |outs| <= b {
        assert member.params[outs[a]].mode == Out && member.params[refs[b - |outs|]].mode == Ref;
      }
    }
  }
}
