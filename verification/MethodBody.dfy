/** The C# body of a method member backed by a Rust method: the statements
    `method_body` of crates/cargo-pwrs/src/bases.rs writes, and what running them
    does. */
module MethodBody {
  import opened Results
  import opened Conversions
  import opened Members
  import opened MemberFit
  import opened GivesComplete

  /** One line of the block. `present` reads an Option's value, which has been found
      to be there. */
  datatype Line =
    | Call
    | Assign(param: nat, part: nat, how: Conv, present: bool)
    | DefaultIfAbsent(param: nat)
    | ReturnTrue
    | ReturnPart(part: nat, how: Conv)

  /** ` => call;`, its value converted when it is the member's, or a block. */
  datatype Body = Arrow(how: Option<Conv>) | Block(lines: seq<Line>)

  /** An assignment for each write but the try pattern's own. */
  function Assigns(writes: seq<Write>, tries: bool): seq<Line> {
    if writes == [] then []
    else (if tries && writes[0].part == 0 then []
      else [Assign(writes[0].param, writes[0].part, writes[0].how, false)]) + Assigns(writes[1..], tries)
  }

  function FirstOfPartZero(writes: seq<Write>): Option<Write> {
    if writes == [] then None
    else if writes[0].part == 0 then Some(writes[0])
    else FirstOfPartZero(writes[1..])
  }

  function LastLines(gives: Gives): seq<Line> {
    var try_ := FirstOfPartZero(gives.writes);
    if gives.tries && try_.Some? then
      [DefaultIfAbsent(try_.value.param), Assign(try_.value.param, 0, try_.value.how, true), ReturnTrue]
    else if gives.result.Some? then [ReturnPart(gives.result.value.0, gives.result.value.1)]
    else []
  }

  function BodyOf(m: Method, gives: Gives): Body {
    if !Packed(m) && gives.writes == [] then
      Arrow(if gives.result.Some? then Some(gives.result.value.1) else None)
    else Block([Call] + Assigns(gives.writes, gives.tries) + LastLines(gives))
  }

  method WriteBody(m: Method, gives: Gives) returns (body: Body)
    ensures body == BodyOf(m, gives)
  {
    if !Packed(m) && gives.writes == [] {
      return Arrow(if gives.result.Some? then Some(gives.result.value.1) else None);
    }
    var lines := [Call];
    assert gives.writes[0..] == gives.writes;
    for i := 0 to |gives.writes|
      invariant [Call] + Assigns(gives.writes, gives.tries) == lines + Assigns(gives.writes[i..], gives.tries)
    {
      var w := gives.writes[i];
      assert gives.writes[i..][1..] == gives.writes[i + 1..];
      ghost var more := Assigns(gives.writes[i + 1..], gives.tries);
      if gives.tries && w.part == 0 {
        assert [] + more == more;
        continue;
      }
      assert lines + ([Assign(w.param, w.part, w.how, false)] + more) ==
          lines + [Assign(w.param, w.part, w.how, false)] + more;
      lines := lines + [Assign(w.param, w.part, w.how, false)];
    }
    assert lines + [] == lines;
    var try_ := FirstOfPartZero(gives.writes);
    if gives.tries && try_.Some? {
      var name, how := try_.value.param, try_.value.how;
      lines := lines + [DefaultIfAbsent(name), Assign(name, 0, how, true), ReturnTrue];
    } else if gives.result.Some? {
      lines := lines + [ReturnPart(gives.result.value.0, gives.result.value.1)];
    }
    return Block(lines);
  }

  // ----- running a body -----

  /** A value a run puts somewhere: what the call gave, converted, a type's default,
      or a truth. */
  datatype Val = Given(part: nat, how: Conv) | TheDefault | Truth(b: bool)

  /** What the caller sees: each parameter assigned and the value returned. */
  datatype Outcome = Outcome(put: map<nat, Val>, returned: Option<Val>)

  /** Whether part `k` of the call can be read: one of the array's values, or the
      call's one value. */
  predicate CanRead(m: Method, k: nat) {
    k < |GivenTypes(m)| && (Packed(m) || |GivenTypes(m)| == 1)
  }

  /** Running `lines` after the call; `absent` says whether part 0 has no value.
      `None` when a line reads what is not there. */
  function Run(m: Method, lines: seq<Line>, absent: bool, put: map<nat, Val>): Option<Outcome> {
    if lines == [] then Some(Outcome(put, None))
    else
      match lines[0]
      case Call => None
      case Assign(param, part, how, present) =>
        if !CanRead(m, part) || (present && absent) then None
        else Run(m, lines[1..], absent, put[param := Given(part, how)])
      case DefaultIfAbsent(param) =>
        if !CanRead(m, 0) then None
        else if absent then Some(Outcome(put[param := TheDefault], Some(Truth(false))))
        else Run(m, lines[1..], absent, put)
      case ReturnTrue => Some(Outcome(put, Some(Truth(true))))
      case ReturnPart(part, how) => if CanRead(m, part) then Some(Outcome(put, Some(Given(part, how)))) else None
  }

  /** Whether the call's value is the one it gives, and not an array of those or nothing. */
  predicate GivesOneValue(m: Method) {
    !Packed(m) && |GivenTypes(m)| == 1
  }

  /** An expression body is the call's own value; a block first keeps that value, so it
      needs one. */
  function RunBody(m: Method, body: Body, absent: bool): Option<Outcome> {
    match body
    case Arrow(None) => Some(Outcome(map[], None))
    case Arrow(Some(how)) => if GivesOneValue(m) then Some(Outcome(map[], Some(Given(0, how)))) else None
    case Block(lines) =>
      if lines == [] || lines[0] != Call || !(Packed(m) || GivesOneValue(m)) then None
      else Run(m, lines[1..], absent, map[])
  }

  /** What the member is to do with what the call gives. */
  ghost predicate DoesWhatItGives(writes: seq<Write>, gives: Gives, absent: bool, o: Outcome) {
    && (forall j :: j in o.put <==> j in Written(writes))
    && (forall i | 0 <= i < |writes| ::
          o.put[writes[i].param] ==
          if gives.tries && writes[i].part == 0 && absent then TheDefault else Given(writes[i].part, writes[i].how))
    && o.returned == if gives.tries then Some(Truth(!absent))
                     else if gives.result.Some? then Some(Given(gives.result.value.0, gives.result.value.1))
                     else None
  }

  /** What the assignments leave: each write's part in its parameter. */
  function AssignedBy(writes: seq<Write>, tries: bool, put: map<nat, Val>): map<nat, Val> {
    if writes == [] then put
    else
      var w := writes[0];
      AssignedBy(writes[1..], tries, if tries && w.part == 0 then put else put[w.param := Given(w.part, w.how)])
  }

  lemma {:induction false} RunAssigns(
      m: Method, writes: seq<Write>, tries: bool, tail: seq<Line>, absent: bool, put: map<nat, Val>)
    requires forall i | 0 <= i < |writes| :: CanRead(m, writes[i].part)
    ensures Run(m, Assigns(writes, tries) + tail, absent, put) == Run(m, tail, absent, AssignedBy(writes, tries, put))
    decreases |writes|
  {
    if writes == [] {
      assert Assigns(writes, tries) + tail == tail;
    } else {
      var w, more := writes[0], Assigns(writes[1..], tries);
      if tries && w.part == 0 {
        assert Assigns(writes, tries) == more;
        RunAssigns(m, writes[1..], tries, tail, absent, put);
      } else {
        var line := Assign(w.param, w.part, w.how, false);
        assert (Assigns(writes, tries) + tail)[0] == line;
        assert (Assigns(writes, tries) + tail)[1..] == more + tail;
        RunAssigns(m, writes[1..], tries, tail, absent, put[w.param := Given(w.part, w.how)]);
      }
    }
  }

  /** The parameters of the writes differ. */
  predicate ParamsDiffer(writes: seq<Write>) {
    forall a, b | 0 <= a < b < |writes| :: writes[a].param != writes[b].param
  }

  lemma {:induction false} AssignedElsewhere(writes: seq<Write>, tries: bool, put: map<nat, Val>, j: nat)
    requires forall i | 0 <= i < |writes| :: writes[i].param != j
    ensures var r := AssignedBy(writes, tries, put); (j in r <==> j in put) && (j in put ==> r[j] == put[j])
    decreases |writes|
  {
    if writes != [] {
      var w := writes[0];
      AssignedElsewhere(writes[1..], tries, if tries && w.part == 0 then put
        else put[w.param := Given(w.part, w.how)], j);
    }
  }

  lemma {:induction false} AssignedHere(writes: seq<Write>, tries: bool, put: map<nat, Val>, i: nat)
    requires ParamsDiffer(writes) && i < |writes| && !(tries && writes[i].part == 0)
    ensures var r := AssignedBy(writes, tries, put);
            writes[i].param in r && r[writes[i].param] == Given(writes[i].part, writes[i].how)
    decreases |writes|
  {
    var w, rest := writes[0], writes[1..];
    var next := if tries && w.part == 0 then put else put[w.param := Given(w.part, w.how)];
    if i == 0 {
      assert forall k | 0 <= k < |rest| :: rest[k] == writes[k + 1];
      AssignedElsewhere(rest, tries, next, w.param);
    } else {
      AssignedHere(rest, tries, next, i - 1);
    }
  }

  lemma {:induction false} AssignedFromNothing(writes: seq<Write>, tries: bool, j: nat)
    requires j !in Written(writes)
    ensures j !in AssignedBy(writes, tries, map[])
  {
    assert forall i | 0 <= i < |writes| :: Written(writes)[i] == writes[i].param;
    AssignedElsewhere(writes, tries, map[], j);
  }

  // ----- every body does what the fit found -----

  /** What the proof needs of a fit's gives. */
  ghost predicate Complete(m: Method, gives: Gives) {
    && Used(gives) == AllIndexes(|GivenTypes(m)|)
    && ParamsDiffer(gives.writes)
    && (gives.tries ==> gives.result.None? && gives.writes != [])
  }

  lemma {:induction false} WritesCanBeRead(m: Method, gives: Gives)
    requires Complete(m, gives)
    ensures forall i | 0 <= i < |gives.writes| ::
        CanRead(m, gives.writes[i].part) && gives.writes[i].part == ResultParts(gives) + i
    ensures gives.result.Some? ==> gives.result.value.0 == 0 && CanRead(m, 0)
  {
    var used, n := Used(gives), ResultParts(gives);
    assert forall i | 0 <= i < |gives.writes| :: used[n + i] == gives.writes[i].part;
    assert gives.result.Some? ==> used[0] == gives.result.value.0;
    UnpackedGivesOne(m);
  }

  lemma {:induction false} UnpackedGivesOne(m: Method)
    ensures !Packed(m) ==> |GivenTypes(m)| <= 1
  {
    if !Packed(m) {
      NoByRef(m.params);
    }
  }

  lemma {:induction false} NoByRef(ps: seq<MethodParam>)
    requires forall i | 0 <= i < |ps| :: !ps[i].byRef
    ensures ByRefParams(ps) == []
  {
    if ps != [] {
      NoByRef(ps[1..]);
    }
  }

  lemma {:induction false} RunBlock(m: Method, gives: Gives, absent: bool)
    requires Complete(m, gives) && (Packed(m) || gives.writes != [])
    ensures RunBody(m, BodyOf(m, gives), absent) ==
        Run(m, LastLines(gives), absent, AssignedBy(gives.writes, gives.tries, map[]))
  {
    WritesCanBeRead(m, gives);
    var last, assigns := LastLines(gives), Assigns(gives.writes, gives.tries);
    assert ([Call] + assigns + last)[0] == Call && ([Call] + assigns + last)[1..] == assigns + last;
    RunAssigns(m, gives.writes, gives.tries, last, absent, map[]);
  }

  lemma {:induction false} RunLastTry(m: Method, w: Write, absent: bool, put: map<nat, Val>)
    requires CanRead(m, 0)
    ensures Run(m, [DefaultIfAbsent(w.param), Assign(w.param, 0, w.how, true), ReturnTrue], absent, put) ==
            Some(Outcome(put[w.param := if absent then TheDefault else Given(0, w.how)], Some(Truth(!absent))))
  {
    var lines := [DefaultIfAbsent(w.param), Assign(w.param, 0, w.how, true), ReturnTrue];
    assert lines[1..] == [Assign(w.param, 0, w.how, true), ReturnTrue];
    assert lines[1..][1..] == [ReturnTrue];
    var after := put[w.param := Given(0, w.how)];
    assert Run(m, [ReturnTrue], absent, after) == Some(Outcome(after, Some(Truth(true))));
    assert Run(m, lines[1..], absent, put) == if absent then None else Run(m, [ReturnTrue], absent, after);
  }

  lemma {:induction false} TryRuns(m: Method, gives: Gives, absent: bool)
    requires Complete(m, gives) && gives.tries
    ensures var o := RunBody(m, BodyOf(m, gives), absent);
            o.Some? && DoesWhatItGives(gives.writes, gives, absent, o.value)
  {
    WritesCanBeRead(m, gives);
    var writes := gives.writes;
    var w, put := writes[0], AssignedBy(writes, true, map[]);
    assert w.part == 0;
    assert LastLines(gives) == [DefaultIfAbsent(w.param), Assign(w.param, 0, w.how, true), ReturnTrue];
    RunBlock(m, gives, absent);
    RunLastTry(m, w, absent, put);
    var after := put[w.param := if absent then TheDefault else Given(0, w.how)];
    forall i | 0 <= i < |writes|
      ensures writes[i].param in after
      ensures after[writes[i].param] == if writes[i].part == 0 && absent then TheDefault
          else Given(writes[i].part, writes[i].how)
    {
      if i > 0 {
        AssignedHere(writes, true, map[], i);
      }
    }
    KeysAreWritten(writes, true, after, w.param);
  }

  lemma {:induction false} KeysAreWritten(writes: seq<Write>, tries: bool, after: map<nat, Val>, extra: nat)
    requires after.Keys <= AssignedBy(writes, tries, map[]).Keys + {extra} &&
        (writes != [] ==> extra == writes[0].param)
    requires writes == [] ==> after == map[]
    requires forall i | 0 <= i < |writes| :: writes[i].param in after
    ensures forall j :: j in after <==> j in Written(writes)
  {
    if writes != [] {
      assert Written(writes)[0] == extra;
    }
    forall j ensures j in after <==> j in Written(writes) {
      if j in after && j !in Written(writes) {
        AssignedFromNothing(writes, tries, j);
      }
      if j in Written(writes) {
        var i :| 0 <= i < |writes| && Written(writes)[i] == j;
        assert writes[i].param == j;
      }
    }
  }

  lemma {:induction false} PlainRuns(m: Method, gives: Gives, absent: bool)
    requires Complete(m, gives) && !gives.tries
    ensures var o := RunBody(m, BodyOf(m, gives), absent);
            o.Some? && DoesWhatItGives(gives.writes, gives, absent, o.value)
  {
    if Packed(m) || gives.writes != [] {
      PlainBlockRuns(m, gives, absent);
    } else {
      PlainArrowRuns(m, gives, absent);
    }
  }

  lemma {:induction false} PlainLastRuns(m: Method, gives: Gives, absent: bool, put: map<nat, Val>)
    requires !gives.tries && (gives.result.Some? ==> CanRead(m, gives.result.value.0))
    ensures var r := gives.result;
            Run(m, LastLines(gives), absent, put) ==
              Some(Outcome(put, if r.Some? then Some(Given(r.value.0, r.value.1)) else None))
  {}

  lemma {:induction false} PlainBlockRuns(m: Method, gives: Gives, absent: bool)
    requires Complete(m, gives) && !gives.tries && (Packed(m) || gives.writes != [])
    ensures var o := RunBody(m, BodyOf(m, gives), absent);
            o.Some? && DoesWhatItGives(gives.writes, gives, absent, o.value)
  {
    WritesCanBeRead(m, gives);
    RunBlock(m, gives, absent);
    PlainLastRuns(m, gives, absent, AssignedBy(gives.writes, false, map[]));
    PlainAssigns(gives.writes);
  }

  lemma {:induction false} PlainArrowRuns(m: Method, gives: Gives, absent: bool)
    requires Complete(m, gives) && !gives.tries && !Packed(m) && gives.writes == []
    ensures var o := RunBody(m, BodyOf(m, gives), absent);
            o.Some? && DoesWhatItGives(gives.writes, gives, absent, o.value)
  {
    WritesCanBeRead(m, gives);
    assert Written(gives.writes) == [];
  }

  lemma {:induction false} PlainAssigns(writes: seq<Write>)
    requires ParamsDiffer(writes)
    ensures var put := AssignedBy(writes, false, map[]);
            && (forall i | 0 <= i < |writes| ::
                  writes[i].param in put && put[writes[i].param] == Given(writes[i].part, writes[i].how))
            && forall j :: j in put <==> j in Written(writes)
  {
    var put := AssignedBy(writes, false, map[]);
    forall i | 0 <= i < |writes|
      ensures writes[i].param in put && put[writes[i].param] == Given(writes[i].part, writes[i].how)
    {
      AssignedHere(writes, false, map[], i);
    }
    KeysAreWritten(writes, false, put, if writes == [] then 0 else writes[0].param);
  }

  /** The body of a member a method fits reads only values the call gives, assigns
      every out and ref parameter and no other, and returns what the member returns
      on every path: for the try pattern whether there is a value, with the type's
      default where there is none. */
  lemma {:induction false} BodyDoesWhatItGives(member: Member, m: Method, interface: bool, gives: Gives, absent: bool)
    requires FitMethod(m, member, interface) == Ok(Fitted(TheMethod, None, gives)) && !HidesByRef(m.params)
    ensures var o := RunBody(m, BodyOf(m, gives), absent);
            && o.Some?
            && DoesWhatItGives(gives.writes, gives, absent, o.value)
            && (forall j :: j in o.value.put <==>
               0 <= j < |member.params| && (member.params[j].mode == Out || member.params[j].mode == Ref))
            && (o.value.returned.Some? <==> ReturnsValue(member))
  {
    FitIsABijection(member, m, interface, gives);
    FitWritesEach(member, m, interface, gives);
    WrittenAreTheOutAndRef(member, gives.writes);
    if gives.tries {
      assert |gives.writes| > 0 by {
        var k := IndexesOf(member.params, Out, 0)[0];
        assert Written(gives.writes)[0] == k;
      }
      TryRuns(m, gives, absent);
    } else {
      PlainRuns(m, gives, absent);
    }
  }
}
