/** How a class declares the members it backs: `render_members` of
    crates/cargo-pwrs/src/bases.rs. An interface member is public under its own name
    where that clashes with nothing, and implemented explicitly otherwise. */
module RenderMembers {
  import opened Results
  import opened Conversions
  import opened Members
  import opened MemberFit

  /** What C# tells two methods of one name apart by. */
  datatype Signature = Signature(name: string, generic: nat, params: seq<(bool, TypeName, bool)>)

  /** What identifies a member, the same on every target that has it. */
  datatype Key = Key(from: string, signature: Signature)

  /** A part of a member and the method that backs it; no method for a stub. */
  datatype Matched = Matched(method_: Option<Method>, candidate: Candidate, part: Part, ret: Option<Conv>, gives: Gives)

  function ParamTypes(params: seq<Param>): seq<(bool, TypeName, bool)> {
    if params == [] then []
    else [(params[0].mode != ByValue, params[0].ty.name, params[0].ty.nullable)] + ParamTypes(params[1..])
  }

  function SignatureOf(m: Member): Signature {
    Signature(m.name, |m.typeParams|, ParamTypes(m.params))
  }

  function KeyOf(c: Candidate): Key {
    Key(c.member.from, SignatureOf(c.member))
  }

  datatype Form = Override | PublicOwn | Explicit

  /** One declaration: a method's, with the match it calls, or a property's, with
      the accessors it declares. */
  datatype Rendering = Rendering(key: Key, member: Member, form: Form, found: Matched, getter: Option<Matched>,
    setter: Option<Matched>)

  function FirstPart(matched: seq<Matched>, key: Key, part: Part): Option<Matched> {
    if matched == [] then None
    else if KeyOf(matched[0].candidate) == key && matched[0].part == part then Some(matched[0])
    else FirstPart(matched[1..], key, part)
  }

  function FirstOfKey(matched: seq<Matched>, key: Key): Option<Matched> {
    if matched == [] then None
    else if KeyOf(matched[0].candidate) == key then Some(matched[0])
    else FirstOfKey(matched[1..], key)
  }

  lemma {:induction false} FirstOfKeyIs(matched: seq<Matched>, key: Key, n: nat)
    requires n < |matched| && KeyOf(matched[n].candidate) == key
    requires forall i | 0 <= i < n :: KeyOf(matched[i].candidate) != key
    ensures FirstOfKey(matched, key) == Some(matched[n])
    decreases n
  {
    if n > 0 {
      FirstOfKeyIs(matched[1..], key, n - 1);
    }
  }

  lemma {:induction false} FirstOfKeyFinds(matched: seq<Matched>, key: Key, i: nat)
    requires i < |matched| && KeyOf(matched[i].candidate) == key
    ensures FirstOfKey(matched, key).Some?
    ensures FirstOfKey(matched, key).value in matched && KeyOf(FirstOfKey(matched, key).value.candidate) == key
    decreases i
  {
    if KeyOf(matched[0].candidate) != key {
      FirstOfKeyFinds(matched[1..], key, i - 1);
    }
  }

  predicate Constrained(m: Member) {
    exists i | 0 <= i < |m.typeParams| :: m.typeParams[i].constrained
  }

  // ----- what the declarations keep apart -----

  predicate Shown(r: Rendering) {
    r.form != Explicit
  }

  predicate IsMethod(r: Rendering) {
    r.member.kind == AMethod
  }

  /** A method of the base, or a public one among `out`, has the signature. */
  ghost predicate HasSignature(base: seq<Member>, out: seq<Rendering>, sig: Signature) {
    (exists i | 0 <= i < |base| :: base[i].kind == AMethod && SignatureOf(base[i]) == sig)
    || exists i | 0 <= i < |out| :: IsMethod(out[i]) && out[i].form == PublicOwn && SignatureOf(out[i].member) == sig
  }

  /** The class, its base or a public one among `out` has the name. */
  ghost predicate HasName(own: seq<string>, base: seq<Member>, out: seq<Rendering>, name: string) {
    name in own
    || (exists i | 0 <= i < |base| :: base[i].name == name)
    || exists i | 0 <= i < |out| :: out[i].form == PublicOwn && out[i].member.name == name
  }

  /** Something other than a method has the name; the class's own names all count. */
  ghost predicate HasOtherName(own: seq<string>, base: seq<Member>, out: seq<Rendering>, name: string) {
    name in own
    || (exists i | 0 <= i < |base| :: base[i].kind != AMethod && base[i].name == name)
    || exists i | 0 <= i < |out| :: !IsMethod(out[i]) && out[i].form == PublicOwn && out[i].member.name == name
  }

  /** What the declarations so far keep, and what the next may not repeat. */
  ghost predicate KeepsApart(own: seq<string>, base: seq<Member>, out: seq<Rendering>) {
    && (forall i, j | 0 <= i < j < |out| :: out[i].key != out[j].key)
    && (forall i, j | 0 <= i < j < |out| && Shown(out[i]) && Shown(out[j]) && IsMethod(out[i]) && IsMethod(out[j]) ::
          SignatureOf(out[i].member) != SignatureOf(out[j].member))
    && (forall i | 0 <= i < |out| && out[i].form == PublicOwn :: out[i].member.name !in own)
    && (forall i, j | 0 <= i < |out| && 0 <= j < |out| && i != j && !IsMethod(out[i]) && out[i].form == PublicOwn &&
       Shown(out[j]) ::
          out[i].member.name != out[j].member.name)
  }

  /** An explicit declaration is one that could not be public: what it would repeat
      was there before it. */
  ghost predicate ExplicitOnlyWhenForced(own: seq<string>, base: seq<Member>, out: seq<Rendering>) {
    forall i | 0 <= i < |out| && out[i].form == Explicit ::
      var m, before := out[i].member, out[..i];
      if IsMethod(out[i]) then
        || (exists k | 0 <= k < |m.typeParams| :: m.typeParams[k].constrained)
        || HasSignature(base, before, SignatureOf(m)) || HasOtherName(own, base, before, m.name)
      else HasName(own, base, before, m.name)
  }

  /** Each declaration is of the first match of its key, a property's of the first
      match of each of its accessors too. */
  ghost predicate Faithful(matched: seq<Matched>, r: Rendering) {
    && r.found in matched && FirstOfKey(matched, r.key) == Some(r.found)
    && r.key == KeyOf(r.found.candidate)
    && r.member == r.found.candidate.member
    && (r.form == Override <==> r.found.candidate.interface.None?)
    && r.getter == (if IsMethod(r) then None else FirstPart(matched, r.key, TheGetter))
    && r.setter == (if IsMethod(r) then None else FirstPart(matched, r.key, TheSetter))
  }

  /** `base` lists each signature of its methods once, and what is overridden is its. */
  ghost predicate BaseIsRead(base: seq<Member>, matched: seq<Matched>) {
    && (forall i, j | 0 <= i < j < |base| && base[i].kind == AMethod && base[j].kind == AMethod ::
       SignatureOf(base[i]) != SignatureOf(base[j]))
    && (forall i | 0 <= i < |matched| && matched[i].candidate.interface.None? :: matched[i].candidate.member in base)
  }

  predicate HasKey(out: seq<Rendering>, key: Key) {
    exists i | 0 <= i < |out| :: out[i].key == key
  }

  ghost predicate RenderedUpTo(matched: seq<Matched>, base: seq<Member>, own: seq<string>, out: seq<Rendering>, n: nat)
    requires n <= |matched|
  {
    && KeepsApart(own, base, out)
    && ExplicitOnlyWhenForced(own, base, out)
    && (forall i | 0 <= i < |out| :: Faithful(matched, out[i]) && PublicIsNew(base, own, out[i]))
    && (forall i | 0 <= i < n :: HasKey(out, KeyOf(matched[i].candidate)))
  }

  /** The names and signatures the loop collects. */
  ghost predicate Collected(
      base: seq<Member>, own: seq<string>, out: seq<Rendering>, signatures: seq<Signature>, names: seq<string>,
      otherNames: seq<string>, done: seq<Key>) {
    && (forall sig :: sig in signatures <==> HasSignature(base, out, sig))
    && (forall name :: name in names <==> HasName(own, base, out, name))
    && (forall name :: name in otherNames <==> HasOtherName(own, base, out, name))
    && (forall key :: key in done <==> HasKey(out, key))
  }

  method Collect(
      base: seq<Member>, own: seq<string>)
    returns (signatures: seq<Signature>, names: seq<string>, otherNames: seq<string>)
    ensures Collected(base, own, [], signatures, names, otherNames, [])
  {
    signatures, names, otherNames := [], own, own;
    for i := 0 to |base|
      invariant forall sig :: sig in signatures <==> HasSignature(base[..i], [], sig)
      invariant forall name :: name in names <==> HasName(own, base[..i], [], name)
      invariant forall name :: name in otherNames <==> HasOtherName(own, base[..i], [], name)
    {
      var member := base[i];
      BaseGrows(base, own, i);
      names := names + [member.name];
      if member.kind == AMethod {
        signatures := signatures + [SignatureOf(member)];
      } else {
        otherNames := otherNames + [member.name];
      }
    }
    assert base[..|base|] == base;
  }

  lemma {:induction false} BaseGrows(base: seq<Member>, own: seq<string>, n: nat)
    requires n < |base|
    ensures forall sig :: HasSignature(base[..n + 1], [], sig) <==>
        HasSignature(base[..n], [], sig) || (base[n].kind == AMethod && SignatureOf(base[n]) == sig)
    ensures forall name :: HasName(own, base[..n + 1], [], name) <==>
        HasName(own, base[..n], [], name) || base[n].name == name
    ensures forall name :: HasOtherName(own, base[..n + 1], [], name) <==>
        HasOtherName(own, base[..n], [], name) || (base[n].kind != AMethod && base[n].name == name)
  {
    BaseGrowsBy(base[..n], own, base[n]);
    assert base[..n + 1] == base[..n] + [base[n]];
  }

  lemma {:induction false} BaseGrowsBy(base: seq<Member>, own: seq<string>, m: Member)
    ensures forall sig :: HasSignature(base + [m], [], sig) <==>
        HasSignature(base, [], sig) || (m.kind == AMethod && SignatureOf(m) == sig)
    ensures forall name :: HasName(own, base + [m], [], name) <==> HasName(own, base, [], name) || m.name == name
    ensures forall name :: HasOtherName(own, base + [m], [], name) <==>
        HasOtherName(own, base, [], name) || (m.kind != AMethod && m.name == name)
  {
    var next := base + [m];
    assert forall i | 0 <= i < |base| :: next[i] == base[i];
    assert next[|base|] == m;
  }

  lemma {:induction false} OutGrows(base: seq<Member>, own: seq<string>, out: seq<Rendering>, r: Rendering)
    ensures forall sig :: HasSignature(base, out + [r], sig) <==>
        HasSignature(base, out, sig) || (IsMethod(r) && r.form == PublicOwn && SignatureOf(r.member) == sig)
    ensures forall name :: HasName(own, base, out + [r], name) <==>
        HasName(own, base, out, name) || (r.form == PublicOwn && r.member.name == name)
    ensures forall name :: HasOtherName(own, base, out + [r], name) <==>
        HasOtherName(own, base, out, name) || (!IsMethod(r) && r.form == PublicOwn && r.member.name == name)
    ensures forall key :: HasKey(out + [r], key) <==> HasKey(out, key) || r.key == key
  {
    var next := out + [r];
    assert forall i | 0 <= i < |out| :: next[i] == out[i];
    assert next[|out|] == r;
  }

  /** The form `member` may take after `out`: an override of a base's, and for an
      interface's public exactly where it repeats nothing. */
  ghost predicate MayTake(
      base: seq<Member>, own: seq<string>, out: seq<Rendering>, member: Member, interface: Option<string>, form: Form)
    {
    && (form == Override <==> interface.None?)
    && (interface.Some? && member.kind == AMethod ==>
          (form == PublicOwn <==>
           && !Constrained(member) && !HasSignature(base, out, SignatureOf(member))
           && !HasOtherName(own, base, out, member.name)))
    && (interface.Some? && member.kind != AMethod ==> (form == PublicOwn <==> !HasName(own, base, out, member.name)))
  }

  /** What holds of a declaration when it is added. */
  ghost predicate MayBeAdded(
      matched: seq<Matched>, base: seq<Member>, own: seq<string>, out: seq<Rendering>, r: Rendering) {
    && !HasKey(out, r.key)
    && Faithful(matched, r)
    && MayTake(base, own, out, r.member, r.found.candidate.interface, r.form)
  }

  /** Picks the form of a member and records what it takes. */
  method Choose(ghost base: seq<Member>, ghost own: seq<string>, ghost out: seq<Rendering>, ghost done: seq<Key>,
                member: Member, interface: Option<string>, signatures: seq<Signature>, names: seq<string>,
                  otherNames: seq<string>)
    returns (form: Form, signatures': seq<Signature>, names': seq<string>, otherNames': seq<string>)
    requires Collected(base, own, out, signatures, names, otherNames, done)
    ensures MayTake(base, own, out, member, interface, form)
    ensures forall r: Rendering :: r.member == member && r.form == form ==>
              Collected(base, own, out + [r], signatures', names', otherNames', done + [r.key])
  {
    form, signatures', names', otherNames' := Explicit, signatures, names, otherNames;
    if member.kind == AMethod {
      var sig := SignatureOf(member);
      if interface.None? {
        form := Override;
      } else if !Constrained(member) && sig !in signatures && member.name !in otherNames {
        signatures' := signatures + [sig];
        names' := names + [member.name];
        form := PublicOwn;
      }
    } else {
      if interface.None? {
        form := Override;
      } else if member.name !in names {
        names' := names + [member.name];
        otherNames' := otherNames + [member.name];
        form := PublicOwn;
      }
    }
    forall r: Rendering | r.member == member && r.form == form
      ensures Collected(base, own, out + [r], signatures', names', otherNames', done + [r.key])
    {
      OutGrows(base, own, out, r);
    }
  }

  /** A public declaration repeats nothing of the base or of the class, and no method with
      a constraint is one. */
  ghost predicate PublicIsNew(base: seq<Member>, own: seq<string>, r: Rendering) {
    r.form == PublicOwn ==>
      && r.member.name !in own
      && (IsMethod(r) ==> forall k | 0 <= k < |r.member.typeParams| :: !r.member.typeParams[k].constrained)
      && (!IsMethod(r) ==> forall k | 0 <= k < |base| :: base[k].name != r.member.name)
      && (IsMethod(r) ==> forall k | 0 <= k < |base| && base[k].kind == AMethod ::
         SignatureOf(base[k]) != SignatureOf(r.member))
  }

  /** `r` repeats no key, signature or name `q` has. */
  ghost predicate Apart(q: Rendering, r: Rendering) {
    && q.key != r.key
    && (Shown(q) && Shown(r) && IsMethod(q) && IsMethod(r) ==> SignatureOf(q.member) != SignatureOf(r.member))
    && (!IsMethod(q) && q.form == PublicOwn && Shown(r) ==> q.member.name != r.member.name)
    && (!IsMethod(r) && r.form == PublicOwn && Shown(q) ==> q.member.name != r.member.name)
  }

  lemma {:induction false} AddingKeeps(
      matched: seq<Matched>, base: seq<Member>, own: seq<string>, out: seq<Rendering>, r: Rendering)
    requires BaseIsRead(base, matched) && KeepsApart(own, base, out) && MayBeAdded(matched, base, own, out, r)
    requires forall i | 0 <= i < |out| :: Faithful(matched, out[i]) && PublicIsNew(base, own, out[i])
    ensures KeepsApart(own, base, out + [r]) && PublicIsNew(base, own, r)
  {
    assert forall i | 0 <= i < |out| :: Apart(out[i], r);
    ApartTogether(own, base, out, r);
  }

  lemma {:induction false} ApartTogether(own: seq<string>, base: seq<Member>, out: seq<Rendering>, r: Rendering)
    requires KeepsApart(own, base, out) && forall i | 0 <= i < |out| :: Apart(out[i], r)
    requires r.form == PublicOwn ==> r.member.name !in own
    ensures KeepsApart(own, base, out + [r])
  {
    var next := out + [r];
    forall i, j | 0 <= i < j < |next| ensures Apart(next[i], next[j]) {
      if j == |out| {
        assert Apart(out[i], r);
      }
    }
  }

  lemma {:induction false} AddingKeepsForced(base: seq<Member>, own: seq<string>, out: seq<Rendering>, r: Rendering)
    requires ExplicitOnlyWhenForced(own, base, out)
    requires r.form == Explicit ==>
               if IsMethod(r) then (exists k | 0 <= k < |r.member.typeParams| :: r.member.typeParams[k].constrained) ||
                 HasSignature(base, out, SignatureOf(r.member)) ||
                 HasOtherName(own, base, out, r.member.name)
               else HasName(own, base, out, r.member.name)
    ensures ExplicitOnlyWhenForced(own, base, out + [r])
  {
    var next := out + [r];
    assert forall i | 0 <= i < |out| :: next[..i] == out[..i];
    assert next[..|out|] == out;
  }

  /** The declarations of one target: one for each matched key, none repeating
      another's signature or name, explicit only where it has to be. */
  method Render(matched: seq<Matched>, base: seq<Member>, own: seq<string>) returns (out: seq<Rendering>)
    requires BaseIsRead(base, matched)
    ensures KeepsApart(own, base, out)
    ensures ExplicitOnlyWhenForced(own, base, out)
    ensures forall i | 0 <= i < |out| :: Faithful(matched, out[i]) && PublicIsNew(base, own, out[i])
    ensures forall i | 0 <= i < |matched| :: HasKey(out, KeyOf(matched[i].candidate))
  {
    var signatures, names, otherNames := Collect(base, own);
    var done: seq<Key> := [];
    out := [];
    for n := 0 to |matched|
      invariant RenderedUpTo(matched, base, own, out, n)
      invariant Collected(base, own, out, signatures, names, otherNames, done)
    {
      var found := matched[n];
      var key := KeyOf(found.candidate);
      if key in done {
        continue;
      }
      var member := found.candidate.member;
      var getter, setter: Option<Matched> := None, None;
      if member.kind != AMethod {
        getter, setter := FirstPart(matched, key, TheGetter), FirstPart(matched, key, TheSetter);
      }
      var form;
      form, signatures, names,
        otherNames := Choose(base, own, out, done, member, found.candidate.interface, signatures, names, otherNames);
      var r := Rendering(key, member, form, found, getter, setter);
      FirstOfKeyIs(matched, key, n);
      assert MayBeAdded(matched, base, own, out, r);
      OneMoreRendered(matched, base, own, out, n, r);
      done := done + [key];
      out := out + [r];
    }
  }

  lemma {:induction false} OneMoreRendered(
      matched: seq<Matched>, base: seq<Member>, own: seq<string>, out: seq<Rendering>, n: nat, r: Rendering)
    requires BaseIsRead(base, matched) && n < |matched| && RenderedUpTo(matched, base, own, out, n)
    requires MayBeAdded(matched, base, own, out, r) && r.key == KeyOf(matched[n].candidate)
    ensures RenderedUpTo(matched, base, own, out + [r], n + 1)
  {
    AddingKeeps(matched, base, own, out, r);
    AddingKeepsForced(base, own, out, r);
    KeysGrow(out, r);
  }

  lemma {:induction false} KeysGrow(out: seq<Rendering>, r: Rendering)
    ensures forall key :: HasKey(out, key) || r.key == key ==> HasKey(out + [r], key)
  {
    var next := out + [r];
    assert forall i | 0 <= i < |out| :: next[i] == out[i];
    assert next[|out|] == r;
  }

  // ----- both accessors of a property land in one declaration -----

  lemma {:induction false} FirstPartFinds(matched: seq<Matched>, key: Key, part: Part, i: nat)
    requires i < |matched| && KeyOf(matched[i].candidate) == key && matched[i].part == part
    ensures FirstPart(matched, key, part).Some?
    ensures var e := FirstPart(matched, key, part).value; e in matched && KeyOf(e.candidate) == key && e.part == part
    decreases |matched|
  {
    if !(KeyOf(matched[0].candidate) == key && matched[0].part == part) {
      FirstPartFinds(matched[1..], key, part, i - 1);
    }
  }

  /** Whatever declarations `Render` gives, a matched getter and a matched setter of
      one key are in the same one, if and only if the first match of the key is not a
      method: a method of that key would be declared in their place. */
  lemma {:induction false} AccessorsLandTogether(matched: seq<Matched>, out: seq<Rendering>, g: nat, s: nat)
    requires forall i | 0 <= i < |out| :: Faithful(matched, out[i])
    requires forall i | 0 <= i < |matched| :: HasKey(out, KeyOf(matched[i].candidate))
    requires g < |matched| && s < |matched| && KeyOf(matched[g].candidate) == KeyOf(matched[s].candidate)
    requires matched[g].part == TheGetter && matched[s].part == TheSetter
    ensures FirstOfKey(matched, KeyOf(matched[g].candidate)).Some?
    ensures FirstOfKey(matched, KeyOf(matched[g].candidate)).value.candidate.member.kind != AMethod <==>
            exists i | 0 <= i < |out| ::
              out[i].key == KeyOf(matched[g].candidate) && out[i].getter.Some? && out[i].setter.Some?
  {
    var key := KeyOf(matched[g].candidate);
    var i :| 0 <= i < |out| && out[i].key == key;
    FirstPartFinds(matched, key, TheGetter, g);
    FirstPartFinds(matched, key, TheSetter, s);
  }
}
