/** How a class's declared text becomes its `ToString`: `show_override` of
    crates/cargo-pwrs/src/generate.rs, a compiler from a format to the arguments of
    `string.Concat`. */
module ShowOverride {
  import opened Results
  import opened CSharpLiterals

  const THIS: string := "this."

  /** What of a text comes before its first `}`. */
  function UpToBrace(s: string): (name: string)
    ensures |name| <= |s|
  {
    if s == [] || s[0] == '}' then [] else [s[0]] + UpToBrace(s[1..])
  }

  function PastBrace(s: string): (rest: string)
    ensures |rest| <= |s|
  {
    if s == [] then [] else if s[0] == '}' then s[1..] else PastBrace(s[1..])
  }

  function Flushed(text: string): seq<string> {
    if text == [] then [] else [CsStr(text)]
  }

  /** The arguments still to come, with `text` read and not yet written. */
  function PartsFrom(s: string, text: string): seq<string>
    decreases |s|
  {
    if s == [] then Flushed(text)
    else if s[0] == '{' && |s| > 1 && s[1] == '{' then PartsFrom(s[2..], text + "{")
    else if s[0] == '}' && |s| > 1 && s[1] == '}' then PartsFrom(s[2..], text + "}")
    else if s[0] == '{' then Flushed(text) + [THIS + UpToBrace(s[1..])] + PartsFrom(PastBrace(s[1..]), [])
    else PartsFrom(s[1..], text + [s[0]])
  }

  function PartsOf(show: string): seq<string> {
    var parts := PartsFrom(show, []);
    if parts == [] then [CsStr([])] else parts
  }

  /** The name of the property at `i`, and where the text goes on after its brace. */
  method TakeName(show: string, i: nat) returns (name: string, next: nat)
    requires i <= |show|
    ensures i <= next <= |show|
    ensures name == UpToBrace(show[i..]) && show[next..] == PastBrace(show[i..])
  {
    name, next := [], i;
    assert [] + UpToBrace(show[i..]) == UpToBrace(show[i..]);
    while next < |show|
      invariant i <= next <= |show|
      invariant UpToBrace(show[i..]) == name + UpToBrace(show[next..])
      invariant PastBrace(show[i..]) == PastBrace(show[next..])
    {
      var c := show[next];
      assert show[next..][0] == c && show[next..][1..] == show[next + 1..];
      next := next + 1;
      if c == '}' {
        assert name + [] == name;
        return;
      }
      name := name + [c];
    }
    assert name + [] == name;
  }

  method Compile(show: string) returns (parts: seq<string>)
    ensures parts == PartsOf(show)
  {
    parts := [];
    var text, i := "", 0;
    assert show[0..] == show;
    while i < |show|
      invariant i <= |show|
      invariant PartsFrom(show, []) == parts + PartsFrom(show[i..], text)
    {
      var c := show[i];
      PartsAt(show, i, text);
      if c == '{' && i + 1 < |show| && show[i + 1] == '{' {
        text, i := text + "{", i + 2;
      } else if c == '}' && i + 1 < |show| && show[i + 1] == '}' {
        text, i := text + "}", i + 2;
      } else if c == '{' {
        var name, next := TakeName(show, i + 1);
        ThreeJoined(parts, Flushed(text), [THIS + name], PartsFrom(show[next..], []));
        if text != [] {
          parts := parts + [CsStr(text)];
          text := [];
        }
        parts := parts + [THIS + name];
        i := next;
      } else {
        text, i := text + [c], i + 1;
      }
    }
    ghost var before := parts;
    if text != [] || parts == [] {
      parts := parts + [CsStr(text)];
    }
    assert before + [] == before;
  }

  /** One step of the loop. */
  lemma {:induction false} PartsAt(show: string, i: nat, text: string)
    requires i < |show|
    ensures PartsFrom(show[i..], text) ==
            if i + 1 < |show| && show[i] == '{' && show[i + 1] == '{' then PartsFrom(show[i + 2..], text + "{")
            else if i + 1 < |show| && show[i] == '}' && show[i + 1] == '}' then PartsFrom(show[i + 2..], text + "}")
            else if show[i] == '{'
              then Flushed(text) + [THIS + UpToBrace(show[i + 1..])] + PartsFrom(PastBrace(show[i + 1..]), [])
            else PartsFrom(show[i + 1..], text + [show[i]])
  {
    assert show[i..][1..] == show[i + 1..];
    if i + 1 < |show| {
      assert show[i..][2..] == show[i + 2..];
    }
  }

  lemma {:induction false} ThreeJoined<T>(parts: seq<T>, a: seq<T>, b: seq<T>, c: seq<T>)
    ensures parts + (a + b + c) == parts + a + b + c
    ensures a == [] ==> parts + (a + b + c) == parts + b + c
  {}

  // ----- what the compiled form gives -----

  /** One argument's value, where `property` gives each property's text. */
  function Value(part: string, property: string -> string): string {
    if |part| >= |THIS| && part[..|THIS|] == THIS then property(part[|THIS|..])
    else if StringLiteral(part).Some? then StringLiteral(part).value
    else []
  }

  /** What `string.Concat` gives. */
  function Concat(parts: seq<string>, property: string -> string): string {
    if parts == [] then [] else Value(parts[0], property) + Concat(parts[1..], property)
  }

  /** What a class's text is made of. */
  datatype Segment = Text(text: string) | Property(name: string)

  predicate BraceFree(name: string) {
    forall i | 0 <= i < |name| :: name[i] != '{' && name[i] != '}'
  }

  predicate Named(segments: seq<Segment>) {
    forall i | 0 <= i < |segments| && segments[i].Property? :: BraceFree(segments[i].name)
  }

  function Escaped(text: string): string {
    if text == [] then []
    else EscapedChar(text[0]) + Escaped(text[1..])
  }

  function DeclaredOne(segment: Segment): string {
    match segment case Text(text) => Escaped(text) case Property(name) => "{" + name + "}"
  }

  function ValueOf(segment: Segment, property: string -> string): string {
    match segment case Text(text) => text case Property(name) => property(name)
  }

  /** The declared text: braces of the text doubled, each property in braces. */
  function Declared(segments: seq<Segment>): string {
    if segments == [] then []
    else DeclaredOne(segments[0]) + Declared(segments[1..])
  }

  function Expansion(segments: seq<Segment>, property: string -> string): string {
    if segments == [] then []
    else ValueOf(segments[0], property) + Expansion(segments[1..], property)
  }

  lemma {:induction false} ConcatJoins(a: seq<string>, b: seq<string>, property: string -> string)
    ensures Concat(a + b, property) == Concat(a, property) + Concat(b, property)
  {
    if a == [] {
      assert a + b == b;
      assert Concat(a, property) + Concat(b, property) == Concat(b, property);
    } else {
      assert (a + b)[1..] == a[1..] + b;
      ConcatJoins(a[1..], b, property);
      assert Value(a[0], property) + (Concat(a[1..], property) + Concat(b, property)) ==
          Value(a[0], property) + Concat(a[1..], property) + Concat(b, property);
    }
  }

  lemma {:induction false} LiteralValue(text: string, property: string -> string)
    ensures Value(CsStr(text), property) == text
  {
    LiteralReadsBack(text);
    assert THIS[0] == 't' && CsStr(text)[0] == '@';
  }

  lemma {:induction false} FlushedValue(text: string, property: string -> string)
    ensures Concat(Flushed(text), property) == text
  {
    LiteralValue(text, property);
    if text != [] {
      assert Flushed(text)[1..] == [];
      assert text + [] == text;
    }
  }

  lemma {:induction false} PropertyValue(name: string, property: string -> string)
    ensures Concat([THIS + name], property) == property(name)
  {
    assert (THIS + name)[..|THIS|] == THIS && (THIS + name)[|THIS|..] == name;
    assert [THIS + name][1..] == [];
    assert property(name) + [] == property(name);
  }

  function EscapedChar(c: char): string {
    if c == '{' || c == '}' then [c, c] else [c]
  }

  lemma {:induction false} FirstApart(a: string, b: string, c: string)
    ensures a + b + c == a + (b + c)
  {}

  lemma {:induction false} OneEscaped(c: char, more: string, before: string)
    ensures PartsFrom(EscapedChar(c) + more, before) == PartsFrom(more, before + [c])
  {
    var s := EscapedChar(c) + more;
    assert s[|EscapedChar(c)|..] == more;
  }

  lemma {:induction false} EscapedIsText(text: string, rest: string, before: string)
    ensures PartsFrom(Escaped(text) + rest, before) == PartsFrom(rest, before + text)
    decreases |text|
  {
    if text == [] {
      assert Escaped(text) + rest == rest && before + text == before;
    } else {
      OneEscaped(text[0], Escaped(text[1..]) + rest, before);
      EscapedIsText(text[1..], rest, before + [text[0]]);
      FirstApart(EscapedChar(text[0]), Escaped(text[1..]), rest);
      FirstApart(before, [text[0]], text[1..]);
      assert [text[0]] + text[1..] == text;
    }
  }

  lemma {:induction false} NameUpToBrace(name: string, rest: string)
    requires BraceFree(name)
    ensures UpToBrace(name + "}" + rest) == name && PastBrace(name + "}" + rest) == rest
  {
    if name != [] {
      assert (name + "}" + rest)[1..] == name[1..] + "}" + rest;
      NameUpToBrace(name[1..], rest);
    }
  }

  lemma {:induction false} PropertyIsPart(name: string, rest: string, text: string)
    requires BraceFree(name)
    ensures PartsFrom("{" + name + "}" + rest, text) == Flushed(text) + [THIS + name] + PartsFrom(rest, [])
  {
    var s := "{" + name + "}" + rest;
    assert s[1..] == name + "}" + rest;
    assert s[1] == if name == [] then '}' else name[0];
    NameUpToBrace(name, rest);
  }

  lemma {:induction false} PartsExpand(segments: seq<Segment>, text: string, property: string -> string)
    requires Named(segments)
    ensures Concat(PartsFrom(Declared(segments), text), property) == text + Expansion(segments, property)
    decreases |segments|
  {
    if segments == [] {
      FlushedValue(text, property);
      assert text + [] == text;
    } else {
      var first, rest := segments[0], segments[1..];
      match first
      case Text(more) =>
        PartsExpand(rest, text + more, property);
        TextExpands(more, text, Declared(rest), Expansion(rest, property), property);
      case Property(name) =>
        PartsExpand(rest, [], property);
        PropertyIsPart(name, Declared(rest), text);
        PropertyExpands(name, text, PartsFrom(Declared(rest), []), Expansion(rest, property), property);
    }
  }

  lemma {:induction false} TextExpands(
      more: string, text: string, rest: string, expansion: string, property: string -> string)
    requires Concat(PartsFrom(rest, text + more), property) == text + more + expansion
    ensures Concat(PartsFrom(Escaped(more) + rest, text), property) == text + (more + expansion)
  {
    EscapedIsText(more, rest, text);
    assert text + more + expansion == text + (more + expansion);
  }

  lemma {:induction false} PropertyExpands(
      name: string, text: string, parts: seq<string>, expansion: string, property: string -> string)
    requires Concat(parts, property) == [] + expansion
    ensures Concat(Flushed(text) + [THIS + name] + parts, property) == text + (property(name) + expansion)
  {
    var first, this_ := Flushed(text), [THIS + name];
    ConcatJoins(first + this_, parts, property);
    ConcatJoins(first, this_, property);
    FlushedValue(text, property);
    PropertyValue(name, property);
    JoinedThrice(text, property(name), expansion);
  }

  lemma {:induction false} JoinedThrice(a: string, b: string, c: string)
    ensures a + b + ([] + c) == a + (b + c)
  {
    assert [] + c == c;
  }

  /** The compiled form gives the declared text with each property's value in its place. */
  lemma {:induction false} CompiledGivesTheExpansion(segments: seq<Segment>, property: string -> string)
    requires Named(segments)
    ensures Concat(PartsOf(Declared(segments)), property) == Expansion(segments, property)
    ensures PartsOf(Declared(segments)) != []
  {
    PartsExpand(segments, [], property);
    assert [] + Expansion(segments, property) == Expansion(segments, property);
    LiteralValue([], property);
    assert [CsStr([])][1..] == [];
  }

  lemma {:induction false} NameEndsAtItsBrace(name: string)
    requires forall k | 0 <= k < |name| :: name[k] != '}'
    ensures UpToBrace(name + "}") == name && PastBrace(name + "}") == []
  {
    if name != [] {
      assert (name + "}")[1..] == name[1..] + "}";
      NameEndsAtItsBrace(name[1..]);
    }
  }

  /** A text that is one property alone gives the object's own property. */
  lemma {:induction false} OnePropertyIsRead(name: string)
    requires name != [] && name[0] != '{' && forall k | 0 <= k < |name| :: name[k] != '}'
    ensures PartsOf("{" + name + "}") == ["this." + name]
  {
    var show := "{" + name + "}";
    assert show[1..] == name + "}" && show[1] == name[0];
    NameEndsAtItsBrace(name);
    assert Flushed([]) + [THIS + name] + PartsFrom([], []) == [THIS + name];
  }
}
