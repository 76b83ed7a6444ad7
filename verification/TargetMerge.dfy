/** One text for both targets: `both` and the members `merge` writes in
    crates/cargo-pwrs/src/bases.rs, and the attribute lines `resolve` and `before`
    write in crates/cargo-pwrs/src/passthrough.rs. */
module TargetMerge {
  import opened Results
  import opened CSharpLines
  import opened RenderMembers

  /** A member's key, the same on every target that has it, and its text on one. */
  datatype Piece = Piece(key: Key, text: string)

  // ----- one member -----

  /** `a` for code the same on both targets, else each under its condition. */
  function Both(a: string, b: string): string {
    if a == b then a else IF_NET + "\n" + a + (ELSE + "\n") + b + (ENDIF + "\n")
  }

  function OnOne(condition: string, a: string): string {
    condition + "\n" + a + (ENDIF + "\n")
  }

  function MemberText(a: Option<string>, b: Option<string>): string {
    match (a, b)
    case (Some(x), Some(y)) => Both(x, y)
    case (Some(x), None) => OnOne(IF_NET, x)
    case (None, Some(y)) => OnOne(IF_NOT_NET, y)
    case (None, None) => []
  }

  function OrNothing(a: Option<string>): string {
    if a.Some? then a.value else []
  }

  ghost predicate PlainIfAny(a: Option<string>) {
    a.Some? ==> Plain(a.value)
  }

  lemma {:induction false} LinesOfBoth(a: string, b: string)
    requires Plain(a) && Plain(b) && a != b
    ensures Whole(Both(a, b))
    ensures Lines(Both(a, b)) == [IF_NET] + (Lines(a) + ([ELSE] + (Lines(b) + [ENDIF])))
  {
    var i, e, f := IF_NET + "\n", ELSE + "\n", ENDIF + "\n";
    OneLine(IF_NET);
    OneLine(ELSE);
    OneLine(ENDIF);
    LinesJoin(b, f);
    LinesJoin(e, b + f);
    LinesJoin(a, e + (b + f));
    LinesJoin(i, a + (e + (b + f)));
    Regrouped(i, a, e, b, f);
  }

  lemma {:induction false} Regrouped(i: string, a: string, e: string, b: string, f: string)
    ensures i + a + e + b + f == i + (a + (e + (b + f)))
  {
    assert i + a + e + b + f == i + (a + e + b + f);
    assert a + e + b + f == a + (e + b + f);
    assert e + b + f == e + (b + f);
  }

  lemma {:induction false} LinesOfOne(condition: string, a: string)
    requires Plain(a) && '\n' !in condition
    ensures Whole(OnOne(condition, a))
    ensures Lines(OnOne(condition, a)) == [condition] + (Lines(a) + [ENDIF])
  {
    var i, f := condition + "\n", ENDIF + "\n";
    OneLine(condition);
    OneLine(ENDIF);
    LinesJoin(a, f);
    LinesJoin(i, a + f);
    assert OnOne(condition, a) == i + (a + f);
  }

  lemma {:induction false} BothMeans(a: string, b: string, net: bool)
    requires Plain(a) && Plain(b)
    ensures Means(Both(a, b), net, if net then a else b)
  {
    if a == b {
      PlainMeansItself(a, net);
    } else {
      LinesOfBoth(a, b);
      forall rest, open
        ensures Compiled(Lines(Both(a, b)) + rest, net, open) ==
            Put(if Live(open) then (if net then a else b) else [], Compiled(rest, net, open))
      {
        BothCompiles(a, b, rest, net, open);
      }
    }
  }

  lemma {:induction false} BothCompiles(a: string, b: string, rest: seq<string>, net: bool, open: seq<Branch>)
    requires Plain(a) && Plain(b) && a != b
    ensures Compiled(Lines(Both(a, b)) + rest, net, open) ==
        Put(if Live(open) then (if net then a else b) else [], Compiled(rest, net, open))
  {
    LinesOfBoth(a, b);
    IfElseCompiles(a, b, rest, net, open);
    RestAfterBoth(IF_NET, Lines(a), ELSE, Lines(b), ENDIF, rest);
  }

  lemma {:induction false} RestAfterBoth(
      i: string, a: seq<string>, e: string, b: seq<string>, f: string, rest: seq<string>)
    ensures [i] + (a + ([e] + (b + [f]))) + rest == [i] + (a + ([e] + (b + ([f] + rest))))
  {
    assert [i] + (a + ([e] + (b + [f]))) + rest == [i] + (a + ([e] + (b + [f])) + rest);
    assert a + ([e] + (b + [f])) + rest == a + ([e] + (b + [f]) + rest);
    assert [e] + (b + [f]) + rest == [e] + (b + [f] + rest);
    assert b + [f] + rest == b + ([f] + rest);
  }

  lemma {:induction false} OneMeans(condition: string, on: bool, a: string, net: bool)
    requires Plain(a) && DirectiveOf(condition) == If(on) && '\n' !in condition
    ensures Means(OnOne(condition, a), net, if on == net then a else [])
  {
    LinesOfOne(condition, a);
    forall rest, open
      ensures Compiled(Lines(OnOne(condition, a)) + rest, net, open) ==
          Put(if Live(open) && on == net then a else [], Compiled(rest, net, open))
    {
      IfAloneCompiles(condition, on, a, rest, net, open);
      assert [condition] + (Lines(a) + [ENDIF]) + rest == [condition] + (Lines(a) + ([ENDIF] + rest));
    }
  }

  /** Each target compiles its own text of a member. */
  lemma {:induction false} MemberMeans(a: Option<string>, b: Option<string>, net: bool)
    requires PlainIfAny(a) && PlainIfAny(b)
    ensures Means(MemberText(a, b), net, OrNothing(if net then a else b))
  {
    match (a, b)
    case (Some(x), Some(y)) => BothMeans(x, y, net);
    case (Some(x), None) => OneMeans(IF_NET, true, x, net);
    case (None, Some(y)) => OneMeans(IF_NOT_NET, false, y, net);
    case (None, None) => NothingMeansNothing(net);
  }

  // ----- all members -----

  function Find(pieces: seq<Piece>, key: Key): Option<string> {
    if pieces == [] then None
    else if pieces[0].key == key then Some(pieces[0].text)
    else Find(pieces[1..], key)
  }

  /** The keys of the first `n` pieces, each once, in the order they come. */
  function Keys(pieces: seq<Piece>, n: nat): seq<Key>
    requires n <= |pieces|
  {
    if n == 0 then []
    else
      var before := Keys(pieces, n - 1);
      if pieces[n - 1].key in before then before else before + [pieces[n - 1].key]
  }

  function TextsOf(keys: seq<Key>, net: seq<Piece>, standard: seq<Piece>, n: nat): string
    requires n <= |keys|
  {
    if n == 0 then []
    else TextsOf(keys, net, standard, n - 1) + MemberText(Find(net, keys[n - 1]), Find(standard, keys[n - 1]))
  }

  function Merged(net: seq<Piece>, standard: seq<Piece>): string {
    var keys := Keys(net + standard, |net + standard|);
    TextsOf(keys, net, standard, |keys|)
  }

  method FindText(pieces: seq<Piece>, key: Key) returns (text: Option<string>)
    ensures text == Find(pieces, key)
  {
    assert pieces[0..] == pieces;
    for i := 0 to |pieces|
      invariant Find(pieces, key) == Find(pieces[i..], key)
    {
      assert pieces[i..][1..] == pieces[i + 1..];
      if pieces[i].key == key {
        return Some(pieces[i].text);
      }
    }
    return None;
  }

  method CollectKeys(pieces: seq<Piece>) returns (keys: seq<Key>)
    ensures keys == Keys(pieces, |pieces|)
  {
    keys := [];
    for i := 0 to |pieces|
      invariant keys == Keys(pieces, i)
    {
      if pieces[i].key !in keys {
        keys := keys + [pieces[i].key];
      }
    }
  }

  method Merge(net: seq<Piece>, standard: seq<Piece>) returns (members: string)
    ensures members == Merged(net, standard)
  {
    var keys := CollectKeys(net + standard);
    members := [];
    for i := 0 to |keys|
      invariant members == TextsOf(keys, net, standard, i)
    {
      var a := FindText(net, keys[i]);
      var b := FindText(standard, keys[i]);
      members := members + MemberText(a, b);
    }
  }

  ghost predicate Distinct(pieces: seq<Piece>) {
    forall i, j | 0 <= i < j < |pieces| :: pieces[i].key != pieces[j].key
  }

  ghost predicate AllPlain(pieces: seq<Piece>) {
    forall i | 0 <= i < |pieces| :: Plain(pieces[i].text)
  }

  function Concat(pieces: seq<Piece>): string {
    if pieces == [] then [] else Concat(pieces[..|pieces| - 1]) + pieces[|pieces| - 1].text
  }

  /** The pieces of one target at the first `n` keys. */
  function At(keys: seq<Key>, pieces: seq<Piece>, n: nat): seq<Piece>
    requires n <= |keys|
  {
    if n == 0 then []
    else
      var found := Find(pieces, keys[n - 1]);
      At(keys, pieces, n - 1) + if found.Some? then [Piece(keys[n - 1], found.value)] else []
  }

  lemma {:induction false} FindIs(pieces: seq<Piece>, key: Key)
    ensures Find(pieces, key).Some? <==> exists i | 0 <= i < |pieces| :: pieces[i].key == key
    ensures Find(pieces, key).Some? ==> Piece(key, Find(pieces, key).value) in pieces
  {
    if pieces != [] && pieces[0].key != key {
      FindIs(pieces[1..], key);
      assert forall i | 1 <= i < |pieces| :: pieces[i] == pieces[1..][i - 1];
    }
  }

  lemma {:induction false} FindPlain(pieces: seq<Piece>, key: Key)
    requires AllPlain(pieces)
    ensures PlainIfAny(Find(pieces, key))
  {
    FindIs(pieces, key);
  }

  lemma {:induction false} FindOwn(pieces: seq<Piece>, i: nat)
    requires Distinct(pieces) && i < |pieces|
    ensures Find(pieces, pieces[i].key) == Some(pieces[i].text)
  {
    if i > 0 {
      FindOwn(pieces[1..], i - 1);
    }
  }

  lemma {:induction false} TextsMean(keys: seq<Key>, net: seq<Piece>, standard: seq<Piece>, n: nat, on: bool)
    requires n <= |keys| && AllPlain(net) && AllPlain(standard)
    ensures Means(TextsOf(keys, net, standard, n), on, Concat(At(keys, if on then net else standard, n)))
  {
    if n == 0 {
      NothingMeansNothing(on);
    } else {
      TextsMean(keys, net, standard, n - 1, on);
      OneMoreMeans(keys, net, standard, n, on);
    }
  }

  lemma {:induction false} OneMoreMeans(keys: seq<Key>, net: seq<Piece>, standard: seq<Piece>, n: nat, on: bool)
    requires 0 < n <= |keys| && AllPlain(net) && AllPlain(standard)
    requires Means(TextsOf(keys, net, standard, n - 1), on, Concat(At(keys, if on then net else standard, n - 1)))
    ensures Means(TextsOf(keys, net, standard, n), on, Concat(At(keys, if on then net else standard, n)))
  {
    var a, b := Find(net, keys[n - 1]), Find(standard, keys[n - 1]);
    FindPlain(net, keys[n - 1]);
    FindPlain(standard, keys[n - 1]);
    MemberMeans(a, b, on);
    JoinedMeans(TextsOf(keys, net, standard, n - 1), Concat(At(keys, if on then net else standard, n - 1)),
      MemberText(a, b), OrNothing(if on then a else b), on);
    ConcatAt(keys, if on then net else standard, n);
  }

  lemma {:induction false} ConcatAt(keys: seq<Key>, pieces: seq<Piece>, n: nat)
    requires 0 < n <= |keys|
    ensures Concat(At(keys, pieces, n)) == Concat(At(keys, pieces, n - 1)) + OrNothing(Find(pieces, keys[n - 1]))
  {
    var before, found := At(keys, pieces, n - 1), Find(pieces, keys[n - 1]);
    if found.Some? {
      assert (before + [Piece(keys[n - 1], found.value)])[..|before|] == before;
    } else {
      assert before + [] == before && Concat(before) + [] == Concat(before);
    }
  }

  // ----- which pieces those are -----

  lemma {:induction false} KeysAre(pieces: seq<Piece>, n: nat)
    requires n <= |pieces|
    ensures forall i, j | 0 <= i < j < |Keys(pieces, n)| :: Keys(pieces, n)[i] != Keys(pieces, n)[j]
    ensures forall i | 0 <= i < n :: pieces[i].key in Keys(pieces, n)
  {
    if n > 0 {
      KeysAre(pieces, n - 1);
    }
  }

  lemma {:induction false} KeysBeginWithFirst(net: seq<Piece>, standard: seq<Piece>, n: nat)
    requires Distinct(net) && n <= |net + standard|
    ensures var keys := Keys(net + standard, n);
            if n <= |net| then |keys| == n && forall i | 0 <= i < n :: keys[i] == net[i].key
            else |keys| >= |net| && (forall i | 0 <= i < |net| :: keys[i] == net[i].key)
  {
    if n > 0 {
      KeysBeginWithFirst(net, standard, n - 1);
      if n <= |net| {
        assert (net + standard)[n - 1] == net[n - 1];
      }
    }
  }

  lemma {:induction false} FirstComeInOrder(keys: seq<Key>, pieces: seq<Piece>, n: nat)
    requires Distinct(pieces) && |pieces| <= |keys| && n <= |keys|
    requires forall i | 0 <= i < |pieces| :: keys[i] == pieces[i].key
    requires forall i, j | 0 <= i < j < |keys| :: keys[i] != keys[j]
    ensures At(keys, pieces, n) == if n <= |pieces| then pieces[..n] else pieces
  {
    if n > 0 {
      FirstComeInOrder(keys, pieces, n - 1);
      if n <= |pieces| {
        FindOwn(pieces, n - 1);
        assert pieces[..n] == pieces[..n - 1] + [pieces[n - 1]];
      } else {
        FindIs(pieces, keys[n - 1]);
        assert pieces + [] == pieces;
      }
    }
  }

  /** Each piece whose key is among the first `n` is there once. */
  lemma {:induction false} AtHasEach(keys: seq<Key>, pieces: seq<Piece>, n: nat, p: Piece)
    requires Distinct(pieces) && n <= |keys|
    requires forall i, j | 0 <= i < j < |keys| :: keys[i] != keys[j]
    ensures multiset(At(keys, pieces, n))[p] == if p in pieces && p.key in keys[..n] then 1 else 0
  {
    if n > 0 {
      AtHasEach(keys, pieces, n - 1, p);
      var key := keys[n - 1];
      assert keys[..n] == keys[..n - 1] + [key];
      FindIs(pieces, key);
      if p in pieces && p.key == key {
        var i :| 0 <= i < |pieces| && pieces[i] == p;
        FindOwn(pieces, i);
      }
    }
  }

  lemma {:induction false} EachOnce(pieces: seq<Piece>, p: Piece)
    requires Distinct(pieces)
    ensures multiset(pieces)[p] == if p in pieces then 1 else 0
  {
    if pieces != [] {
      EachOnce(pieces[1..], p);
      assert pieces == [pieces[0]] + pieces[1..];
    }
  }

  lemma {:induction false} SecondIsPermuted(keys: seq<Key>, pieces: seq<Piece>)
    requires Distinct(pieces)
    requires forall i, j | 0 <= i < j < |keys| :: keys[i] != keys[j]
    requires forall i | 0 <= i < |pieces| :: pieces[i].key in keys
    ensures multiset(At(keys, pieces, |keys|)) == multiset(pieces)
  {
    var at := At(keys, pieces, |keys|);
    assert keys[..|keys|] == keys;
    forall p: Piece ensures multiset(at)[p] == multiset(pieces)[p] {
      AtHasEach(keys, pieces, |keys|, p);
      EachOnce(pieces, p);
    }
    assert forall p: Piece :: multiset(at)[p] == multiset(pieces)[p];
  }

  /** netstandard2.0's pieces as the merged text orders them: at net10.0's keys first. */
  function StandardOrder(net: seq<Piece>, standard: seq<Piece>): seq<Piece> {
    var keys := Keys(net + standard, |net + standard|);
    At(keys, standard, |keys|)
  }

  /** The merge keeps the meaning on both targets: with NET defined the merged text is
      net10.0's pieces in order, and without it a permutation of netstandard2.0's. */
  lemma {:induction false} MergeKeepsMeaning(net: seq<Piece>, standard: seq<Piece>)
    requires Distinct(net) && Distinct(standard) && AllPlain(net) && AllPlain(standard)
    ensures Preprocessed(Merged(net, standard), true) == Some(Concat(net))
    ensures Preprocessed(Merged(net, standard), false) == Some(Concat(StandardOrder(net, standard)))
    ensures multiset(StandardOrder(net, standard)) == multiset(standard)
  {
    var all := net + standard;
    var keys := Keys(all, |all|);
    PiecesAtKeys(net, standard);
    TextsMean(keys, net, standard, |keys|, true);
    MeansWhatIsPreprocessed(Merged(net, standard), true, Concat(net));
    TextsMean(keys, net, standard, |keys|, false);
    MeansWhatIsPreprocessed(Merged(net, standard), false, Concat(StandardOrder(net, standard)));
  }

  lemma {:induction false} PiecesAtKeys(net: seq<Piece>, standard: seq<Piece>)
    requires Distinct(net) && Distinct(standard)
    ensures var keys := Keys(net + standard, |net + standard|);
            At(keys, net, |keys|) == net && multiset(At(keys, standard, |keys|)) == multiset(standard)
  {
    var all := net + standard;
    var keys := Keys(all, |all|);
    KeysAre(all, |all|);
    KeysBeginWithFirst(net, standard, |all|);
    FirstComeInOrder(keys, net, |keys|);
    assert net[..|net|] == net;
    forall i | 0 <= i < |standard| ensures standard[i].key in keys {
      assert all[|net| + i] == standard[i];
    }
    SecondIsPermuted(keys, standard);
  }

  /** Two pieces of one key need more: the second text of a key is lost. */
  lemma {:induction false} RepeatedKeyLosesText(key: Key, a: string, b: string)
    requires Plain(a) && Plain(b)
    ensures Preprocessed(Merged([Piece(key, a), Piece(key, b)], []), true) == Some(a)
    ensures Concat([Piece(key, a), Piece(key, b)]) == a + b
  {
    var net := [Piece(key, a), Piece(key, b)];
    OneKeyTwice(key, a, b);
    ConcatOfTwo(Piece(key, a), Piece(key, b));
    TextsMean([key], net, [], 1, true);
    MeansWhatIsPreprocessed(Merged(net, []), true, a);
  }

  lemma {:induction false} ConcatOfTwo(p: Piece, q: Piece)
    ensures Concat([p]) == p.text && Concat([p, q]) == p.text + q.text
  {
    assert [p][..0] == [] && [p, q][..1] == [p];
    assert [] + p.text == p.text;
  }

  lemma {:induction false} OneKeyTwice(key: Key, a: string, b: string)
    ensures var net := [Piece(key, a), Piece(key, b)];
            Merged(net, []) == TextsOf([key], net, [], 1) && At([key], net, 1) == [Piece(key, a)]
  {
    var net := [Piece(key, a), Piece(key, b)];
    assert net + [] == net;
    assert Keys(net, 0) == [];
    assert Keys(net, 1) == [key];
    assert Keys(net, 2) == [key];
  }

  // ----- attribute lines -----

  /** One attribute as each shell renders it: net10.0's, netstandard2.0's. */
  datatype Rendered = Rendered(core: Option<string>, desktop: Option<string>)

  /** The lines of one attribute that some shell has. */
  function AttributeLines(r: Rendered): seq<string> {
    match (r.core, r.desktop)
    case (Some(core), Some(desktop)) => if core == desktop then [core] else [IF_NET, core, ELSE, desktop, ENDIF]
    case (Some(only), None) => [IF_NET, only, ENDIF]
    case (None, Some(only)) => [IF_NOT_NET, only, ENDIF]
    case (None, None) => []
  }

  function SiteLines(rendered: seq<Rendered>, n: nat): seq<string>
    requires n <= |rendered|
  {
    if n == 0 then [] else SiteLines(rendered, n - 1) + AttributeLines(rendered[n - 1])
  }

  /** The first attribute neither shell has refuses the site. */
  method Resolve(rendered: seq<Rendered>) returns (r: Result<seq<string>, nat>)
    ensures r.Ok? <==> forall i | 0 <= i < |rendered| :: rendered[i].core.Some? || rendered[i].desktop.Some?
    ensures r.Ok? ==> r.value == SiteLines(rendered, |rendered|)
    ensures r.Err? ==> r.error < |rendered| && rendered[r.error] == Rendered(None, None)
                       && forall i | 0 <= i < r.error :: rendered[i] != Rendered(None, None)
  {
    var lines: seq<string> := [];
    for i := 0 to |rendered|
      invariant lines == SiteLines(rendered, i)
      invariant forall k | 0 <= k < i :: rendered[k].core.Some? || rendered[k].desktop.Some?
    {
      if rendered[i].core.None? && rendered[i].desktop.None? {
        return Err(i);
      }
      lines := lines + AttributeLines(rendered[i]);
    }
    return Ok(lines);
  }

  function BeforeLine(line: string, indent: string): string {
    if line != [] && line[0] == '#' then line + "\n" else indent + line + "\n"
  }

  /** The lines before a member: each attribute after `indent`, each directive at the
      start of its line. */
  function Before(lines: seq<string>, indent: string): string {
    if lines == [] then [] else Before(lines[..|lines| - 1], indent) + BeforeLine(lines[|lines| - 1], indent)
  }

  /** An attribute's text: no directive, and no line of it one once indented. */
  ghost predicate PlainAttribute(a: Option<string>, indent: string) {
    a.Some? ==> a.value != [] && a.value[0] != '#' && Plain(indent + a.value + "\n")
  }

  function Indented(a: Option<string>, indent: string): Option<string> {
    if a.Some? then Some(indent + a.value + "\n") else None
  }

  /** The attributes one shell has, as they are written there. */
  function Shell(rendered: seq<Rendered>, net: bool, indent: string, n: nat): string
    requires n <= |rendered|
  {
    if n == 0 then []
    else Shell(rendered, net, indent, n - 1) + OnShell(rendered[n - 1], net, indent)
  }

  lemma {:induction false} BeforeJoins(a: seq<string>, b: seq<string>, indent: string)
    ensures Before(a + b, indent) == Before(a, indent) + Before(b, indent)
  {
    if b == [] {
      assert a + b == a && Before(a, indent) + [] == Before(a, indent);
    } else {
      var init, last := b[..|b| - 1], b[|b| - 1];
      assert (a + b)[..|a + b| - 1] == a + init;
      BeforeJoins(a, init, indent);
      assert Before(a, indent) + Before(init, indent) + BeforeLine(last, indent) ==
          Before(a, indent) + (Before(init, indent) + BeforeLine(last, indent));
    }
  }

  lemma {:induction false} BeforeOne(line: string, indent: string)
    ensures Before([line], indent) == BeforeLine(line, indent)
  {
    assert [line][..0] == [];
  }

  lemma {:induction false} BeforeThree(a: string, b: string, c: string, indent: string)
    ensures Before([a, b, c], indent) == BeforeLine(a, indent) + BeforeLine(b, indent) + BeforeLine(c, indent)
  {
    assert [a, b, c] == [a] + [b] + [c];
    BeforeJoins([a] + [b], [c], indent);
    BeforeJoins([a], [b], indent);
    BeforeOne(a, indent);
    BeforeOne(b, indent);
    BeforeOne(c, indent);
  }

  lemma {:induction false} BeforeFive(a: string, b: string, c: string, d: string, e: string, indent: string)
    ensures Before([a, b, c, d, e], indent) ==
        BeforeLine(a, indent) + BeforeLine(b, indent) + BeforeLine(c, indent) + BeforeLine(d, indent) +
          BeforeLine(e, indent)
  {
    assert [a, b, c, d, e] == [a, b, c] + [d] + [e];
    BeforeJoins([a, b, c] + [d], [e], indent);
    BeforeJoins([a, b, c], [d], indent);
    BeforeThree(a, b, c, indent);
    BeforeOne(d, indent);
    BeforeOne(e, indent);
  }

  /** An attribute's lines are the text a member of the same two texts has. */
  lemma {:induction false} AttributeIsMember(r: Rendered, indent: string)
    requires PlainAttribute(r.core, indent) && PlainAttribute(r.desktop, indent)
    ensures Before(AttributeLines(r), indent) == MemberText(Indented(r.core, indent), Indented(r.desktop, indent))
  {
    assert IF_NET[0] == '#' && IF_NOT_NET[0] == '#' && ELSE[0] == '#' && ENDIF[0] == '#';
    match (r.core, r.desktop)
    case (Some(a), Some(b)) =>
      if a == b {
        BeforeOne(a, indent);
      } else {
        BeforeFive(IF_NET, a, ELSE, b, ENDIF, indent);
        assert (indent + a + "\n")[|indent|..] == a + "\n" && (indent + b + "\n")[|indent|..] == b + "\n";
        assert (a + "\n")[..|a + "\n"| - 1] == a && (b + "\n")[..|b + "\n"| - 1] == b;
      }
    case (Some(a), None) => BeforeThree(IF_NET, a, ENDIF, indent);
    case (None, Some(b)) => BeforeThree(IF_NOT_NET, b, ENDIF, indent);
    case (None, None) =>
  }

  function OnShell(r: Rendered, net: bool, indent: string): string {
    OrNothing(Indented(if net then r.core else r.desktop, indent))
  }

  lemma {:induction false} AttributeMeans(r: Rendered, indent: string, net: bool)
    requires PlainAttribute(r.core, indent) && PlainAttribute(r.desktop, indent)
    ensures Means(Before(AttributeLines(r), indent), net, OnShell(r, net, indent))
  {
    AttributeIsMember(r, indent);
    MemberMeans(Indented(r.core, indent), Indented(r.desktop, indent), net);
  }

  lemma {:induction false} OneMoreAttribute(rendered: seq<Rendered>, indent: string, n: nat, net: bool)
    requires 0 < n <= |rendered|
    requires Means(Before(SiteLines(rendered, n - 1), indent), net, Shell(rendered, net, indent, n - 1))
    requires Means(Before(AttributeLines(rendered[n - 1]), indent), net, OnShell(rendered[n - 1], net, indent))
    ensures Means(Before(SiteLines(rendered, n), indent), net, Shell(rendered, net, indent, n))
  {
    var before, last := SiteLines(rendered, n - 1), AttributeLines(rendered[n - 1]);
    BeforeJoins(before, last, indent);
    JoinedMeans(Before(before, indent), Shell(rendered, net, indent, n - 1), Before(last, indent),
      OnShell(rendered[n - 1], net, indent), net);
  }

  lemma {:induction false} SiteMeans(rendered: seq<Rendered>, indent: string, n: nat, net: bool)
    requires n <= |rendered|
    requires forall i | 0 <= i < |rendered| ::
        PlainAttribute(rendered[i].core, indent) && PlainAttribute(rendered[i].desktop, indent)
    ensures Means(Before(SiteLines(rendered, n), indent), net, Shell(rendered, net, indent, n))
  {
    if n == 0 {
      NothingMeansNothing(net);
    } else {
      SiteMeans(rendered, indent, n - 1, net);
      AttributeMeans(rendered[n - 1], indent, net);
      OneMoreAttribute(rendered, indent, n, net);
    }
  }

  /** Each shell compiles exactly its own attributes, in order. */
  lemma {:induction false} AttributesKeepMeaning(rendered: seq<Rendered>, indent: string, net: bool)
    requires forall i | 0 <= i < |rendered| ::
        PlainAttribute(rendered[i].core, indent) && PlainAttribute(rendered[i].desktop, indent)
    ensures Preprocessed(Before(SiteLines(rendered, |rendered|), indent), net) ==
        Some(Shell(rendered, net, indent, |rendered|))
  {
    SiteMeans(rendered, indent, |rendered|, net);
    MeansWhatIsPreprocessed(Before(SiteLines(rendered, |rendered|), indent), net,
      Shell(rendered, net, indent, |rendered|));
  }
}
