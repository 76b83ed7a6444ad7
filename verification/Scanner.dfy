/** The scan of hand-written C#: `attribute_groups_and_classes` of
    crates/cargo-pwrs/src/generate.rs. Offsets count characters. */
module Scanner {
  import opened CSharpLiterals

  predicate IsIdentByte(c: char) {
    'a' <= c <= 'z' || 'A' <= c <= 'Z' || '0' <= c <= '9' || c == '_' || c == '@'
  }

  const CLASS: string := "class"

  predicate IsWordAt(b: string, i: nat, word: string) {
    var after := i + |word|;
    && after <= |b| && b[i..after] == word
    && (i == 0 || !IsIdentByte(b[i - 1])) && (after >= |b| || !IsIdentByte(b[after]))
  }

  function LineEnd(b: string, i: nat): (r: nat)
    requires i <= |b|
    ensures i <= r <= |b|
    decreases |b| - i
  {
    if i < |b| && b[i] != '\n' then LineEnd(b, i + 1) else i
  }

  /** Where the mark that ends a block comment is, or the last place it could be. */
  function BlockEnd(b: string, i: nat): (r: nat)
    requires i <= |b|
    ensures i <= r <= |b|
    decreases |b| - i
  {
    if i + 1 < |b| && !(b[i] == '*' && b[i + 1] == '/') then BlockEnd(b, i + 1) else i
  }

  /** What is at a place that is code: a comment, a literal or a char passed over, a
      bracket, or the keyword. */
  datatype Step = Passes(next: nat) | Opens | Closes | Keyword

  function StepAt(b: string, i: nat): Step
    requires i < |b|
  {
    if b[i] == '/' && i + 1 < |b| && b[i + 1] == '/' then Passes(LineEnd(b, i + 1))
    else if b[i] == '/' && i + 1 < |b| && b[i + 1] == '*' then
      var end := BlockEnd(b, i + 2) + 2;
      Passes(if end < |b| then end else |b|)
    else if b[i] == '"' || b[i] == '\'' || (b[i] == '@' && i + 1 < |b| && b[i + 1] == '"') then Passes(LiteralEnd(b, i))
    else if b[i] == '[' then Opens
    else if b[i] == ']' then Closes
    else if IsWordAt(b, i, CLASS) then Keyword
    else Passes(i + 1)
  }

  datatype Event = Open(at: nat) | Close(at: nat) | Class(at: nat)

  /** The code brackets and `class` keywords from `i` on. */
  function Events(b: string, i: nat): seq<Event>
    decreases |b| + 1 - i
  {
    if i >= |b| then []
    else
      match StepAt(b, i)
      case Passes(next) => if i < next <= |b| + 1 then Events(b, next) else []
      case Opens => [Open(i)] + Events(b, i + 1)
      case Closes => [Close(i)] + Events(b, i + 1)
      case Keyword => [Class(i)] + Events(b, i + 5)
  }

  /** The span of a `[...]`, with both brackets. */
  datatype Group = Group(start: nat, end: nat)

  datatype Found = Found(groups: seq<Group>, classes: seq<nat>)

  function Less(depth: nat): nat {
    if depth == 0 then 0 else depth - 1
  }

  /** The groups and classes of the events, from inside `depth` brackets the first of
      which is at `start`. */
  function Fold(es: seq<Event>, depth: nat, start: nat): Found {
    if es == [] then Found([], [])
    else
      match es[0]
      case Open(at) => Fold(es[1..], depth + 1, if depth == 0 then at else start)
      case Close(at) =>
        var rest := Fold(es[1..], Less(depth), start);
        if Less(depth) == 0 then Found([Group(start, at + 1)] + rest.groups, rest.classes) else rest
      case Class(at) =>
        var rest := Fold(es[1..], depth, start);
        if depth == 0 then Found(rest.groups, [at] + rest.classes) else rest
  }

  function FoundIn(source: string): Found {
    Fold(Events(source, 0), 0, 0)
  }

  function After(groups: seq<Group>, classes: seq<nat>, rest: Found): Found {
    Found(groups + rest.groups, classes + rest.classes)
  }

  // ----- the scan -----

  method SkipLine(b: string, i: nat) returns (r: nat)
    requires i <= |b|
    ensures r == LineEnd(b, i)
  {
    r := i;
    while r < |b| && b[r] != '\n'
      invariant r <= |b| && LineEnd(b, i) == LineEnd(b, r)
    {
      r := r + 1;
    }
  }

  method SkipBlock(b: string, i: nat) returns (r: nat)
    requires i <= |b|
    ensures r == BlockEnd(b, i)
  {
    r := i;
    while r + 1 < |b| && !(b[r] == '*' && b[r + 1] == '/')
      invariant r <= |b| && BlockEnd(b, i) == BlockEnd(b, r)
    {
      r := r + 1;
    }
  }

  /** Past a comment, a literal or one char. */
  method Pass(b: string, i: nat) returns (next: nat)
    requires i < |b| && StepAt(b, i).Passes?
    ensures next == StepAt(b, i).next && i < next <= |b| + 1
  {
    if b[i] == '/' && i + 1 < |b| && b[i + 1] == '/' {
      next := SkipLine(b, i + 1);
    } else if b[i] == '/' && i + 1 < |b| && b[i + 1] == '*' {
      next := SkipBlock(b, i + 2);
      next := if next + 2 < |b| then next + 2 else |b|;
    } else if b[i] == '"' || b[i] == '\'' || (b[i] == '@' && i + 1 < |b| && b[i + 1] == '"') {
      next := SkipLiteral(b, i);
    } else {
      next := i + 1;
    }
  }

  /** What the scan has found, and what it is inside of, at `at`. */
  datatype Progress = Progress(groups: seq<Group>, classes: seq<nat>, depth: nat, start: nat, at: nat)

  /** What is found in all is what is found so far and from there on. */
  ghost predicate On(source: string, p: Progress) {
    && p.at <= |source| + 1
    && FoundIn(source) == After(p.groups, p.classes, Fold(Events(source, p.at), p.depth, p.start))
  }

  method Scan(source: string) returns (groups: seq<Group>, classes: seq<nat>)
    ensures Found(groups, classes) == FoundIn(source)
  {
    var p := Progress([], [], 0, 0, 0);
    NothingAfter(FoundIn(source));
    while p.at < |source|
      invariant On(source, p)
      decreases |source| + 1 - p.at
    {
      p := Advance(source, p);
    }
    NothingBehind(source, p);
    return p.groups, p.classes;
  }

  /** One round of the loop. */
  method Advance(source: string, p: Progress) returns (q: Progress)
    requires On(source, p) && p.at < |source|
    ensures On(source, q) && p.at < q.at
  {
    match StepAt(source, p.at)
    case Passes(_) =>
      PassesStep(source, p.at);
      var next := Pass(source, p.at);
      return p.(at := next);
    case Opens =>
      OpensStep(source, p.at, p.depth, p.start);
      return p.(start := if p.depth == 0 then p.at else p.start, depth := p.depth + 1, at := p.at + 1);
    case Closes =>
      ClosesStep(source, p.at, p.depth, p.start, p.groups, p.classes);
      var groups := if Less(p.depth) == 0 then p.groups + [Group(p.start, p.at + 1)] else p.groups;
      return p.(groups := groups, depth := Less(p.depth), at := p.at + 1);
    case Keyword =>
      KeywordStep(source, p.at, p.depth, p.start, p.groups, p.classes);
      if p.depth == 0 {
        return p.(classes := p.classes + [p.at], at := p.at + 5);
      }
      return p.(at := p.at + 1);
  }

  lemma {:induction false} NothingBehind(source: string, p: Progress)
    requires On(source, p) && p.at >= |source|
    ensures Found(p.groups, p.classes) == FoundIn(source)
  {
    assert p.groups + [] == p.groups && p.classes + [] == p.classes;
  }

  lemma {:induction false} NothingAfter(rest: Found)
    ensures After([], [], rest) == rest
  {
    assert [] + rest.groups == rest.groups && [] + rest.classes == rest.classes;
  }

  lemma {:induction false} GroupAfter(groups: seq<Group>, classes: seq<nat>, g: Group, rest: Found)
    ensures After(groups, classes, Found([g] + rest.groups, rest.classes)) == After(groups + [g], classes, rest)
  {
    assert groups + ([g] + rest.groups) == groups + [g] + rest.groups;
  }

  lemma {:induction false} ClassAfter(groups: seq<Group>, classes: seq<nat>, c: nat, rest: Found)
    ensures After(groups, classes, Found(rest.groups, [c] + rest.classes)) == After(groups, classes + [c], rest)
  {
    assert classes + ([c] + rest.classes) == classes + [c] + rest.classes;
  }

  lemma {:induction false} FoldsOne(e: Event, es: seq<Event>, depth: nat, start: nat)
    ensures Fold([e] + es, depth, start) ==
            match e
            case Open(at) => Fold(es, depth + 1, if depth == 0 then at else start)
            case Close(at) =>
              var rest := Fold(es, Less(depth), start);
              if Less(depth) == 0 then Found([Group(start, at + 1)] + rest.groups, rest.classes) else rest
            case Class(at) =>
              var rest := Fold(es, depth, start);
              if depth == 0 then Found(rest.groups, [at] + rest.classes) else rest
  {
    assert ([e] + es)[1..] == es;
  }

  lemma {:induction false} PassesStep(b: string, i: nat)
    requires i < |b| && StepAt(b, i).Passes?
    ensures i < StepAt(b, i).next <= |b| + 1 && Events(b, i) == Events(b, StepAt(b, i).next)
  {}

  lemma {:induction false} OpensStep(b: string, i: nat, depth: nat, start: nat)
    requires i < |b| && StepAt(b, i) == Opens
    ensures Fold(Events(b, i), depth, start) == Fold(Events(b, i + 1), depth + 1, if depth == 0 then i else start)
  {
    FoldsOne(Open(i), Events(b, i + 1), depth, start);
  }

  lemma {:induction false} ClosesStep(b: string, i: nat, depth: nat, start: nat, groups: seq<Group>, classes: seq<nat>)
    requires i < |b| && StepAt(b, i) == Closes
    ensures After(groups, classes, Fold(Events(b, i), depth, start))
         == After(if Less(depth) == 0 then groups + [Group(start, i + 1)]
           else groups, classes, Fold(Events(b, i + 1), Less(depth), start))
  {
    FoldsOne(Close(i), Events(b, i + 1), depth, start);
    GroupAfter(groups, classes, Group(start, i + 1), Fold(Events(b, i + 1), Less(depth), start));
  }

  lemma {:induction false} KeywordStep(b: string, i: nat, depth: nat, start: nat, groups: seq<Group>, classes: seq<nat>)
    requires i < |b| && StepAt(b, i) == Keyword
    ensures i + 5 <= |b|
    ensures After(groups, classes, Fold(Events(b, i), depth, start))
         == if depth == 0 then After(groups, classes + [i], Fold(Events(b, i + 5), depth, start))
            else After(groups, classes, Fold(Events(b, i + 1), depth, start))
  {
    FoldsOne(Class(i), Events(b, i + 5), depth, start);
    ClassAfter(groups, classes, i, Fold(Events(b, i + 5), depth, start));
    KeywordHoldsNothing(b, i);
  }

  lemma {:induction false} KeywordIsAt(b: string, at: nat)
    requires IsWordAt(b, at, CLASS)
    ensures at + 5 <= |b| && b[at] == 'c' && b[at + 1] == 'l' && b[at + 2] == 'a' && b[at + 3] == 's' &&
        b[at + 4] == 's'
  {
    var word := b[at..at + 5];
    assert word[0] == 'c' && word[1] == 'l' && word[2] == 'a' && word[3] == 's' && word[4] == 's';
  }

  lemma {:induction false} LetterPasses(b: string, i: nat)
    requires 0 < i < |b| && IsIdentByte(b[i - 1]) && 'a' <= b[i] <= 's'
    ensures Events(b, i) == Events(b, i + 1)
  {}

  /** Nothing is found from inside the keyword to its end. */
  lemma {:induction false} KeywordHoldsNothing(b: string, at: nat)
    requires IsWordAt(b, at, CLASS)
    ensures at + 5 <= |b| && Events(b, at + 1) == Events(b, at + 5)
  {
    KeywordIsAt(b, at);
    LetterPasses(b, at + 1);
    LetterPasses(b, at + 2);
    LetterPasses(b, at + 3);
    LetterPasses(b, at + 4);
  }

  // ----- what the scan passes over -----

  /** Nothing the scan stops at. */
  predicate Dull(c: char) {
    c != '/' && c != '"' && c != '\'' && c != '@' && c != '[' && c != ']' && c != 'c'
  }

  lemma {:induction false} EventsOverDull(b: string, i: nat, n: nat)
    requires i <= n <= |b| && forall k | i <= k < n :: Dull(b[k])
    ensures Events(b, i) == Events(b, n)
    decreases n - i
  {
    if i < n {
      assert StepAt(b, i) == Passes(i + 1);
      EventsOverDull(b, i + 1, n);
    }
  }

  lemma {:induction false} EventsOverString(b: string, i: nat, n: nat)
    requires i < n < |b| && b[i] == '"' && b[n] == '"' && forall k | i < k < n :: b[k] != '"' && b[k] != '\\'
    ensures Events(b, i) == Events(b, n + 1)
  {
    StringEnds(b, i + 1, n);
    assert StepAt(b, i) == Passes(n + 1);
  }

  lemma {:induction false} StringEnds(b: string, i: nat, n: nat)
    requires i <= n < |b| && b[n] == '"' && forall k | i <= k < n :: b[k] != '"' && b[k] != '\\'
    ensures QuotedEnd(b, '"', i) == n + 1
    decreases n - i
  {
    if i < n {
      StringEnds(b, i + 1, n);
    }
  }

  // ----- where groups and classes are -----

  function Width(e: Event): nat {
    if e.Class? then 5 else 1
  }

  predicate Increasing(es: seq<Event>, from: nat) {
    es == [] || (from <= es[0].at && Increasing(es[1..], es[0].at + Width(es[0])))
  }

  lemma {:induction false} EventsIncrease(b: string, i: nat)
    ensures Increasing(Events(b, i), i)
    decreases |b| + 1 - i
  {
    if i < |b| {
      match StepAt(b, i)
      case Passes(next) =>
        if i < next <= |b| + 1 {
          EventsIncrease(b, next);
          IncreasingFrom(Events(b, next), i, next);
        }
      case Keyword => EventsIncrease(b, i + 5);
      case _ => EventsIncrease(b, i + 1);
    }
  }

  lemma {:induction false} IncreasingFrom(es: seq<Event>, from: nat, later: nat)
    requires from <= later && Increasing(es, later)
    ensures Increasing(es, from)
  {}

  /** Code brackets never close more than they open. */
  predicate NeverOverCloses(es: seq<Event>, depth: nat) {
    es == [] ||
    match es[0]
    case Open(_) => NeverOverCloses(es[1..], depth + 1)
    case Close(_) => depth > 0 && NeverOverCloses(es[1..], depth - 1)
    case Class(_) => NeverOverCloses(es[1..], depth)
  }

  predicate Outside(c: nat, g: Group) {
    c + 5 <= g.start || g.end <= c
  }

  ghost predicate Spans(g: Group, es: seq<Event>) {
    g.start + 1 < g.end && Open(g.start) in es && Close(g.end - 1) in es
  }

  /** Groups come in order and apart, and no keyword is in one. */
  ghost predicate Apart(f: Found) {
    && (forall j, k | 0 <= j < k < |f.groups| :: f.groups[j].end <= f.groups[k].start)
    && (forall j, k | 0 <= j < k < |f.classes| :: f.classes[j] + 5 <= f.classes[k])
    && (forall j, k | 0 <= j < |f.groups| && 0 <= k < |f.classes| :: Outside(f.classes[k], f.groups[j]))
  }

  /** Each group is from a code bracket to a later one, all of them apart. */
  ghost predicate WellPlaced(f: Found, es: seq<Event>) {
    (forall k | 0 <= k < |f.groups| :: Spans(f.groups[k], es)) && Apart(f)
  }

  /** Groups found from inside `depth` brackets: the first is then the one already open. */
  ghost predicate GroupsFrom(groups: seq<Group>, es: seq<Event>, depth: nat, start: nat, from: nat) {
    && (forall k | 0 <= k < |groups| && (depth == 0 || k > 0) :: Spans(groups[k], es) && from <= groups[k].start)
    && (depth > 0 && groups != [] ==>
       groups[0].start == start && from < groups[0].end && Close(groups[0].end - 1) in es)
  }

  /** Keywords found from inside `depth` brackets, which are past the group those end. */
  predicate ClassesFrom(f: Found, depth: nat, from: nat) {
    && (forall k | 0 <= k < |f.classes| :: from <= f.classes[k])
    && (depth > 0 && f.classes != [] ==> f.groups != [] && f.groups[0].end <= f.classes[0])
  }

  ghost predicate PlacedFrom(f: Found, es: seq<Event>, depth: nat, start: nat, from: nat) {
    Apart(f) && GroupsFrom(f.groups, es, depth, start, from) && ClassesFrom(f, depth, from)
  }

  lemma {:induction false} SpansMore(g: Group, es: seq<Event>, e: Event)
    requires Spans(g, es)
    ensures Spans(g, [e] + es)
  {}

  lemma {:induction false} GroupsFromMore(
      groups: seq<Group>, es: seq<Event>, e: Event, depth: nat, start: nat, later: nat, from: nat)
    requires from <= later && GroupsFrom(groups, es, depth, start, later)
    ensures GroupsFrom(groups, [e] + es, depth, start, from)
  {
    forall k | 0 <= k < |groups| && (depth == 0 || k > 0) ensures Spans(groups[k], [e] + es) {
      SpansMore(groups[k], es, e);
    }
  }

  lemma {:induction false} OpenKeepsPlaced(at: nat, es: seq<Event>, f: Found, depth: nat, start: nat, from: nat)
    requires start < from || depth == 0
    requires from <= at && PlacedFrom(f, es, depth + 1, if depth == 0 then at else start, at + 1)
    ensures PlacedFrom(f, [Open(at)] + es, depth, start, from)
  {
    GroupsFromMore(f.groups, es, Open(at), depth + 1, if depth == 0 then at else start, at + 1, from);
    assert ([Open(at)] + es)[0] == Open(at);
    if depth == 0 && f.groups != [] {
      assert Spans(f.groups[0], [Open(at)] + es);
    }
  }

  lemma {:induction false} CloseKeepsPlaced(at: nat, es: seq<Event>, f: Found, start: nat, from: nat)
    requires start < from <= at && PlacedFrom(f, es, 0, start, at + 1)
    ensures PlacedFrom(Found([Group(start, at + 1)] + f.groups, f.classes), [Close(at)] + es, 1, start, from)
  {
    GroupsFromMore(f.groups, es, Close(at), 0, start, at + 1, from);
    var more, next := [Close(at)] + es, [Group(start, at + 1)] + f.groups;
    assert more[0] == Close(at);
    assert next[0] == Group(start, at + 1) && forall k | 0 < k < |next| :: next[k] == f.groups[k - 1];
    assert forall k | 0 <= k < |f.groups| :: at + 1 <= f.groups[k].start;
  }

  lemma {:induction false} InnerCloseKeepsPlaced(at: nat, es: seq<Event>, f: Found, depth: nat, start: nat, from: nat)
    requires start < from <= at && depth > 1 && PlacedFrom(f, es, depth - 1, start, at + 1)
    ensures PlacedFrom(f, [Close(at)] + es, depth, start, from)
  {
    GroupsFromMore(f.groups, es, Close(at), depth - 1, start, at + 1, from);
  }

  lemma {:induction false} ClassKeepsPlaced(at: nat, es: seq<Event>, f: Found, depth: nat, start: nat, from: nat)
    requires (start < from || depth == 0) && from <= at && PlacedFrom(f, es, depth, start, at + 5)
    ensures PlacedFrom(if depth == 0 then Found(f.groups, [at] + f.classes)
        else f, [Class(at)] + es, depth, start, from)
  {
    GroupsFromMore(f.groups, es, Class(at), depth, start, at + 5, from);
    var next := [at] + f.classes;
    assert next[0] == at && forall k | 0 < k < |next| :: next[k] == f.classes[k - 1];
    assert depth == 0 ==> forall k | 0 <= k < |f.groups| :: Outside(at, f.groups[k]);
  }

  lemma {:induction false} ClosePlaces(at: nat, es: seq<Event>, depth: nat, start: nat, from: nat)
    requires start < from <= at && depth > 0 && PlacedFrom(Fold(es, depth - 1, start), es, depth - 1, start, at + 1)
    ensures PlacedFrom(Fold([Close(at)] + es, depth, start), [Close(at)] + es, depth, start, from)
  {
    FoldsOne(Close(at), es, depth, start);
    var f := Fold(es, depth - 1, start);
    if depth == 1 {
      CloseKeepsPlaced(at, es, f, start, from);
    } else {
      InnerCloseKeepsPlaced(at, es, f, depth, start, from);
    }
  }

  lemma {:induction false} ClassPlaces(at: nat, es: seq<Event>, depth: nat, start: nat, from: nat)
    requires (start < from || depth == 0) && from <= at && PlacedFrom(Fold(es, depth, start), es, depth, start, at + 5)
    ensures PlacedFrom(Fold([Class(at)] + es, depth, start), [Class(at)] + es, depth, start, from)
  {
    FoldsOne(Class(at), es, depth, start);
    ClassKeepsPlaced(at, es, Fold(es, depth, start), depth, start, from);
  }

  lemma {:induction false} FoldPlaces(es: seq<Event>, depth: nat, start: nat, from: nat)
    requires Increasing(es, from) && NeverOverCloses(es, depth) && (start < from || depth == 0)
    ensures PlacedFrom(Fold(es, depth, start), es, depth, start, from)
  {
    if es != [] {
      var rest := es[1..];
      assert es == [es[0]] + rest;
      match es[0]
      case Open(at) =>
        FoldPlaces(rest, depth + 1, if depth == 0 then at else start, at + 1);
        OpenKeepsPlaced(at, rest, Fold(es, depth, start), depth, start, from);
      case Close(at) =>
        FoldPlaces(rest, depth - 1, start, at + 1);
        ClosePlaces(at, rest, depth, start, from);
      case Class(at) =>
        FoldPlaces(rest, depth, start, at + 5);
        ClassPlaces(at, rest, depth, start, from);
    }
  }

  // ----- what over-closing does -----

  /** Two groups start at one place; or, from outside every bracket, one starts at a
      place passed before. */
  ghost predicate Misplaced(groups: seq<Group>, depth: nat, start: nat) {
    (exists j, k :: 0 <= j < k < |groups| && groups[j].start == groups[k].start)
    || (depth == 0 && exists k :: 0 <= k < |groups| && groups[k].start == start)
  }

  lemma {:induction false} MisplacedBehind(g: Group, groups: seq<Group>)
    requires Misplaced(groups, 0, g.start)
    ensures Misplaced([g] + groups, 1, g.start)
  {
    var next := [g] + groups;
    if k :| 0 <= k < |groups| && groups[k].start == g.start {
      assert next[0] == g && next[k + 1] == groups[k];
    } else {
      var j, k :| 0 <= j < k < |groups| && groups[j].start == groups[k].start;
      assert next[j + 1] == groups[j] && next[k + 1] == groups[k];
    }
  }

  lemma {:induction false} OverClosingMisplaces(es: seq<Event>, depth: nat, start: nat)
    requires !NeverOverCloses(es, depth)
    ensures Misplaced(Fold(es, depth, start).groups, depth, start)
  {
    var rest := es[1..];
    match es[0]
    case Open(at) => OverClosingMisplaces(rest, depth + 1, if depth == 0 then at else start);
    case Close(at) =>
      if depth == 0 {
        var groups := Fold(es, depth, start).groups;
        assert groups[0].start == start;
      } else {
        OverClosingMisplaces(rest, depth - 1, start);
        if depth == 1 {
          MisplacedBehind(Group(start, at + 1), Fold(rest, 0, start).groups);
        }
      }
    case Class(at) => OverClosingMisplaces(rest, depth, start);
  }

  lemma {:induction false} AllFrom(es: seq<Event>, from: nat, e: Event)
    requires Increasing(es, from) && e in es
    ensures from <= e.at
  {
    if e != es[0] {
      AllFrom(es[1..], es[0].at + Width(es[0]), e);
    }
  }

  lemma {:induction false} MisplacedIsNotWell(f: Found, es: seq<Event>, depth: nat, start: nat)
    requires Misplaced(f.groups, depth, start) && WellPlaced(f, es)
    ensures depth == 0 && Open(start) in es
  {
    forall j, k | 0 <= j < k < |f.groups| ensures f.groups[j].start != f.groups[k].start {
      assert Spans(f.groups[j], es);
    }
  }

  lemma {:induction false} OverClosingIsNotWell(es: seq<Event>)
    requires Increasing(es, 0) && !NeverOverCloses(es, 0)
    ensures !WellPlaced(Fold(es, 0, 0), es)
  {
    var f := Fold(es, 0, 0);
    OverClosingMisplaces(es, 0, 0);
    if WellPlaced(f, es) {
      MisplacedIsNotWell(f, es, 0, 0);
      if es[0] == Open(0) {
        OverClosingMisplaces(es[1..], 1, 0);
        MisplacedIsNotWell(f, es, 1, 0);
      } else {
        assert Open(0) in es[1..];
        AllFrom(es[1..], es[0].at + Width(es[0]), Open(0));
      }
    }
  }

  /** The scan places its groups and classes well exactly when the source's code
      brackets never close more than they open. */
  lemma {:induction false} WellPlacedExactlyWhenNeverOverClosed(source: string)
    ensures WellPlaced(FoundIn(source), Events(source, 0)) <==> NeverOverCloses(Events(source, 0), 0)
  {
    var es := Events(source, 0);
    EventsIncrease(source, 0);
    if NeverOverCloses(es, 0) {
      FoldPlaces(es, 0, 0, 0);
    } else {
      OverClosingIsNotWell(es);
    }
  }

  // ----- what is at the places -----

  predicate IsAt(b: string, e: Event) {
    e.at < |b| && match e
                  case Open(at) => b[at] == '['
                  case Close(at) => b[at] == ']'
                  case Class(at) => IsWordAt(b, at, CLASS)
  }

  lemma {:induction false} EventsAreThere(b: string, i: nat, e: Event)
    requires e in Events(b, i)
    ensures IsAt(b, e)
    decreases |b| + 1 - i
  {
    if i < |b| {
      match StepAt(b, i)
      case Passes(next) => EventsAreThere(b, next, e);
      case Opens =>
        if e != Open(i) {
          EventsAreThere(b, i + 1, e);
        }
      case Closes =>
        if e != Close(i) {
          EventsAreThere(b, i + 1, e);
        }
      case Keyword =>
        if e != Class(i) {
          EventsAreThere(b, i + 5, e);
        }
    }
  }

  lemma {:induction false} FoldedClassesAreEvents(es: seq<Event>, depth: nat, start: nat, k: nat)
    requires k < |Fold(es, depth, start).classes|
    ensures Class(Fold(es, depth, start).classes[k]) in es
  {
    match es[0]
    case Open(at) => FoldedClassesAreEvents(es[1..], depth + 1, if depth == 0 then at else start, k);
    case Close(_) => FoldedClassesAreEvents(es[1..], Less(depth), start, k);
    case Class(at) =>
      if depth > 0 {
        FoldedClassesAreEvents(es[1..], depth, start, k);
      } else if k > 0 {
        FoldedClassesAreEvents(es[1..], depth, start, k - 1);
      }
  }

  lemma {:induction false} ClassesAreKeywords(source: string, k: nat)
    requires k < |FoundIn(source).classes|
    ensures IsWordAt(source, FoundIn(source).classes[k], CLASS)
  {
    FoldedClassesAreEvents(Events(source, 0), 0, 0, k);
    EventsAreThere(source, 0, Class(FoundIn(source).classes[k]));
  }

  /** A stray bracket at the start gives a group nothing is inside, whose text the
      source cannot be sliced for. */
  lemma {:induction false} StrayBracketGivesAnEmptyGroup(rest: string)
    ensures FoundIn("]" + rest).groups != [] && FoundIn("]" + rest).groups[0] == Group(0, 1)
  {
    var source := "]" + rest;
    assert StepAt(source, 0) == Closes;
    FoldsOne(Close(0), Events(source, 1), 0, 0);
  }
}
