/** Whether a linked crate may ship under the licenses a module allows
    (crates/cargo-pwrs/src/notices.rs). */
module Licenses {
  import opened Results
  import opened Text
  import opened SpdxSyntax

  const ALLOWED_FROM_CRATES_IO := "MPL-2.0"
  const CRATES_IO := "registry+https://github.com/rust-lang/crates.io-index"

  /** The license a trailing `+` names. */
  function WithoutOrLater(id: string): string {
    if id != [] && id[|id| - 1] == '+' then id[..|id| - 1] else id
  }

  predicate Has(allowed: seq<string>, name: string) {
    exists i | 0 <= i < |allowed| :: SameIgnoringCase(allowed[i], name)
  }

  function WithName(id: string, exception: string): string {
    WithoutOrLater(id) + " WITH " + exception
  }

  predicate Satisfied(e: Expr, allowed: seq<string>) {
    match e
    case License(id) => Has(allowed, WithoutOrLater(id))
    case With(id, exception) => Has(allowed, WithName(id, exception))
    case And(left, right) => Satisfied(left, allowed) && Satisfied(right, allowed)
    case Or(left, right) => Satisfied(left, allowed) || Satisfied(right, allowed)
  }

  datatype Linked = Linked(license: Option<string>, licenseFile: Option<string>, source: Option<string>)

  predicate IsFromCratesIo(c: Linked) {
    c.source == Some(CRATES_IO)
  }

  datatype Reason = NotAnExpression(why: Refusal) | OnlyFromCratesIo | NotAllowed | OnlyALicenseFile | NoLicense

  /** Why `c` cannot ship, or `None` when it can. */
  function RefusalOf(c: Linked, allowed: seq<string>): Option<Reason> {
    var fromCratesIo := allowed + [ALLOWED_FROM_CRATES_IO];
    match c.license
    case Some(text) =>
      (match Parse(text)
       case Err(why) => Some(NotAnExpression(why))
       case Ok(e) =>
         if Satisfied(e, allowed) then None
         else if IsFromCratesIo(c) && Satisfied(e, fromCratesIo) then None
         else if Satisfied(e, fromCratesIo) then Some(OnlyFromCratesIo)
         else Some(NotAllowed))
    case None => if c.licenseFile.Some? then Some(OnlyALicenseFile) else Some(NoLicense)
  }

  // ----- the meaning of an expression: its alternatives -----

  /** The disjunctive normal form: the sets of license names any one of which is
      enough to ship under. */
  function Clauses(e: Expr): set<set<string>> {
    match e
    case License(id) => {{WithoutOrLater(id)}}
    case With(id, exception) => {{WithName(id, exception)}}
    case And(left, right) => set a, b | a in Clauses(left) && b in Clauses(right) :: a + b
    case Or(left, right) => Clauses(left) + Clauses(right)
  }

  predicate AllAllowed(clause: set<string>, allowed: seq<string>) {
    forall name | name in clause :: Has(allowed, name)
  }

  /** A crate can be shipped exactly when some alternative is wholly allowed. */
  lemma {:induction false} SatisfiedBySomeClause(e: Expr, allowed: seq<string>)
    ensures Satisfied(e, allowed) <==> exists clause :: clause in Clauses(e) && AllAllowed(clause, allowed)
  {
    match e
    case License(id) => OneName(WithoutOrLater(id), allowed);
    case With(id, exception) => OneName(WithName(id, exception), allowed);
    case And(left, right) =>
      SatisfiedBySomeClause(left, allowed);
      SatisfiedBySomeClause(right, allowed);
      if Satisfied(e, allowed) {
        var a :| a in Clauses(left) && AllAllowed(a, allowed);
        var b :| b in Clauses(right) && AllAllowed(b, allowed);
        assert a + b in Clauses(e) && AllAllowed(a + b, allowed);
      }
      if clause :| clause in Clauses(e) && AllAllowed(clause, allowed) {
        var a, b :| a in Clauses(left) && b in Clauses(right) && clause == a + b;
        assert AllAllowed(a, allowed) && AllAllowed(b, allowed);
      }
    case Or(left, right) =>
      SatisfiedBySomeClause(left, allowed);
      SatisfiedBySomeClause(right, allowed);
      assert forall c :: c in Clauses(e) <==> c in Clauses(left) || c in Clauses(right);
  }

  lemma {:induction false} OneName(name: string, allowed: seq<string>)
    ensures Has(allowed, name) <==> exists clause :: clause in {{name}} && AllAllowed(clause, allowed)
  {
    if Has(allowed, name) {
      assert {name} in {{name}} && AllAllowed({name}, allowed);
    }
  }

  // ----- what allowing more does -----

  lemma {:induction false} SatisfiedByMore(e: Expr, allowed: seq<string>, more: seq<string>)
    requires Satisfied(e, allowed) && forall i | 0 <= i < |allowed| :: allowed[i] in more
    ensures Satisfied(e, more)
    decreases e
  {
    match e
    case License(id) =>
    case With(id, exception) =>
    case And(left, right) =>
      SatisfiedByMore(left, allowed, more);
      SatisfiedByMore(right, allowed, more);
    case Or(left, right) =>
      if Satisfied(left, allowed) {
        SatisfiedByMore(left, allowed, more);
      } else {
        SatisfiedByMore(right, allowed, more);
      }
  }

  /** Allowing more licenses never refuses a crate that could ship. */
  lemma {:induction false} RefusalIsMonotone(c: Linked, allowed: seq<string>, more: seq<string>)
    requires forall i | 0 <= i < |allowed| :: allowed[i] in more
    ensures RefusalOf(c, allowed).None? ==> RefusalOf(c, more).None?
  {
    if RefusalOf(c, allowed).None? {
      var e := Parse(c.license.value).value;
      if Satisfied(e, allowed) {
        SatisfiedByMore(e, allowed, more);
      } else {
        var a, m := allowed + [ALLOWED_FROM_CRATES_IO], more + [ALLOWED_FROM_CRATES_IO];
        assert m[|more|] == ALLOWED_FROM_CRATES_IO;
        assert forall i | 0 <= i < |more| :: m[i] == more[i];
        assert forall i | 0 <= i < |a| :: a[i] in m;
        SatisfiedByMore(e, a, m);
      }
    }
  }

  /** A crate ships exactly when its license is an expression some alternative of
      which is allowed: by the list, and for a crate from crates.io alone, also by
      the one license allowed from there. */
  lemma {:induction false} ShipsExactlyWhenAllowed(c: Linked, allowed: seq<string>)
    ensures RefusalOf(c, allowed).None? <==>
            c.license.Some? && Parse(c.license.value).Ok? &&
            exists clause :: clause in Clauses(Parse(c.license.value).value) &&
              AllAllowed(clause, if IsFromCratesIo(c) then allowed + [ALLOWED_FROM_CRATES_IO] else allowed)
  {
    if c.license.Some? && Parse(c.license.value).Ok? {
      var e, all := Parse(c.license.value).value, allowed + [ALLOWED_FROM_CRATES_IO];
      SatisfiedBySomeClause(e, allowed);
      SatisfiedBySomeClause(e, all);
      if Satisfied(e, allowed) {
        assert forall i | 0 <= i < |allowed| :: all[i] == allowed[i];
        SatisfiedByMore(e, allowed, all);
      }
    }
  }

  // ----- in a license list's own words -----

  predicate IsOrLater(id: string) {
    id != [] && id[|id| - 1] == '+'
  }

  /** "Or later" asks no more than the license itself, alone or with an exception. */
  lemma {:induction false} OrLaterAsksNoMore(id: string, exception: string, allowed: seq<string>)
    requires !IsOrLater(id)
    ensures Satisfied(License(id + "+"), allowed) <==> Satisfied(License(id), allowed)
    ensures Satisfied(With(id + "+", exception), allowed) <==> Satisfied(With(id, exception), allowed)
    ensures Satisfied(License(id), allowed) <==> exists i :: 0 <= i < |allowed| && SameIgnoringCase(allowed[i], id)
    ensures Satisfied(With(id, exception), [id + " WITH " + exception])
  {
    assert (id + "+")[..|id|] == id;
    var name := id + " WITH " + exception;
    assert [name][0] == name;
  }

  predicate AlikeLetters(a: char, b: char) {
    a == b || ('A' <= a <= 'Z' && b as int == a as int + 32) || ('A' <= b <= 'Z' && a as int == b as int + 32)
  }

  /** A name is on the list exactly when an entry as long has the same letters in capitals
      or small, and the same other characters. */
  lemma {:induction false} CaseOfNamesDoesNotMatter(allowed: seq<string>, name: string)
    ensures Has(allowed, name) <==>
            exists i :: 0 <= i < |allowed| && |allowed[i]| == |name|
                        && forall k | 0 <= k < |name| :: AlikeLetters(allowed[i][k], name[k])
  {
    forall a: char, b: char ensures Lower(a) == Lower(b) <==> AlikeLetters(a, b) {
      SameLetter(a, b);
    }
  }

  lemma {:induction false} SameLetter(a: char, b: char)
    ensures Lower(a) == Lower(b) <==> AlikeLetters(a, b)
  {}

  /** The refusal that names crates.io says what would ship from there, and no other does. */
  lemma {:induction false} OnlyFromCratesIoExactlyWhen(c: Linked, allowed: seq<string>)
    ensures RefusalOf(c, allowed) == Some(OnlyFromCratesIo) <==>
            RefusalOf(c, allowed).Some? && RefusalOf(c.(source := Some(CRATES_IO)), allowed).None?
  {}
}
