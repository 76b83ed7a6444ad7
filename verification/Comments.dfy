/** The comments of hand-written C#, which the scan of crates/cargo-pwrs/src/generate.rs
    passes over whatever they hold. */
module Comments {
  import opened Scanner

  lemma {:induction false} LineEnds(b: string, i: nat, n: nat)
    requires i <= n < |b| && b[n] == '\n' && forall k | i <= k < n :: b[k] != '\n'
    ensures LineEnd(b, i) == n
    decreases n - i
  {
    if i < n {
      LineEnds(b, i + 1, n);
    }
  }

  /** A line comment is passed over to the end of its line. */
  lemma {:induction false} EventsOverComment(b: string, i: nat, n: nat)
    requires i + 1 < n < |b| && b[i] == '/' && b[i + 1] == '/' && b[n] == '\n' && forall k | i < k < n :: b[k] != '\n'
    ensures Events(b, i) == Events(b, n)
  {
    LineEnds(b, i + 1, n);
    assert StepAt(b, i) == Passes(n);
  }

  /** No mark that ends a block comment starts in between. */
  predicate NoBlockEnd(b: string, i: nat, n: nat) {
    forall k | i <= k < n && k + 1 < |b| :: !(b[k] == '*' && b[k + 1] == '/')
  }

  lemma {:induction false} BlockEnds(b: string, i: nat, n: nat)
    requires i <= n && n + 1 < |b| && b[n] == '*' && b[n + 1] == '/' && NoBlockEnd(b, i, n)
    ensures BlockEnd(b, i) == n
    decreases n - i
  {
    if i < n {
      BlockEnds(b, i + 1, n);
    }
  }

  lemma {:induction false} BlockNeverEnds(b: string, i: nat)
    requires i <= |b| && NoBlockEnd(b, i, |b|)
    ensures |b| - 1 <= BlockEnd(b, i)
    decreases |b| - i
  {
    if i + 1 < |b| {
      BlockNeverEnds(b, i + 1);
    }
  }

  /** A block comment is passed over to the first mark that ends it, whatever it holds,
      and to the end of the source when there is none. */
  lemma {:induction false} EventsOverBlock(b: string, i: nat, n: nat)
    requires i + 2 <= n <= |b| && b[i] == '/' && b[i + 1] == '*' && NoBlockEnd(b, i + 2, n)
    requires n < |b| ==> n + 1 < |b| && b[n] == '*' && b[n + 1] == '/'
    ensures Events(b, i) == if n < |b| then Events(b, n + 2) else []
  {
    if n < |b| {
      BlockEnds(b, i + 2, n);
      assert StepAt(b, i) == Passes(n + 2);
    } else {
      BlockNeverEnds(b, i + 2);
      assert StepAt(b, i) == Passes(|b|);
    }
  }

  /** The characters of a word, by their codes: ASCII letters and digits, `_` and `@`. */
  lemma {:induction false} WordBytesAre(c: char)
    ensures IsIdentByte(c) <==>
            || 0x41 <= c as int <= 0x5A || 0x61 <= c as int <= 0x7A || 0x30 <= c as int <= 0x39
            || c as int == 0x5F || c as int == 0x40
  {}
}
