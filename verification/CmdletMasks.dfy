/** Which parameters a generated cmdlet tells Rust of: `mask_words`, `mask_bit` and the
    setters, `Run` and `BeginProcessing` that `cmdlet_class` of
    crates/cargo-pwrs/src/generate.rs emits. A cmdlet of no parameters declares no words
    and passes the zero word of an empty block, as one word nothing sets. */
module CmdletMasks {
  import opened Results

  // ----- words of a mask -----

  /** The 64-bit words a mask of `n` items takes. */
  function MaskWords(n: nat): nat {
    var words := (n + 63) / 64;
    if words < 1 then 1 else words
  }

  datatype Place = Place(word: nat, bit: nat)

  function MaskBit(i: nat): (p: Place)
    ensures p.bit < 64 && 64 * p.word + p.bit == i
  {
    Place(i / 64, i % 64)
  }

  function Bit(b: nat): bv64
    requires b < 64
  {
    1 as bv64 << b
  }

  predicate Has(words: seq<bv64>, i: nat) {
    var p := MaskBit(i);
    p.word < |words| && words[p.word] & Bit(p.bit) != 0
  }

  /** The mask with `i`'s bit in it. */
  function Marked(words: seq<bv64>, i: nat): seq<bv64>
    requires MaskBit(i).word < |words|
  {
    var p := MaskBit(i);
    words[p.word := words[p.word] | Bit(p.bit)]
  }

  function Cleared(n: nat): seq<bv64> {
    seq(n, i => 0)
  }

  /** The items of a mask. */
  function Items(words: seq<bv64>): set<nat> {
    set i | 0 <= i < 64 * |words| && Has(words, i)
  }

  /** Each of `n` items has a bit of its own in the words, and no word is without one. */
  lemma {:induction false} EachItemHasItsBit(n: nat, i: nat, j: nat)
    requires i < n && j < n
    ensures MaskBit(i).word < MaskWords(n)
    ensures MaskBit(i) == MaskBit(j) ==> i == j
    ensures MaskWords(n) == 1 || exists k: nat | k < n :: MaskBit(k).word == MaskWords(n) - 1
  {
    if MaskWords(n) > 1 {
      assert MaskBit(n - 1).word == MaskWords(n) - 1;
    }
  }

  lemma {:induction false} BitIsAlone(w: bv64, a: nat, b: nat)
    requires a < 64 && b < 64
    ensures (w | Bit(a)) & Bit(b) != 0 <==> a == b || w & Bit(b) != 0
  {}

  lemma {:induction false} MarkedHas(words: seq<bv64>, i: nat, j: nat)
    requires MaskBit(i).word < |words|
    ensures Has(Marked(words, i), j) <==> j == i || Has(words, j)
  {
    var p, q := MaskBit(i), MaskBit(j);
    if p.word == q.word {
      BitIsAlone(words[p.word], p.bit, q.bit);
    }
  }

  /** Setting a bit adds its item and no other. */
  lemma {:induction false} MarkingAdds(words: seq<bv64>, i: nat)
    requires MaskBit(i).word < |words|
    ensures Items(Marked(words, i)) == Items(words) + {i}
  {
    forall j: nat ensures Has(Marked(words, i), j) <==> j == i || Has(words, j) {
      MarkedHas(words, i, j);
    }
  }

  // ----- what a run of calls has set -----

  /** What happens to a cmdlet: a parameter set, a phase run, a begin or an end found
      empty and skipped. */
  datatype Call = Put(index: nat, value: string) | Ran | SkippedBegin | SkippedEnd

  predicate Clears(c: Call) {
    c.Ran? || c.SkippedBegin?
  }

  /** The parameters ever set. */
  function EverSet(h: seq<Call>): set<nat> {
    set k | 0 <= k < |h| && h[k].Put? :: h[k].index
  }

  predicate PutSince(h: seq<Call>, k: nat) {
    k < |h| && h[k].Put? && forall j | k < j < |h| :: !Clears(h[j])
  }

  /** The parameters set since the last phase run or begin skipped. */
  function SetSince(h: seq<Call>): set<nat> {
    set k | 0 <= k < |h| && PutSince(h, k) :: h[k].index
  }

  /** The value last given to a parameter. */
  function LastValue(h: seq<Call>, i: nat, first: string): string {
    if h == [] then first
    else
      var last := h[|h| - 1];
      if last.Put? && last.index == i then last.value else LastValue(h[..|h| - 1], i, first)
  }

  lemma {:induction false} EverSetGrows(h: seq<Call>, c: Call)
    ensures EverSet(h + [c]) == if c.Put? then EverSet(h) + {c.index} else EverSet(h)
  {
    var next := h + [c];
    assert next[|h|] == c && forall k | 0 <= k < |h| :: next[k] == h[k];
    forall x ensures x in EverSet(next) <==> x in EverSet(h) || (c.Put? && x == c.index) {
      if x in EverSet(h) {
        var k :| 0 <= k < |h| && h[k].Put? && h[k].index == x;
        assert next[k] == h[k];
      }
    }
  }

  lemma {:induction false} PutSinceGrows(h: seq<Call>, c: Call, k: nat)
    requires k < |h|
    ensures PutSince(h + [c], k) <==> PutSince(h, k) && !Clears(c)
  {
    var next := h + [c];
    assert next[|h|] == c && next[k] == h[k];
    assert forall j | 0 <= j < |h| :: next[j] == h[j];
  }

  lemma {:induction false} SetSinceGrows(h: seq<Call>, c: Call)
    ensures SetSince(h + [c]) == if Clears(c) then {} else if c.Put? then SetSince(h) + {c.index} else SetSince(h)
  {
    var next := h + [c];
    assert next[|h|] == c && PutSince(next, |h|) == c.Put?;
    forall k: nat | k < |h| ensures PutSince(next, k) <==> PutSince(h, k) && !Clears(c) {
      PutSinceGrows(h, c, k);
    }
    forall x ensures x in SetSince(next) <==> !Clears(c) && (x in SetSince(h) || (c.Put? && x == c.index)) {
      if x in SetSince(h) && !Clears(c) {
        var k :| 0 <= k < |h| && PutSince(h, k) && h[k].index == x;
        assert next[k] == h[k];
      }
    }
  }

  // ----- the cmdlet -----

  /** What a phase is given. */
  datatype Block = Block(dirty: seq<bv64>, bound: seq<bv64>, values: seq<string>)

  class Cmdlet {
    const n: nat
    const initial: string
    var values: seq<string>
    var bound: seq<bv64>
    var dirty: seq<bv64>
    /** Every call so far. */
    ghost var history: seq<Call>

    ghost predicate Valid()
      reads this
    {
      && |values| == n && |bound| == MaskWords(n) && |dirty| == MaskWords(n)
      && Items(bound) == EverSet(history)
      && Items(dirty) == SetSince(history)
      && forall i | 0 <= i < n :: values[i] == LastValue(history, i, initial)
    }

    /** What `Run` gives now: as Dirty exactly the parameters set since the last phase
        run or begin skipped, as Bound those ever set, each with its last value. */
    ghost predicate Passes(b: Block, h: seq<Call>) {
      && |b.dirty| == |b.bound| == MaskWords(n) && |b.values| == n
      && Items(b.dirty) == SetSince(h) && Items(b.bound) == EverSet(h)
      && forall i | 0 <= i < n :: b.values[i] == LastValue(h, i, initial)
    }

    constructor (n: nat, initial: string)
      ensures Valid() && history == [] && this.n == n && this.initial == initial
    {
      this.n, this.initial := n, initial;
      values := seq(n, _ => initial);
      bound, dirty := Cleared(MaskWords(n)), Cleared(MaskWords(n));
      history := [];
      new;
      assert EverSet([]) == {} && SetSince([]) == {};
    }

    /** A parameter's setter. */
    method Put(i: nat, value: string)
      requires Valid() && i < n
      modifies this
      ensures Valid() && history == old(history) + [Call.Put(i, value)]
      ensures values == old(values)[i := value] && bound == Marked(old(bound), i) && dirty == Marked(old(dirty), i)
    {
      EachItemHasItsBit(n, i, i);
      values := values[i := value];
      bound := WithBit(bound, i);
      dirty := WithBit(dirty, i);
      Record(Call.Put(i, value));
    }

    static method WithBit(words: seq<bv64>, i: nat) returns (marked: seq<bv64>)
      requires MaskBit(i).word < |words|
      ensures marked == Marked(words, i)
      ensures Items(marked) == Items(words) + {i}
    {
      var p := MaskBit(i);
      marked := words[p.word := words[p.word] | Bit(p.bit)];
      MarkingAdds(words, i);
    }

    ghost method Record(c: Call)
      requires |values| == n && |bound| == MaskWords(n) && |dirty| == MaskWords(n)
      requires Items(bound) == if c.Put? then EverSet(history) + {c.index} else EverSet(history)
      requires Items(dirty) == if Clears(c) then {} else if c.Put? then SetSince(history) + {c.index}
          else SetSince(history)
      requires forall i | 0 <= i < n ::
          values[i] == if c.Put? && c.index == i then c.value else LastValue(history, i, initial)
      modifies this`history
      ensures Valid() && history == old(history) + [c]
    {
      EverSetGrows(history, c);
      SetSinceGrows(history, c);
      assert (history + [c])[..|history|] == history;
      history := history + [c];
    }

    /** Clears each word of the mask of parameters set, and gives what it was. */
    method TakeDirty() returns (was: seq<bv64>)
      requires |dirty| == MaskWords(n)
      modifies this`dirty
      ensures was == old(dirty) && dirty == Cleared(MaskWords(n))
    {
      was := [];
      for w := 0 to MaskWords(n)
        invariant |dirty| == MaskWords(n) && was == old(dirty)[..w]
        invariant forall k | 0 <= k < w :: dirty[k] == 0
        invariant forall k | w <= k < |dirty| :: dirty[k] == old(dirty)[k]
      {
        was := was + [dirty[w]];
        dirty := dirty[w := 0];
      }
    }

    method Run() returns (b: Block)
      requires Valid()
      modifies this`dirty, this`history
      ensures Valid() && history == old(history) + [Ran]
      ensures Passes(b, old(history))
      ensures dirty == Cleared(MaskWords(n))
    {
      var was := TakeDirty();
      b := Block(was, bound, values);
      Record(Ran);
    }

    /** A begin whose phase Rust does not have is skipped, and what was set is cleared. */
    method BeginProcessing(needed: bool) returns (b: Option<Block>)
      requires Valid()
      modifies this`dirty, this`history
      ensures Valid() && history == old(history) + [if needed then Ran else SkippedBegin]
      ensures b.Some? <==> needed
      ensures b.Some? ==> Passes(b.value, old(history))
      ensures dirty == Cleared(MaskWords(n))
    {
      if needed {
        var block := Run();
        b := Some(block);
      } else {
        var _ := TakeDirty();
        Record(SkippedBegin);
        b := None;
      }
    }

    method ProcessRecord() returns (b: Block)
      requires Valid()
      modifies this`dirty, this`history
      ensures Valid() && history == old(history) + [Ran] && Passes(b, old(history))
      ensures dirty == Cleared(MaskWords(n))
    {
      b := Run();
    }

    /** An end whose phase Rust does not have is skipped, and clears nothing. */
    method EndProcessing(needed: bool) returns (b: Option<Block>)
      requires Valid()
      modifies this`dirty, this`history
      ensures Valid() && history == old(history) + [if needed then Ran else SkippedEnd]
      ensures b.Some? <==> needed
      ensures b.Some? ==> Passes(b.value, old(history))
      ensures !needed ==> dirty == old(dirty)
    {
      if needed {
        var block := Run();
        b := Some(block);
      } else {
        Record(SkippedEnd);
        b := None;
      }
    }

    /** The parameters whose setter ran, as a dynamic parameter's hook is told them. */
    method SetForHook() returns (indices: seq<nat>)
      requires Valid()
      ensures forall i: nat :: i in indices <==> i < n && i in EverSet(history)
      ensures forall j, k | 0 <= j < k < |indices| :: indices[j] < indices[k]
    {
      indices := [];
      for i := 0 to n
        invariant forall j: nat :: j in indices <==> j < i && j in EverSet(history)
        invariant forall j, k | 0 <= j < k < |indices| :: indices[j] < indices[k]
        invariant forall j | 0 <= j < |indices| :: indices[j] < i
      {
        var p := MaskBit(i);
        EachItemHasItsBit(n, i, i);
        assert i in Items(bound) <==> Has(bound, i);
        if bound[p.word] & Bit(p.bit) != 0 {
          indices := indices + [i];
        }
      }
    }
  }
}
