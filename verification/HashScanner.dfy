/** The bitmask hash scanner: finds 32-byte needles over [a-z0-9] in a buffer. A
    SIMD prefilter turns each block of 32 bytes into a mask; runs of set bits that
    span a block boundary decide where a needle could possibly start. */
module HashScanner {
  import opened Wrappers

  /** A byte of [a-z0-9]. */
  predicate Alnum(x: byte) {
    97 <= x <= 122 || 48 <= x <= 57
  }

  // ------------------------------------------------------------------- 32-bit masks

  /** The bits of a `u32`, least significant first. */
  type Mask = m: seq<bool> | |m| == 32 witness seq(32, _ => false)

  function Not(m: seq<bool>): (r: seq<bool>)
    ensures |r| == |m| && forall i :: 0 <= i < |m| ==> r[i] == !m[i]
  {
    seq(|m|, i requires 0 <= i < |m| => !m[i])
  }

  function TrailingZeros(m: seq<bool>): (n: nat)
    ensures n <= |m| && (forall i :: 0 <= i < n ==> !m[i]) && (n < |m| ==> m[n])
  {
    if m == [] || m[0] then 0
    else
      var n := TrailingZeros(m[1..]);
      assert forall i :: 1 <= i < |m| ==> m[i] == m[1..][i - 1];
      n + 1
  }

  function LeadingZeros(m: seq<bool>): (n: nat)
    ensures n <= |m| && (forall i :: |m| - n <= i < |m| ==> !m[i]) && (n < |m| ==> m[|m| - 1 - n])
  {
    if m == [] || m[|m| - 1] then 0 else LeadingZeros(m[..|m| - 1]) + 1
  }

  /** Bytes are compared as signed integers. */
  function Signed(x: byte): (r: int)
    ensures -128 <= r < 128 && (r - x as int) % 256 == 0
  {
    if x < 128 then x else x - 256
  }

  /** `prefilter` on the block at `at`: bit `i` is set for byte `i` of [a-z0-9]. */
  function Prefilter(input: seq<byte>, at: nat): (m: Mask)
    requires at + 32 <= |input|
    ensures forall i {:trigger m[i]} :: 0 <= i < 32 ==> m[i] == Alnum(input[at + i])
  {
    var m := seq(32, i requires 0 <= i < 32 => PrefilterBit(input[at + i]));
    assert forall i {:trigger m[i]} :: 0 <= i < 32 ==> m[i] == PrefilterBit(input[at + i]);
    m
  }

  function PrefilterBit(x: byte): (b: bool)
    ensures b == Alnum(x)
  {
    (Signed(x) > 97 - 1 && 122 + 1 > Signed(x)) || (Signed(x) > 48 - 1 && 57 + 1 > Signed(x))
  }

  // ---------------------------------------------------------------------- scan_clean

  /** A window of 32 bytes that could be a needle. */
  ghost predicate Candidate(input: seq<byte>, p: nat) {
    p + 32 <= |input| && forall i :: p <= i < p + 32 ==> Alnum(input[i])
  }

  /** What the block after the last one is taken to be: all bits but the last set. */
  function Unknown(): Mask {
    seq(32, i => i < 31)
  }

  function Peek(input: seq<byte>, at: nat, end: nat): Mask
    requires end <= |input|
  {
    if at + 32 <= end then Prefilter(input, at) else Unknown()
  }

  /** Set bits at the end of this block and at the start of the next. */
  function Run(mask: Mask, peek: Mask): nat {
    LeadingZeros(Not(mask)) + TrailingZeros(Not(peek))
  }

  lemma LeadingOnes(m: seq<bool>, k: nat)
    requires k <= |m| && forall i :: |m| - k <= i < |m| ==> m[i]
    ensures LeadingZeros(Not(m)) >= k
  {
    var n := LeadingZeros(Not(m));
    if n < |m| { assert Not(m)[|m| - 1 - n]; }
  }

  lemma TrailingOnes(m: seq<bool>, k: nat)
    requires k <= |m| && forall i :: 0 <= i < k ==> m[i]
    ensures TrailingZeros(Not(m)) >= k
  {
    var n := TrailingZeros(Not(m));
    if n < |m| { assert Not(m)[n]; }
  }

  lemma NoLeadingOnes(m: seq<bool>)
    requires m != [] && !m[|m| - 1]
    ensures LeadingZeros(Not(m)) == 0
  {
    assert Not(m)[|m| - 1];
  }

  /** A candidate starting in the block makes a run of at least 32 bits. */
  lemma CandidateMakesRun(input: seq<byte>, at: nat, end: nat, q: nat)
    requires at + 32 <= end <= |input| && q < 32 && Candidate(input, at + q)
    ensures Run(Prefilter(input, at), Peek(input, at + 32, end)) >= 32
    ensures TrailingZeros(Prefilter(input, at)) <= q
  {
    var mask, peek := Prefilter(input, at), Peek(input, at + 32, end);
    LeadingOnes(mask, 32 - q);
    TrailingOnes(peek, q);
    assert mask[q];
  }

  lemma BlockCandidates(input: seq<byte>, at: nat, end: nat)
    requires at + 32 <= end <= |input|
    ensures forall p :: at <= p < at + 32 && Candidate(input, p) ==>
              && Run(Prefilter(input, at), Peek(input, at + 32, end)) >= 32
              && TrailingZeros(Prefilter(input, at)) <= p - at
  {
    forall p | at <= p < at + 32 && Candidate(input, p)
      ensures Run(Prefilter(input, at), Peek(input, at + 32, end)) >= 32
      ensures TrailingZeros(Prefilter(input, at)) <= p - at
    {
      CandidateMakesRun(input, at, end, p - at);
    }
  }

  /** `scan_clean` on the input from `base` on: the length of the prefix known to contain no
      start of a needle, and whether that is all there is. */
  method ScanClean(input: seq<byte>, base: nat) returns (clean: bool, n: nat)
    requires base <= |input|
    ensures base + n <= |input|
    ensures forall p :: base <= p < base + n ==> !Candidate(input, p)
    ensures clean ==> n == (|input| - base) - (|input| - base) % 32
    ensures !clean ==> base + n < |input| && Alnum(input[base + n])
  {
    var len := (|input| - base) - (|input| - base) % 32;
    var end := base + len;
    var offset := 0;
    while offset < len
      invariant 0 <= offset <= len && offset % 32 == 0
      invariant forall p :: base <= p < base + offset ==> !Candidate(input, p)
    {
      var at := base + offset;
      var mask := Prefilter(input, at);
      var peek := Peek(input, at + 32, end);
      BlockCandidates(input, at, end);
      if Run(mask, peek) >= 32 {
        RunStarts(input, at, end);
        return false, offset + TrailingZeros(mask);
      }
      offset := offset + 32;
    }
    return true, len;
  }

  /** A long run begins at a byte of [a-z0-9], in this block or the next. */
  lemma RunStarts(input: seq<byte>, at: nat, end: nat)
    requires at + 32 <= end <= |input|
    requires Run(Prefilter(input, at), Peek(input, at + 32, end)) >= 32
    ensures var z := TrailingZeros(Prefilter(input, at));
            at + z < |input| && Alnum(input[at + z])
  {
    var mask, peek := Prefilter(input, at), Peek(input, at + 32, end);
    var z := TrailingZeros(mask);
    if z < 32 {
      assert mask[z] == Alnum(input[at + z]);
    } else {
      NoLeadingOnes(mask);
      assert TrailingZeros(Not(peek)) == 32;
      assert !Not(peek)[31] && !Not(peek)[0];
      assert peek[0];
    }
  }

  // -------------------------------------------------------------------- the main loop

  type Hit = (seq<byte>, nat)

  /** Every window of 32 bytes that is among the needles, in order. */
  ghost function Naive(input: seq<byte>, needles: set<seq<byte>>, from: nat): seq<Hit>
    decreases |input| - from
  {
    if from + 32 > |input| then []
    else
      (if input[from..from + 32] in needles then [(input[from..from + 32], from)] else [])
      + Naive(input, needles, from + 1)
  }

  ghost function AlnumNeedles(needles: set<seq<byte>>): set<seq<byte>> {
    set s | s in needles && forall i :: 0 <= i < |s| ==> Alnum(s[i])
  }

  lemma WindowInNeedles(input: seq<byte>, needles: set<seq<byte>>, p: nat)
    requires p + 32 <= |input|
    ensures input[p..p + 32] in AlnumNeedles(needles) <==> input[p..p + 32] in needles && Candidate(input, p)
  {
    var w := input[p..p + 32];
    if w in AlnumNeedles(needles) {
      forall i | p <= i < p + 32 ensures Alnum(input[i]) { assert w[i - p] == input[i]; }
    }
  }

  /** Where no candidate starts, nothing is found. */
  lemma {:induction false} NaiveSkip(input: seq<byte>, needles: set<seq<byte>>, from: nat, to: nat)
    requires from <= to <= |input|
    requires forall p :: from <= p < to ==> !Candidate(input, p)
    ensures Naive(input, AlnumNeedles(needles), from) == Naive(input, AlnumNeedles(needles), to)
    decreases |input| - from
  {
    if from < to {
      NaiveSkip(input, needles, from + 1, to);
      if from + 32 <= |input| {
        WindowInNeedles(input, needles, from);
      } else {
        assert Naive(input, AlnumNeedles(needles), to) == [];
      }
    }
  }

  /** The end of the longest prefix of `input[from..]` within [a-z0-9]. */
  method AlnumPrefix(input: seq<byte>, from: nat) returns (end: nat)
    requires from <= |input|
    ensures from <= end <= |input|
    ensures forall i :: from <= i < end ==> Alnum(input[i])
    ensures end < |input| ==> !Alnum(input[end])
  {
    end := from;
    while end < |input| && Alnum(input[end])
      invariant from <= end <= |input|
      invariant forall i :: from <= i < end ==> Alnum(input[i])
    {
      end := end + 1;
    }
  }

  /** All windows of 32 bytes in the run from `from` to `end`. */
  method ScanRun(input: seq<byte>, needles: set<seq<byte>>, from: nat, end: nat, before: seq<Hit>)
    returns (hits: seq<Hit>)
    requires from <= end <= |input|
    requires forall i :: from <= i < end ==> Alnum(input[i])
    requires end < |input| ==> !Alnum(input[end])
    ensures hits + Naive(input, AlnumNeedles(needles), end) == before + Naive(input, AlnumNeedles(needles), from)
  {
    hits := before;
    var p := from;
    while p + 32 <= end
      invariant from <= p <= end
      invariant hits + Naive(input, AlnumNeedles(needles), p) == before + Naive(input, AlnumNeedles(needles), from)
    {
      var w := input[p..p + 32];
      WindowInNeedles(input, needles, p);
      ghost var rest := Naive(input, AlnumNeedles(needles), p + 1);
      if w in needles {
        assert hits + ([(w, p)] + rest) == hits + [(w, p)] + rest;
        hits := hits + [(w, p)];
      } else {
        assert [] + rest == rest;
      }
      p := p + 1;
    }
    forall q | p <= q < end ensures !Candidate(input, q) {
      assert q + 32 > end;
    }
    NaiveSkip(input, needles, p, end);
  }

  /** The whole program: skip what `scan_clean` rules out, look at every window of
      the run that follows, go on after it. */
  method Scan(input: seq<byte>, needles: set<seq<byte>>) returns (hits: seq<Hit>)
    ensures hits == Naive(input, AlnumNeedles(needles), 0)
  {
    hits := [];
    var pos := 0;
    ghost var all := Naive(input, AlnumNeedles(needles), 0);
    assert [] + all == all;
    while |input| - pos >= 32
      invariant 0 <= pos <= |input|
      invariant hits + Naive(input, AlnumNeedles(needles), pos) == all
      decreases |input| - pos
    {
      var clean, n := ScanClean(input, pos);
      NaiveSkip(input, needles, pos, pos + n);
      var end := AlnumPrefix(input, pos + n);
      hits := ScanRun(input, needles, pos + n, end, hits);
      pos := end;
    }
  }

  /** With needles over [a-z0-9] the result is that of looking at every window. */
  lemma NothingMissed(input: seq<byte>, needles: set<seq<byte>>)
    requires forall s :: s in needles ==> forall i :: 0 <= i < |s| ==> Alnum(s[i])
    ensures Naive(input, AlnumNeedles(needles), 0) == Naive(input, needles, 0)
  {
    assert AlnumNeedles(needles) == needles;
  }
}
