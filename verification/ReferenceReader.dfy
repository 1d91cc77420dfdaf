/** The streaming reference scanner: a reader that hands its inner stream through
    unchanged while marking which candidates occur in it. A sliding buffer keeps
    enough overlap for candidates that straddle reads. */
module ReferenceReader {
  import opened Wrappers

  // ------------------------------------------------------------ one-shot scanning

  ghost predicate OccursAt(c: seq<byte>, hay: seq<byte>, at: nat) {
    at + |c| <= |hay| && hay[at..at + |c|] == c
  }

  ghost predicate Occurs(c: seq<byte>, hay: seq<byte>) {
    exists at: nat :: OccursAt(c, hay, at)
  }

  /** The length of the longest candidate, zero if there are none. */
  function Longest(cands: seq<seq<byte>>): nat {
    if cands == [] then 0
    else
      var rest := Longest(cands[..|cands| - 1]);
      if rest < |cands[|cands| - 1]| then |cands[|cands| - 1]| else rest
  }

  lemma {:induction false} LongestBounds(cands: seq<seq<byte>>, i: nat)
    requires i < |cands|
    ensures |cands[i]| <= Longest(cands)
    decreases |cands|
  {
    if i < |cands| - 1 {
      LongestBounds(cands[..|cands| - 1], i);
    }
  }

  lemma {:induction false} LongestAttained(cands: seq<seq<byte>>) returns (i: nat)
    requires cands != []
    ensures i < |cands| && |cands[i]| == Longest(cands)
  {
    i := |cands| - 1;
    if |cands| > 1 && Longest(cands[..i]) >= |cands[i]| {
      i := LongestAttained(cands[..i]);
    }
  }

  /** `ReferencePattern`: the candidates, and the length of the longest one. */
  datatype Pattern = Pattern(cands: seq<seq<byte>>, longest: nat) {
    ghost predicate Valid() {
      forall i :: 0 <= i < |cands| ==> |cands[i]| <= longest
    }

    /** How many bytes of an earlier read a later match may need. */
    function Overlap(): nat {
      if longest == 0 then 0 else longest - 1
    }
  }

  function PatternOf(cands: seq<seq<byte>>): (p: Pattern)
    ensures p.Valid() && p.cands == cands
    ensures if cands == [] then p.longest == 0 else exists i :: 0 <= i < |cands| && |cands[i]| == p.longest
  {
    assert cands != [] ==> exists i :: 0 <= i < |cands| && |cands[i]| == Longest(cands) by {
      if cands != [] { var i := LongestAttained(cands); }
    }
    assert forall i :: 0 <= i < |cands| ==> |cands[i]| <= Longest(cands) by {
      forall i | 0 <= i < |cands| ensures |cands[i]| <= Longest(cands) { LongestBounds(cands, i); }
    }
    Pattern(cands, Longest(cands))
  }

  /** The candidates that occur in a haystack long enough to be scanned. */
  ghost function OneShot(p: Pattern, hay: seq<byte>): set<nat> {
    if |hay| < p.longest then {}
    else set i: nat | i < |p.cands| && Occurs(p.cands[i], hay)
  }

  lemma OccursMonotone(c: seq<byte>, hay: seq<byte>, more: seq<byte>)
    requires Occurs(c, hay)
    ensures Occurs(c, hay + more)
  {
    var at: nat :| OccursAt(c, hay, at);
    assert (hay + more)[at..at + |c|] == hay[at..at + |c|];
    assert OccursAt(c, hay + more, at);
  }

  lemma OccursInTail(c: seq<byte>, front: seq<byte>, hay: seq<byte>)
    requires Occurs(c, hay)
    ensures Occurs(c, front + hay)
  {
    var at: nat :| OccursAt(c, hay, at);
    assert (front + hay)[|front| + at..|front| + at + |c|] == hay[at..at + |c|];
    assert OccursAt(c, front + hay, |front| + at);
  }

  /** An occurrence that does not start in the tail ends before the new bytes. */
  lemma OccursBefore(c: seq<byte>, hay: seq<byte>, more: seq<byte>, at: nat)
    requires OccursAt(c, hay + more, at) && at + |c| <= |hay|
    ensures Occurs(c, hay)
  {
    assert hay[at..at + |c|] == (hay + more)[at..at + |c|];
    assert OccursAt(c, hay, at);
  }

  lemma OccursAfter(c: seq<byte>, front: seq<byte>, window: seq<byte>, at: nat)
    requires OccursAt(c, front + window, at) && at >= |front|
    ensures Occurs(c, window)
  {
    assert window[at - |front|..at - |front| + |c|] == (front + window)[at..at + |c|];
    assert OccursAt(c, window, at - |front|);
  }

  /** An occurrence either lies in the old bytes or in the window made of the
      last `keep` old bytes and the new ones. */
  lemma OccursSplit(c: seq<byte>, hay: seq<byte>, more: seq<byte>, keep: nat)
    requires keep <= |hay| && (|c| <= keep + 1 || keep == |hay|)
    ensures Occurs(c, hay + more) <==> Occurs(c, hay) || Occurs(c, hay[|hay| - keep..] + more)
  {
    var cut := |hay| - keep;
    var front, window := hay[..cut], hay[cut..] + more;
    assert hay + more == front + window;
    if at: nat :| OccursAt(c, hay + more, at) {
      if at >= cut {
        OccursAfter(c, front, window, at);
      } else {
        OccursBefore(c, hay, more, at);
      }
    }
    if Occurs(c, hay) {
      OccursMonotone(c, hay, more);
    }
    if Occurs(c, window) {
      OccursInTail(c, front, window);
    }
  }

  /** Scanning only the window adds exactly what scanning everything would. */
  lemma ScanWindow(p: Pattern, hay: seq<byte>, more: seq<byte>, keep: nat)
    requires p.Valid() && keep <= |hay| && (p.longest <= keep + 1 || keep == |hay|)
    requires keep + |more| >= p.longest
    ensures OneShot(p, hay + more)
         == OneShot(p, hay) + OneShot(p, hay[|hay| - keep..] + more)
  {
    var window := hay[|hay| - keep..] + more;
    forall i: nat | i < |p.cands|
      ensures i in OneShot(p, hay + more) <==>
              i in OneShot(p, hay) || i in OneShot(p, window)
    {
      OccursSplit(p.cands[i], hay, more, keep);
      if |hay| < p.longest && Occurs(p.cands[i], hay) {
        // everything is still in the window
        assert keep == |hay| || keep + 1 == p.longest;
        assert keep == |hay|;
        assert hay[|hay| - keep..] == hay;
        OccursMonotone(p.cands[i], hay, more);
      }
    }
  }

  /** Bytes read but not yet scanned cannot hold a match while they are too few. */
  lemma PartialScan(p: Pattern, stream: seq<byte>, h: nat, pos: nat, keep: nat)
    requires keep <= h <= pos <= |stream|
    requires keep == h || keep == p.Overlap()
    requires keep + (pos - h) <= p.Overlap() || pos == h
    ensures OneShot(p, stream[..pos]) == OneShot(p, stream[..h]) && Sure(p, stream, pos) == Sure(p, stream, h)
  {
    if pos != h {
      ShortHay(p, stream[..pos]);
      ShortHay(p, stream[..h]);
    }
  }

  /** Scanning the buffer, `keep` old bytes and all new ones, catches up with the stream. */
  lemma WindowScan(p: Pattern, stream: seq<byte>, h: nat, pos: nat, keep: nat)
    requires p.Valid() && keep <= h <= pos <= |stream|
    requires keep == h || keep == p.Overlap()
    ensures OneShot(p, stream[..pos])
         == OneShot(p, stream[..h]) + OneShot(p, stream[h - keep..pos])
  {
    if keep + (pos - h) >= p.longest {
      var hay, more := stream[..h], stream[h..pos];
      assert hay + more == stream[..pos];
      assert hay[h - keep..] + more == stream[h - keep..pos];
      ScanWindow(p, hay, more, keep);
    } else {
      PartialScan(p, stream, h, pos, keep);
      ShortHay(p, stream[h - keep..pos]);
    }
  }

  lemma ShortHay(p: Pattern, hay: seq<byte>)
    requires |hay| < p.longest
    ensures OneShot(p, hay) == {}
  {
  }

  // ------------------------------------------------------------- leftmost, not overlapping

  /** The first candidate from the `i`th on that occurs at `at`. */
  function CandidateAt(p: Pattern, hay: seq<byte>, at: nat, i: nat): (r: Option<nat>)
    requires i <= |p.cands|
    ensures r.Some? ==> i <= r.value < |p.cands| && OccursAt(p.cands[r.value], hay, at)
    ensures r.None? ==> forall j {:trigger OccursAt(p.cands[j], hay, at)} ::
                          i <= j < |p.cands| ==> !OccursAt(p.cands[j], hay, at)
    decreases |p.cands| - i
  {
    if i == |p.cands| then None
    else if at + |p.cands[i]| <= |hay| && hay[at..at + |p.cands[i]|] == p.cands[i] then Some(i)
    else CandidateAt(p, hay, at, i + 1)
  }

  /** Where the search goes on after a match at `at`. */
  function Beyond(p: Pattern, at: nat, i: nat): (next: nat)
    requires i < |p.cands|
    ensures next > at
  {
    if |p.cands[i]| == 0 then at + 1 else at + |p.cands[i]|
  }

  /** What the searcher reports: from left to right, going on behind each match. */
  function SearchFrom(p: Pattern, hay: seq<byte>, at: nat): set<nat>
    decreases |hay| + 1 - at
  {
    if at > |hay| then {} else
      match CandidateAt(p, hay, at, 0)
      case None => SearchFrom(p, hay, at + 1)
      case Some(i) => {i} + SearchFrom(p, hay, Beyond(p, at, i))
  }

  /** What one `scan` of the haystack marks. */
  function Search(p: Pattern, hay: seq<byte>): set<nat> {
    if |hay| < p.longest then {} else SearchFrom(p, hay, 0)
  }

  /** A candidate that occurs at `a` reaches over the position `b`, or begins there. */
  ghost predicate Covers(p: Pattern, hay: seq<byte>, j: nat, a: nat, b: nat) {
    j < |p.cands| && OccursAt(p.cands[j], hay, a) && a <= b && (a == b || b < a + |p.cands[j]|)
  }

  /** The candidate occurs at `b`, and no other one reaches over that position or begins there. */
  ghost predicate Clear(p: Pattern, hay: seq<byte>, i: nat, b: nat) {
    && i < |p.cands| && OccursAt(p.cands[i], hay, b)
    && forall j: nat, a: nat {:trigger Covers(p, hay, j, a, b)} :: j != i ==> !Covers(p, hay, j, a, b)
  }

  ghost predicate ClearBefore(p: Pattern, hay: seq<byte>, i: nat, pos: nat) {
    exists b: nat :: Clear(p, hay, i, b) && b + |p.cands[i]| <= pos
  }

  /** The candidates with a clear occurrence in the first `pos` bytes. */
  ghost function Sure(p: Pattern, hay: seq<byte>, pos: nat): set<nat> {
    if pos < p.longest then {} else set i: nat | i < |p.cands| && ClearBefore(p, hay, i, pos)
  }

  /** Every candidate that occurs has a clear occurrence. */
  ghost predicate Unhidden(p: Pattern, hay: seq<byte>) {
    OneShot(p, hay) <= Sure(p, hay, |hay|)
  }

  lemma {:induction false} SearchSound(p: Pattern, hay: seq<byte>, at: nat, i: nat)
    requires i in SearchFrom(p, hay, at)
    ensures i < |p.cands| && exists b: nat :: at <= b && OccursAt(p.cands[i], hay, b)
    decreases |hay| + 1 - at
  {
    match CandidateAt(p, hay, at, 0) {
      case None => SearchSound(p, hay, at + 1, i);
      case Some(j) => if i != j { SearchSound(p, hay, Beyond(p, at, j), i); }
    }
  }

  lemma {:induction false} SearchComplete(p: Pattern, hay: seq<byte>, at: nat, i: nat, b: nat)
    requires at <= b && Clear(p, hay, i, b)
    ensures i in SearchFrom(p, hay, at)
    decreases |hay| + 1 - at
  {
    match CandidateAt(p, hay, at, 0) {
      case None => SearchComplete(p, hay, at + 1, i, b);
      case Some(j) =>
        if i != j {
          assert !Covers(p, hay, j, at, b);
          SearchComplete(p, hay, Beyond(p, at, j), i, b);
        }
    }
  }

  /** The search reports only candidates that occur, and all that have a clear occurrence. */
  lemma SearchIs(p: Pattern, hay: seq<byte>)
    ensures Sure(p, hay, |hay|) <= Search(p, hay) <= OneShot(p, hay)
  {
    forall i | i in Search(p, hay) ensures i in OneShot(p, hay) {
      SearchSound(p, hay, 0, i);
    }
    forall i | i in Sure(p, hay, |hay|) ensures i in Search(p, hay) {
      assert ClearBefore(p, hay, i, |hay|);
      var b: nat :| Clear(p, hay, i, b);
      SearchComplete(p, hay, 0, i, b);
    }
  }

  /** Occurrences of different candidates never overlap or begin at one place. */
  ghost predicate Apart(p: Pattern, hay: seq<byte>) {
    forall i: nat, j: nat, a: nat, b: nat {:trigger Covers(p, hay, j, a, b), Covers(p, hay, i, b, b)} ::
      Covers(p, hay, i, b, b) && Covers(p, hay, j, a, b) ==> i == j
  }

  lemma ApartUnhidden(p: Pattern, hay: seq<byte>)
    requires p.Valid() && Apart(p, hay)
    ensures Unhidden(p, hay)
  {
    forall i | i in OneShot(p, hay) ensures i in Sure(p, hay, |hay|) {
      var b: nat :| OccursAt(p.cands[i], hay, b);
      assert Covers(p, hay, i, b, b);
      assert Clear(p, hay, i, b) && ClearBefore(p, hay, i, |hay|);
    }
  }

  lemma OccursInSlice(c: seq<byte>, stream: seq<byte>, from: nat, to: nat, at: nat)
    requires from <= to <= |stream| && OccursAt(c, stream[from..to], at)
    ensures OccursAt(c, stream, from + at)
  {
    var part := stream[from..to];
    var inner, outer := part[at..at + |c|], stream[from + at..from + at + |c|];
    forall k | 0 <= k < |c| ensures inner[k] == outer[k] {
      assert inner[k] == part[at + k] == stream[from + (at + k)];
    }
    assert inner == outer;
  }

  lemma OccursInside(c: seq<byte>, stream: seq<byte>, from: nat, to: nat, at: nat)
    requires from <= at && at + |c| <= to <= |stream| && OccursAt(c, stream, at)
    ensures OccursAt(c, stream[from..to], at - from)
  {
    var part := stream[from..to];
    var inner, outer := part[at - from..at - from + |c|], stream[at..at + |c|];
    forall k | 0 <= k < |c| ensures inner[k] == outer[k] {
      assert inner[k] == part[at - from + k] == stream[from + (at - from + k)];
    }
    assert inner == outer;
  }

  /** A clear occurrence is clear in every part of the stream that contains it. */
  lemma ClearSlice(p: Pattern, stream: seq<byte>, from: nat, to: nat, i: nat, b: nat)
    requires Clear(p, stream, i, b) && from <= b && b + |p.cands[i]| <= to <= |stream|
    ensures Clear(p, stream[from..to], i, b - from)
  {
    var part, b' := stream[from..to], b - from;
    OccursInside(p.cands[i], stream, from, to, b);
    forall j: nat, a: nat | j != i ensures !Covers(p, part, j, a, b') {
      if Covers(p, part, j, a, b') {
        OccursInSlice(p.cands[j], stream, from, to, a);
        assert Covers(p, stream, j, from + a, b);
      }
    }
  }

  lemma ClearFound(p: Pattern, stream: seq<byte>, from: nat, to: nat, i: nat, b: nat)
    requires Clear(p, stream, i, b) && from <= b && b + |p.cands[i]| <= to <= |stream| && to - from >= p.longest
    ensures i in Search(p, stream[from..to])
  {
    ClearSlice(p, stream, from, to, i, b);
    SearchComplete(p, stream[from..to], 0, i, b - from);
  }

  /** Searching `keep` old bytes and all new ones reports what has become sure. */
  lemma WindowSure(p: Pattern, stream: seq<byte>, h: nat, pos: nat, keep: nat, i: nat)
    requires p.Valid() && keep <= h <= pos <= |stream| && (keep == h || keep == p.Overlap())
    requires i in Sure(p, stream, pos)
    ensures i in Search(p, stream[h - keep..pos]) || (keep < h && i in Sure(p, stream, h))
  {
    assert ClearBefore(p, stream, i, pos);
    var b: nat :| Clear(p, stream, i, b) && b + |p.cands[i]| <= pos;
    if keep < h && b + |p.cands[i]| <= h {
      assert ClearBefore(p, stream, i, h);
    } else {
      ClearFound(p, stream, h - keep, pos, i, b);
    }
  }

  // ------------------------------------------------------------------- the scanner

  class Scanner {
    const pattern: Pattern
    var matches: seq<bool>

    ghost predicate Valid()
      reads this
    {
      |matches| == |pattern.cands| && pattern.Valid()
    }

    ghost function Matched(): set<nat>
      reads this
    {
      set i: nat | i < |matches| && matches[i]
    }

    constructor (candidates: seq<seq<byte>>)
      ensures Valid() && pattern == PatternOf(candidates) && Matched() == {}
    {
      pattern := PatternOf(candidates);
      matches := seq(|candidates|, _ => false);
    }

    /** Adds what the search reports to the flags. */
    method Scan(hay: seq<byte>)
      requires Valid()
      modifies this
      ensures Valid() && Matched() == old(Matched()) + Search(pattern, hay)
    {
      if |hay| < pattern.longest {
        return;
      }
      var at := 0;
      while at <= |hay|
        invariant Valid() && Matched() + SearchFrom(pattern, hay, at) == old(Matched()) + SearchFrom(pattern, hay, 0)
        decreases |hay| + 1 - at
      {
        var found := CandidateAt(pattern, hay, at, 0);
        if found.Some? {
          MarkOne(found.value);
          at := Beyond(pattern, at, found.value);
        } else {
          at := at + 1;
        }
      }
    }

    method MarkOne(i: nat)
      requires Valid() && i < |pattern.cands|
      modifies this
      ensures Valid() && Matched() == old(Matched()) + {i}
    {
      matches := matches[i := true];
    }
  }

  // -------------------------------------------------------------------- the reader

  /** `part` is what `stream` holds from position `from` on. */
  ghost predicate SliceAt(stream: seq<byte>, from: int, part: seq<byte>) {
    && 0 <= from && from + |part| <= |stream|
    && forall i {:trigger part[i]} :: 0 <= i < |part| ==> part[i] == stream[from + i]
  }

  lemma SliceAtIs(stream: seq<byte>, from: int, part: seq<byte>)
    requires SliceAt(stream, from, part)
    ensures part == stream[from..from + |part|]
  {
  }

  /** What has been marked: candidates that occur, and all that have a clear occurrence. */
  ghost predicate Caught(matched: set<nat>, base: set<nat>, p: Pattern, stream: seq<byte>, pos: nat)
    requires pos <= |stream|
  {
    base + Sure(p, stream, pos) <= matched <= base + OneShot(p, stream[..pos])
  }

  /** Searching the buffer catches up with the stream. */
  lemma CaughtUp(matched: set<nat>, base: set<nat>, p: Pattern, stream: seq<byte>, h: nat, pos: nat, keep: nat)
    requires p.Valid() && keep <= h <= pos <= |stream| && (keep == h || keep == p.Overlap())
    requires Caught(matched, base, p, stream, h) || (p.longest == h == 0 && matched == base)
    ensures Caught(matched + Search(p, stream[h - keep..pos]), base, p, stream, pos)
  {
    var window := stream[h - keep..pos];
    WindowScan(p, stream, h, pos, keep);
    SearchIs(p, window);
    forall i | i in Sure(p, stream, pos) ensures i in matched + Search(p, window) {
      WindowSure(p, stream, h, pos, keep, i);
    }
    assert h == 0 ==> window == stream[..pos];
  }

  lemma BufferCaughtUp(matched: set<nat>, base: set<nat>, p: Pattern, stream: seq<byte>, h: nat, pos: nat, keep: nat,
                       buffer: seq<byte>)
    requires p.Valid() && keep <= h <= pos <= |stream| && (keep == h || keep == p.Overlap())
    requires Caught(matched, base, p, stream, h) || (p.longest == h == 0 && matched == base)
    requires |buffer| == keep + (pos - h) && SliceAt(stream, h - keep, buffer)
    ensures Caught(matched + Search(p, buffer), base, p, stream, pos)
  {
    var window := stream[h - keep..pos];
    assert buffer == window by { SliceAtIs(stream, h - keep, buffer); }
    CaughtUp(matched, base, p, stream, h, pos, keep);
  }

  /** One poll of the inner reader: it is not ready, or offers up to `n` bytes. */
  datatype Poll = NotReady | UpTo(n: nat)

  class Reader {
    const scanner: Scanner
    const capacity: nat
    var buffer: seq<byte>
    var consumed: nat
    ghost const base: set<nat>  // matches the scanner already had

    // the inner reader: its bytes, how many were read, and how it will behave
    const stream: seq<byte>
    var pos: nat
    var schedule: seq<Poll>

    /** How many bytes were handed to the consumer so far. */
    ghost function Delivered(): nat
      requires Bounds()
      reads this
    {
      pos - (|buffer| - consumed)
    }

    ghost predicate Bounds()
      reads this
    {
      && consumed <= |buffer| <= capacity
      && |buffer| <= pos <= |stream|
    }

    /** The buffer is the tail of what was read, long enough for every candidate
        that has begun. */
    ghost predicate Shape()
      reads this
    {
      && Bounds()
      && capacity >= scanner.pattern.longest
      && SliceAt(stream, pos - |buffer|, buffer)
      && (|buffer| == pos || |buffer| >= scanner.pattern.Overlap())
      && (capacity == 0 ==> pos == 0)
    }

    /** The flags are those of a scan of everything read. */
    ghost predicate Valid()
      reads this, scanner
    {
      && scanner.Valid()
      && Shape()
      && (Scanned() || (scanner.pattern.longest == pos == 0 && scanner.Matched() == base))
    }

    ghost predicate Scanned()
      requires pos <= |stream|
      reads this, scanner
    {
      Caught(scanner.Matched(), base, scanner.pattern, stream, pos)
    }

    /** `with_capacity`; a vector may be given `slack` bytes more than asked for. */
    constructor (requested: nat, slack: nat, s: Scanner, inner: seq<byte>, polls: seq<Poll>)
      requires s.Valid()
      ensures scanner == s && stream == inner && schedule == polls && pos == 0 && buffer == []
      ensures Valid() && Delivered() == 0 && base == s.Matched()
      ensures capacity == (if requested < s.pattern.longest then s.pattern.longest else requested) + slack
    {
      scanner := s;
      capacity := (if requested < s.pattern.longest then s.pattern.longest else requested) + slack;
      buffer, consumed, base := [], 0, s.Matched();
      stream, pos, schedule := inner, 0, polls;
    }

    /** The next poll brings what it offers. */
    ghost predicate Promises(polls: seq<Poll>, at: nat, spare: nat) {
      polls != [] && polls[0].UpTo? && 0 < polls[0].n <= spare && at + polls[0].n <= |stream|
    }

    /** The inner `poll_read` into the spare capacity; `None` is Pending. */
    method PollInner(spare: nat) returns (r: Option<seq<byte>>)
      requires pos <= |stream|
      modifies this`pos, this`schedule
      ensures old(pos) <= pos <= |stream|
      ensures r.None? ==> pos == old(pos) && |schedule| < |old(schedule)|
      ensures r.Some? ==> SliceAt(stream, old(pos), r.value) && old(pos) + |r.value| == pos && |r.value| <= spare
      ensures r.Some? && r.value == [] ==> spare == 0 || pos == |stream|
      ensures |schedule| <= |old(schedule)|
      ensures Promises(old(schedule), old(pos), spare) ==>
                r.Some? && pos == old(pos) + old(schedule)[0].n && schedule == old(schedule)[1..]
    {
      var offer := spare;
      if schedule != [] {
        var ev := schedule[0];
        schedule := schedule[1..];
        if ev.NotReady? {
          return None;
        }
        offer := if ev.n == 0 then 1 else ev.n;
      }
      var n := if offer < spare then offer else spare;
      n := if n < |stream| - pos then n else |stream| - pos;
      r := Some(stream[pos..pos + n]);
      pos := pos + n;
    }

    /** How much of the buffer stays once everything is consumed. */
    ghost function Kept(): nat
      reads this
    {
      if |buffer| > scanner.pattern.Overlap() then scanner.pattern.Overlap() else |buffer|
    }

    /** Everything is consumed, and the next poll brings enough bytes to go on. */
    ghost predicate Forthcoming()
      reads this
    {
      && consumed == |buffer|
      && Kept() <= capacity && Promises(schedule, pos, capacity - Kept())
      && Kept() + schedule[0].n > scanner.pattern.Overlap()
    }

    /** Copies the last `overlap` bytes to the front once everything is consumed. */
    method Slide(overlap: nat)
      requires Valid() && consumed == |buffer| && overlap == scanner.pattern.Overlap()
      modifies this`buffer, this`consumed
      ensures Valid() && consumed == |buffer| && Delivered() == old(Delivered())
      ensures |buffer| == pos || |buffer| == overlap
      ensures |buffer| < capacity || capacity == 0
      ensures |buffer| == old(Kept())
    {
      if consumed > overlap {
        buffer := buffer[|buffer| - overlap..];
        consumed := overlap;
      }
    }

    /** Reads until a scan is possible, the stream ends or the inner reader is not ready. */
    method Refill(overlap: nat) returns (ready: bool)
      requires Shape() && consumed == |buffer| && overlap == scanner.pattern.Overlap()
      requires |buffer| < capacity || capacity == 0
      modifies this`buffer, this`pos, this`schedule
      ensures Shape() && old(pos) <= pos && pos - |buffer| == old(pos - |buffer|)
      ensures ready && |buffer| == consumed ==> pos == |stream| || capacity == 0
      ensures ready ==> |buffer| > overlap || pos == |stream| || capacity == 0
      ensures !ready ==> |schedule| < |old(schedule)|
      ensures !ready ==> |buffer| <= overlap || pos == old(pos)
      ensures |schedule| <= |old(schedule)|
      ensures Promises(old(schedule), old(pos), capacity - old(|buffer|)) && old(|buffer| + schedule[0].n) > overlap ==>
                ready && pos == old(pos + schedule[0].n) && schedule == old(schedule)[1..]
    {
      while true
        invariant Shape() && old(pos) <= pos && pos - |buffer| == old(pos - |buffer|)
        invariant |buffer| <= overlap || pos == old(pos)
        invariant |buffer| < capacity || capacity == 0
        invariant |schedule| <= |old(schedule)|
        invariant || (pos == old(pos) && schedule == old(schedule) && buffer == old(buffer))
                  || !(&& Promises(old(schedule), old(pos), capacity - old(|buffer|))
                       && old(|buffer| + schedule[0].n) > overlap)
        decreases |stream| - pos
      {
        var filled := PollInner(capacity - |buffer|);
        if filled.None? {
          return false;
        }
        buffer := buffer + filled.value;
        if filled.value == [] || |buffer| > overlap {
          return true;
        }
      }
    }

    /** Scans the buffer, which holds `keep` bytes from before position `h`. */
    method ScanBuffer(ghost h: nat, ghost keep: nat)
      requires scanner.Valid() && Bounds() && SliceAt(stream, pos - |buffer|, buffer)
      requires keep <= h <= pos && |buffer| == keep + (pos - h)
      requires keep == h || keep == scanner.pattern.Overlap()
      requires || Caught(scanner.Matched(), base, scanner.pattern, stream, h)
               || (scanner.pattern.longest == h == 0 && scanner.Matched() == base)
      modifies scanner
      ensures scanner.Valid() && Scanned()
      ensures scanner.Matched() == old(scanner.Matched()) + Search(scanner.pattern, buffer)
    {
      assert h - keep == pos - |buffer|;
      BufferCaughtUp(scanner.Matched(), base, scanner.pattern, stream, h, pos, keep, buffer);
      scanner.Scan(buffer);
    }

    /** Makes room, reads, and scans unless the inner reader was not ready. */
    method Fill(overlap: nat) returns (ready: bool)
      requires Valid() && consumed == |buffer| && overlap == scanner.pattern.Overlap()
      modifies this, scanner
      ensures Valid() && Delivered() == old(Delivered())
      ensures ready && |buffer| == consumed ==> AtEnd(this)
      ensures !ready ==> |schedule| < |old(schedule)|
      ensures |schedule| <= |old(schedule)|
      ensures old(Forthcoming()) ==>
                && ready && pos == old(pos + schedule[0].n) && schedule == old(schedule)[1..]
                && |buffer| == old(Kept() + schedule[0].n) && consumed == old(Kept())
                && scanner.Matched() == old(scanner.Matched()) + Search(scanner.pattern, buffer)
    {
      Slide(overlap);
      ghost var h, keep := pos, |buffer|;
      ready := Refill(overlap);
      if ready {
        ScanBuffer(h, keep);
      } else {
        PartialScan(scanner.pattern, stream, h, pos, keep);
      }
    }

    /** `poll_fill_buf`; `None` is Pending. */
    method PollFillBuf() returns (r: Option<seq<byte>>)
      requires Valid()
      modifies this, scanner
      ensures Valid() && Delivered() == old(Delivered())
      ensures r.Some? ==> r.value == buffer[consumed..] && SliceAt(stream, Delivered(), r.value)
      ensures r == Some([]) ==> AtEnd(this)
      ensures r.None? ==> |schedule| < |old(schedule)|
      ensures |schedule| <= |old(schedule)|
      ensures old(Forthcoming()) ==>
                && r.Some? && pos == old(pos + schedule[0].n) && schedule == old(schedule)[1..]
                && |buffer| == old(Kept() + schedule[0].n) && consumed == old(Kept())
                && scanner.Matched() == old(scanner.Matched()) + Search(scanner.pattern, buffer)
    {
      var overlap := scanner.pattern.Overlap();
      if consumed < |buffer| {
        return Some(buffer[consumed..]);
      }
      var ready := Fill(overlap);
      r := if ready then Some(buffer[consumed..]) else None;
    }

    method Consume(amt: nat)
      requires Valid() && consumed + amt <= |buffer|
      modifies this`consumed
      ensures Valid() && consumed == old(consumed) + amt
      ensures Delivered() == old(Delivered()) + amt
    {
      consumed := consumed + amt;
    }

    /** `poll_read` into a buffer with `room` bytes left; `None` is Pending. */
    method PollRead(room: nat) returns (r: Option<seq<byte>>)
      requires Valid()
      modifies this, scanner
      ensures Valid()
      ensures r.None? ==> Delivered() == old(Delivered()) && |schedule| < |old(schedule)|
      ensures r.Some? ==> Delivered() == old(Delivered()) + |r.value| && |r.value| <= room
      ensures r.Some? ==> SliceAt(stream, old(Delivered()), r.value)
      ensures r.Some? ==> |r.value| == room || consumed == |buffer|
      ensures r == Some([]) && room > 0 ==> AtEnd(this)
      ensures |schedule| <= |old(schedule)|
    {
      var filled := PollFillBuf();
      if filled.None? {
        return None;
      }
      var amt := if room < |filled.value| then room else |filled.value|;
      r := Some(filled.value[..amt]);
      Consume(amt);
    }
  }

  /** Nothing more will come. */
  ghost predicate AtEnd(reader: Reader)
    reads reader, reader.scanner
  {
    && reader.Valid()
    && reader.Scanned()
    && reader.Delivered() == reader.pos
    && if reader.capacity == 0 then reader.pos == 0 else reader.pos == |reader.stream|
  }

  /** Drives the reader to its end with an arbitrary sequence of read sizes. */
  method ReadToEnd(reader: Reader, sizes: seq<nat>) returns (out: seq<byte>)
    requires reader.Valid() && reader.Delivered() == 0
    modifies reader, reader.scanner
    ensures reader.base <= reader.scanner.Matched() <= reader.base + OneShot(reader.scanner.pattern, out)
    ensures reader.base + Sure(reader.scanner.pattern, reader.stream, |out|) <= reader.scanner.Matched()
    ensures Unhidden(reader.scanner.pattern, reader.stream) ==>
              reader.scanner.Matched() == reader.base + Search(reader.scanner.pattern, out)
    ensures reader.capacity > 0 ==> out == reader.stream
    ensures reader.capacity == 0 ==> out == []
  {
    out := [];
    var n := 0;
    var eof := false;
    while !eof
      invariant reader.Valid() && |out| == reader.Delivered() && n <= |sizes|
      invariant SliceAt(reader.stream, 0, out)
      invariant eof ==> AtEnd(reader)
      decreases !eof, |reader.schedule| + (|sizes| - n) + (|reader.stream| - |out|)
    {
      var room := if n < |sizes| then sizes[n] else 1;
      n := if n < |sizes| then n + 1 else n;
      var r := reader.PollRead(room);
      if r.Some? {
        out := out + r.value;
        eof := r.value == [] && room > 0;
      }
    }
    SliceAtIs(reader.stream, 0, out);
    assert out == reader.stream[..reader.pos];
    SearchIs(reader.scanner.pattern, out);
    if reader.capacity == 0 && Unhidden(reader.scanner.pattern, reader.stream) {
      OnlyEmpty(reader.scanner.pattern, reader.stream);
    } else {
      assert reader.capacity > 0 ==> reader.stream[..reader.pos] == reader.stream;
    }
  }

  /** Of candidates that are all empty only one can be clear, and it is so at the beginning. */
  lemma OnlyEmpty(p: Pattern, stream: seq<byte>)
    requires p.Valid() && p.longest == 0 && Unhidden(p, stream)
    ensures OneShot(p, []) <= Sure(p, stream, 0) && OneShot(p, []) <= Sure(p, [], 0)
  {
    forall i | i in OneShot(p, []) ensures i in Sure(p, stream, 0) && i in Sure(p, [], 0) {
      assert OccursAt(p.cands[i], stream, 0) && i in OneShot(p, stream);
      assert ClearBefore(p, stream, i, |stream|);
      var b: nat :| Clear(p, stream, i, b);
      assert |p.cands| == 1 by {
        var j := if i == 0 then 1 else 0;
        assert j < |p.cands| ==> Covers(p, stream, j, b, b);
      }
      assert Clear(p, stream, i, 0) && Clear(p, [], i, 0);
      assert ClearBefore(p, stream, i, 0) && ClearBefore(p, [], i, 0);
    }
  }

  /** With no candidates, nothing requested and no slack, the capacity is zero and a
      stream that is not empty is not delivered. */
  method NothingDelivered(stream: seq<byte>, polls: seq<Poll>, sizes: seq<nat>) returns (out: seq<byte>)
    requires stream != []
    ensures out == [] && out != stream
  {
    var scanner := new Scanner([]);
    var reader := new Reader(0, 0, scanner, stream, polls);
    out := ReadToEnd(reader, sizes);
  }
}
