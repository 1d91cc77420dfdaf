/** Which marks of the streaming reader depend on how its stream is cut, for needles of one
    length, like the digests a build is scanned for. */
module Chunking {
  import opened Wrappers
  import opened ReferenceReader

  /** The candidates are distinct and have one length, which is not zero. */
  ghost predicate Uniform(p: Pattern) {
    && p.longest > 0
    && (forall i :: 0 <= i < |p.cands| ==> |p.cands[i]| == p.longest)
    && forall i, j {:trigger Differ(p, i, j)} :: Differ(p, i, j)
  }

  ghost predicate Differ(p: Pattern, i: int, j: int) {
    0 <= i < j < |p.cands| ==> p.cands[i] != p.cands[j]
  }

  // ------------------------------------------------------------- reading in given pieces

  /** Fills the buffer by one read and consumes it. */
  method TakePiece(reader: Reader, n: nat)
    requires reader.Valid() && reader.Forthcoming() && reader.schedule[0].n == n
    modifies reader, reader.scanner
    ensures reader.Valid() && reader.consumed == |reader.buffer| == old(reader.Kept()) + n
    ensures reader.pos == old(reader.pos) + n && reader.schedule == old(reader.schedule)[1..]
    ensures reader.Delivered() == reader.pos
    ensures reader.scanner.Matched() == old(reader.scanner.Matched()) + Search(reader.scanner.pattern, reader.buffer)
  {
    var r := reader.PollFillBuf();
    reader.Consume(n);
  }

  /** Positions, each after the one before, at which later searches begin. */
  predicate Cuts(length: nat, stream: nat, from: nat, cuts: seq<nat>)
    decreases |cuts|
  {
    cuts == [] || (from < cuts[0] && cuts[0] + length <= stream && Cuts(length, stream, cuts[0], cuts[1..]))
  }

  /** Reads after which the buffer, from the overlap on, begins at those positions. */
  function Polls(length: nat, stream: nat, from: nat, pos: nat, cuts: seq<nat>): seq<Poll>
    requires Cuts(length, stream, from, cuts) && pos <= stream && pos < from + length
    decreases |cuts|
  {
    if cuts == [] then [UpTo(stream - pos)]
    else [UpTo(cuts[0] + length - 1 - pos)] + Polls(length, stream, cuts[0], cuts[0] + length - 1, cuts[1..])
  }

  /** What a search of the stream between two positions reports. */
  function Piece(p: Pattern, stream: seq<byte>, from: nat, to: nat): set<nat>
    requires from <= to <= |stream|
  {
    Search(p, stream[from..to])
  }

  /** What the searches of the pieces report. */
  function Marks(p: Pattern, stream: seq<byte>, from: nat, cuts: seq<nat>): set<nat>
    requires p.longest > 0 && from <= |stream| && Cuts(p.longest, |stream|, from, cuts)
    decreases |cuts|
  {
    if cuts == [] then Piece(p, stream, from, |stream|)
    else Piece(p, stream, from, cuts[0] + p.longest - 1) + Marks(p, stream, cuts[0], cuts[1..])
  }

  lemma MarksNone(p: Pattern, stream: seq<byte>, from: nat)
    requires p.longest > 0 && from <= |stream|
    ensures Marks(p, stream, from, []) == Piece(p, stream, from, |stream|)
  {
  }

  /** The marks before and after a search. */
  ghost predicate Added(m0: set<nat>, m1: set<nat>, p: Pattern, stream: seq<byte>, from: nat, to: nat)
    requires from <= to <= |stream|
  {
    m1 == m0 + Piece(p, stream, from, to)
  }

  /** The marks after the first piece and those after the rest. */
  lemma MarksFirst(p: Pattern, stream: seq<byte>, from: nat, cuts: seq<nat>, m0: set<nat>, m1: set<nat>, m2: set<nat>)
    requires p.longest > 0 && from <= |stream| && Cuts(p.longest, |stream|, from, cuts) && cuts != []
    requires Added(m0, m1, p, stream, from, cuts[0] + p.longest - 1)
    requires m2 == m1 + Marks(p, stream, cuts[0], cuts[1..])
    ensures m2 == m0 + Marks(p, stream, from, cuts)
  {
  }

  /** The reader is about to read the rest in pieces, its next search beginning at `from`. */
  ghost predicate Ready(reader: Reader, from: nat, cuts: seq<nat>)
    reads reader, reader.scanner
  {
    var length := reader.scanner.pattern.longest;
    && reader.Valid() && length > 0 && reader.consumed == |reader.buffer|
    && from + length <= |reader.stream| <= reader.capacity && Cuts(length, |reader.stream|, from, cuts)
    && reader.pos == from + reader.Kept() && (from == reader.pos == 0 || reader.Kept() == length - 1)
    && reader.schedule == Polls(length, |reader.stream|, from, reader.pos, cuts)
  }

  /** One piece, up to position `to`. */
  method ReadPiece(reader: Reader, from: nat, to: nat)
    requires reader.Valid() && reader.Forthcoming() && reader.pos == from + reader.Kept()
    requires reader.schedule[0].n == to - reader.pos
    modifies reader, reader.scanner
    ensures reader.Valid() && reader.consumed == |reader.buffer| == to - from && reader.pos == to
    ensures from <= to <= |reader.stream| && reader.schedule == old(reader.schedule)[1..] && reader.Delivered() == to
    ensures reader.scanner.Matched()
         == old(reader.scanner.Matched()) + Piece(reader.scanner.pattern, reader.stream, from, to)
  {
    TakePiece(reader, to - reader.pos);
    SliceAtIs(reader.stream, from, reader.buffer);
  }

  lemma PollsFirst(length: nat, stream: nat, from: nat, pos: nat, cuts: seq<nat>)
    requires Cuts(length, stream, from, cuts) && pos <= stream && pos < from + length
    ensures var polls := Polls(length, stream, from, pos, cuts);
            if cuts == [] then polls == [UpTo(stream - pos)]
            else && polls != [] && polls[0] == UpTo(cuts[0] + length - 1 - pos)
                 && polls[1..] == Polls(length, stream, cuts[0], cuts[0] + length - 1, cuts[1..])
  {
  }

  /** Reads up to the next cut. */
  method ReadToCut(reader: Reader, from: nat, cuts: seq<nat>)
    requires Ready(reader, from, cuts) && cuts != []
    modifies reader, reader.scanner
    ensures Ready(reader, cuts[0], cuts[1..])
    ensures cuts[0] + reader.scanner.pattern.longest <= |reader.stream|
    ensures Added(old(reader.scanner.Matched()), reader.scanner.Matched(), reader.scanner.pattern, reader.stream,
                  from, cuts[0] + reader.scanner.pattern.longest - 1)
  {
    var length := reader.scanner.pattern.longest;
    PollsFirst(length, |reader.stream|, from, reader.pos, cuts);
    ReadPiece(reader, from, cuts[0] + length - 1);
  }

  method ReadRest(reader: Reader, from: nat, cuts: seq<nat>)
    requires Ready(reader, from, cuts)
    modifies reader, reader.scanner
    ensures reader.Valid() && reader.Delivered() == |reader.stream|
    ensures reader.scanner.Matched()
         == old(reader.scanner.Matched()) + Marks(reader.scanner.pattern, reader.stream, from, cuts)
    decreases |cuts|
  {
    if cuts == [] {
      PollsFirst(reader.scanner.pattern.longest, |reader.stream|, from, reader.pos, cuts);
      MarksNone(reader.scanner.pattern, reader.stream, from);
      ReadPiece(reader, from, |reader.stream|);
    } else {
      ghost var m0 := reader.scanner.Matched();
      ReadToCut(reader, from, cuts);
      ghost var m1 := reader.scanner.Matched();
      ReadRest(reader, cuts[0], cuts[1..]);
      MarksFirst(reader.scanner.pattern, reader.stream, from, cuts, m0, m1, reader.scanner.Matched());
    }
  }

  /** A fresh reader of the stream that gets it in pieces. */
  method ReadInPieces(needles: seq<seq<byte>>, stream: seq<byte>, cuts: seq<nat>) returns (reader: Reader)
    requires 0 < PatternOf(needles).longest <= |stream| && Cuts(PatternOf(needles).longest, |stream|, 0, cuts)
    ensures reader.Valid() && reader.stream == stream && reader.Delivered() == |stream|
    ensures reader.scanner.pattern == PatternOf(needles)
    ensures reader.scanner.Matched() == Marks(PatternOf(needles), stream, 0, cuts)
  {
    var scanner := new Scanner(needles);
    var polls := Polls(scanner.pattern.longest, |stream|, 0, 0, cuts);
    reader := new Reader(|stream|, 0, scanner, stream, polls);
    ReadRest(reader, 0, cuts);
  }

  // ----------------------------------------------------------------- hiding a needle

  /** Of distinct candidates of one length at most one occurs at a place. */
  lemma OnlyAt(p: Pattern, hay: seq<byte>, i: nat, j: nat, at: nat)
    requires Uniform(p) && i < |p.cands| && j < |p.cands|
    requires OccursAt(p.cands[i], hay, at) && OccursAt(p.cands[j], hay, at)
    ensures i == j
  {
    assert p.cands[i] == p.cands[j] && Differ(p, i, j) && Differ(p, j, i);
  }

  /** A search that begins with a match goes on behind it. */
  lemma MatchFirst(p: Pattern, hay: seq<byte>, j: nat)
    requires Uniform(p) && j < |p.cands| && OccursAt(p.cands[j], hay, 0)
    ensures Search(p, hay) == {j} + SearchFrom(p, hay, p.longest)
  {
    var found := CandidateAt(p, hay, 0, 0);
    if found.Some? { OnlyAt(p, hay, j, found.value, 0); }
  }

  /** A search from `from` on comes to `low` without reporting `i`: there is nothing before, or
      another needle. */
  ghost predicate Shielded(p: Pattern, stream: seq<byte>, i: nat, from: nat, low: nat) {
    || low == from == 0
    || (low == from + p.longest && exists j: nat :: j < |p.cands| && j != i && OccursAt(p.cands[j], stream, from))
  }

  /** Then a search up to `to` does not report it unless it occurs there at `low` or later. */
  lemma ShieldedSearch(p: Pattern, stream: seq<byte>, i: nat, from: nat, low: nat, to: nat)
    requires Uniform(p) && from <= low <= to <= |stream| && Shielded(p, stream, i, from, low)
    requires i < |p.cands| && forall b: nat :: low <= b && b + p.longest <= to ==> !OccursAt(p.cands[i], stream, b)
    ensures i !in Piece(p, stream, from, to)
  {
    var part := stream[from..to];
    if i in Search(p, part) {
      if low > from {
        var j: nat :| j < |p.cands| && j != i && OccursAt(p.cands[j], stream, from);
        OccursInside(p.cands[j], stream, from, to, from);
        MatchFirst(p, part, j);
      }
      SearchSound(p, part, low - from, i);
      var b: nat :| low - from <= b && OccursAt(p.cands[i], part, b);
      OccursInSlice(p.cands[i], stream, from, to, b);
    }
  }

  /** The first occurrence from `low` on, if there is one. */
  lemma {:induction false} FirstFrom(c: seq<byte>, stream: seq<byte>, low: nat) returns (r: Option<nat>)
    ensures r.None? ==> forall b: nat :: low <= b ==> !OccursAt(c, stream, b)
    ensures r.Some? ==> low <= r.value && OccursAt(c, stream, r.value)
    ensures r.Some? ==> forall b: nat :: low <= b < r.value ==> !OccursAt(c, stream, b)
    decreases |stream| + 1 - low
  {
    r := None;
    if low <= |stream| {
      if OccursAt(c, stream, low) { r := Some(low); } else { r := FirstFrom(c, stream, low + 1); }
    }
  }

  /** An occurrence that is not clear has another needle reaching over its beginning. */
  lemma Covered(p: Pattern, stream: seq<byte>, i: nat, b: nat) returns (j: nat, a: nat)
    requires Uniform(p) && i < |p.cands| && OccursAt(p.cands[i], stream, b) && !Clear(p, stream, i, b)
    ensures j < |p.cands| && j != i && OccursAt(p.cands[j], stream, a) && a < b < a + p.longest
  {
    j, a :| j != i && Covers(p, stream, j, a, b);
    if a == b { OnlyAt(p, stream, i, j, a); }
  }

  lemma MarksCons(p: Pattern, stream: seq<byte>, from: nat, a: nat, rest: seq<nat>)
    requires p.longest > 0 && from < a && a + p.longest <= |stream| && Cuts(p.longest, |stream|, a, rest)
    ensures Cuts(p.longest, |stream|, from, [a] + rest)
    ensures Marks(p, stream, from, [a] + rest) == Piece(p, stream, from, a + p.longest - 1) + Marks(p, stream, a, rest)
  {
    assert ([a] + rest)[1..] == rest;
  }

  /** Cuts at needles that reach over the occurrences of `i`, such that no search reports `i`. */
  lemma {:induction false} Hide(p: Pattern, stream: seq<byte>, i: nat, from: nat, low: nat) returns (cuts: seq<nat>)
    requires Uniform(p) && i < |p.cands| && from <= low <= |stream| && Shielded(p, stream, i, from, low)
    requires forall b: nat :: !Clear(p, stream, i, b)
    ensures Cuts(p.longest, |stream|, from, cuts) && i !in Marks(p, stream, from, cuts)
    decreases |stream| - low
  {
    cuts := [];
    var next := FirstFrom(p.cands[i], stream, low);
    if next.None? {
      MarksNone(p, stream, from);
      ShieldedSearch(p, stream, i, from, low, |stream|);
    } else {
      var j, a := Covered(p, stream, i, next.value);
      assert Shielded(p, stream, i, a, a + p.longest);
      if a <= from {
        cuts := Hide(p, stream, i, from, from + p.longest);
      } else {
        ShieldedSearch(p, stream, i, from, low, a + p.longest - 1);
        var rest := Hide(p, stream, i, a, a + p.longest);
        MarksCons(p, stream, from, a, rest);
        cuts := [a] + rest;
      }
    }
  }

  /** A cut at an occurrence of the needle reports it. */
  lemma Show(p: Pattern, stream: seq<byte>, i: nat, b: nat) returns (cuts: seq<nat>)
    requires Uniform(p) && i < |p.cands| && OccursAt(p.cands[i], stream, b)
    ensures Cuts(p.longest, |stream|, 0, cuts) && i in Marks(p, stream, 0, cuts)
  {
    cuts := if b == 0 then [] else [b];
    var part := stream[b..|stream|];
    OccursInside(p.cands[i], stream, b, |stream|, b);
    MatchFirst(p, part, i);
    if b > 0 { MarksCons(p, stream, 0, b, []); }
  }

  /** A clear occurrence lies in one of the pieces. */
  lemma {:induction false} SureMarked(p: Pattern, stream: seq<byte>, i: nat, b: nat, from: nat, cuts: seq<nat>)
    requires Uniform(p) && Clear(p, stream, i, b) && from <= b && Cuts(p.longest, |stream|, from, cuts)
    ensures i in Marks(p, stream, from, cuts)
    decreases |cuts|
  {
    if cuts == [] {
      ClearFound(p, stream, from, |stream|, i, b);
    } else if b < cuts[0] {
      ClearFound(p, stream, from, cuts[0] + p.longest - 1, i, b);
    } else {
      SureMarked(p, stream, i, b, cuts[0], cuts[1..]);
    }
  }

  lemma {:induction false} MarksOccur(p: Pattern, stream: seq<byte>, i: nat, from: nat, cuts: seq<nat>)
    requires p.longest > 0 && from <= |stream| && Cuts(p.longest, |stream|, from, cuts)
    requires i in Marks(p, stream, from, cuts)
    ensures i in OneShot(p, stream)
    decreases |cuts|
  {
    var to := if cuts == [] then |stream| else cuts[0] + p.longest - 1;
    if i in Piece(p, stream, from, to) {
      SearchSound(p, stream[from..to], 0, i);
      var b: nat :| OccursAt(p.cands[i], stream[from..to], b);
      OccursInSlice(p.cands[i], stream, from, to, b);
    } else {
      MarksOccur(p, stream, i, cuts[0], cuts[1..]);
    }
  }

  /** The stream can be cut like that, and `i` is then marked. */
  ghost predicate Marked(p: Pattern, stream: seq<byte>, i: nat, cuts: seq<nat>)
    requires p.longest > 0
  {
    Cuts(p.longest, |stream|, 0, cuts) && i in Marks(p, stream, 0, cuts)
  }

  ghost predicate AlwaysMarked(p: Pattern, stream: seq<byte>, i: nat)
    requires p.longest > 0
  {
    forall cuts :: Cuts(p.longest, |stream|, 0, cuts) ==> Marked(p, stream, i, cuts)
  }

  /** A needle is marked however the stream is cut exactly if it has a clear occurrence. */
  lemma AlwaysIff(p: Pattern, stream: seq<byte>, i: nat)
    requires Uniform(p) && i < |p.cands|
    ensures AlwaysMarked(p, stream, i) <==> i in Sure(p, stream, |stream|)
  {
    if i in Sure(p, stream, |stream|) {
      assert ClearBefore(p, stream, i, |stream|);
      var b: nat :| Clear(p, stream, i, b);
      forall cuts | Cuts(p.longest, |stream|, 0, cuts) ensures Marked(p, stream, i, cuts) {
        SureMarked(p, stream, i, b, 0, cuts);
      }
    } else {
      forall b: nat ensures !Clear(p, stream, i, b) {
        if Clear(p, stream, i, b) { assert ClearBefore(p, stream, i, |stream|); }
      }
      var cuts := Hide(p, stream, i, 0, 0);
      assert !Marked(p, stream, i, cuts);
    }
  }

  /** It is marked for some way of cutting the stream exactly if it occurs. */
  lemma SometimesIff(p: Pattern, stream: seq<byte>, i: nat)
    requires Uniform(p) && i < |p.cands|
    ensures (exists cuts :: Marked(p, stream, i, cuts)) <==> i in OneShot(p, stream)
  {
    if cuts :| Marked(p, stream, i, cuts) { MarksOccur(p, stream, i, 0, cuts); }
    if i in OneShot(p, stream) {
      var b: nat :| OccursAt(p.cands[i], stream, b);
      var cuts := Show(p, stream, i, b);
      assert Marked(p, stream, i, cuts);
    }
  }

  /** The marks depend on the reads exactly if a needle occurs and at the beginning of each of
      its occurrences another one reaches over it. */
  lemma ReadsMatter(p: Pattern, stream: seq<byte>)
    requires Uniform(p)
    ensures Unhidden(p, stream) <==> forall i: nat ::
              i < |p.cands| && (exists cuts :: Marked(p, stream, i, cuts)) ==> AlwaysMarked(p, stream, i)
  {
    forall i: nat | i < |p.cands|
      ensures AlwaysMarked(p, stream, i) <==> i in Sure(p, stream, |stream|)
      ensures (exists cuts :: Marked(p, stream, i, cuts)) <==> i in OneShot(p, stream)
    {
      AlwaysIff(p, stream, i);
      SometimesIff(p, stream, i);
    }
  }

  // ------------------------------------------------------------------------ an input

  /** The needles "ab" and "ba" overlap in "aba". */
  const NEEDLES: seq<seq<byte>> := [[97, 98], [98, 97]]
  const OVERLAPPING: seq<byte> := [97, 98, 97]

  lemma TwoNeedles()
    ensures PatternOf(NEEDLES) == Pattern(NEEDLES, 2) && Uniform(Pattern(NEEDLES, 2))
    ensures OccursAt(NEEDLES[0], OVERLAPPING, 0) && OccursAt(NEEDLES[1], OVERLAPPING, 1)
  {
    assert Longest(NEEDLES) == 2;
    assert NEEDLES[0][0] != NEEDLES[1][0];
    assert OVERLAPPING[0..2] == NEEDLES[0] && OVERLAPPING[1..3] == NEEDLES[1];
  }

  /** A match at the beginning of a short piece leaves too little for another one. */
  lemma ShortPiece(p: Pattern, stream: seq<byte>, from: nat, to: nat, j: nat)
    requires Uniform(p) && from + p.longest <= to <= |stream| && to < from + 2 * p.longest
    requires j < |p.cands| && OccursAt(p.cands[j], stream, from)
    ensures Piece(p, stream, from, to) == {j}
  {
    var hay := stream[from..to];
    OccursInside(p.cands[j], stream, from, to, from);
    MatchFirst(p, hay, j);
    forall i | i in SearchFrom(p, hay, p.longest) ensures false {
      SearchSound(p, hay, p.longest, i);
    }
  }

  /** One search marks the first of two overlapping needles only. */
  lemma FirstOnly(p: Pattern, stream: seq<byte>)
    requires Uniform(p) && p.longest <= |stream| < 2 * p.longest && |p.cands| > 0 && OccursAt(p.cands[0], stream, 0)
    ensures Marks(p, stream, 0, []) == {0}
  {
    ShortPiece(p, stream, 0, |stream|, 0);
    MarksNone(p, stream, 0);
  }

  /** Searches of two pieces mark both. */
  lemma BothFound(p: Pattern, stream: seq<byte>, a: nat)
    requires Uniform(p) && 0 < a < p.longest && |stream| == a + p.longest && |p.cands| > 1
    requires OccursAt(p.cands[0], stream, 0) && OccursAt(p.cands[1], stream, a)
    ensures Cuts(p.longest, |stream|, 0, [a]) && Marks(p, stream, 0, [a]) == {0, 1}
  {
    ShortPiece(p, stream, 0, a + p.longest - 1, 0);
    ShortPiece(p, stream, a, |stream|, 1);
    MarksNone(p, stream, a);
    assert [a] == [a] + [];
    MarksCons(p, stream, 0, a, []);
  }

  /** Where occurrences of two needles overlap, what is marked depends on the reads. */
  method ChunkingMatters() returns (whole: Reader, cut: Reader)
    ensures whole.Valid() && cut.Valid() && whole.scanner.pattern == cut.scanner.pattern
    ensures whole.stream == cut.stream && whole.Delivered() == cut.Delivered() == |whole.stream|
    ensures whole.scanner.Matched() == {0} && cut.scanner.Matched() == {0, 1}
  {
    TwoNeedles();
    FirstOnly(Pattern(NEEDLES, 2), OVERLAPPING);
    BothFound(Pattern(NEEDLES, 2), OVERLAPPING, 1);
    whole := ReadInPieces(NEEDLES, OVERLAPPING, []);
    cut := ReadInPieces(NEEDLES, OVERLAPPING, [1]);
  }
}
