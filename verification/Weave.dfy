/** Swizzle and weave: store path hashes are replaced by row numbers, with an
    in-band null for unknown ones, and the closure of the roots is then traced by
    chasing row numbers through a chunked list. */
module Weave {
  import opened Wrappers

  type Hash = h: seq<byte> | |h| == 20 witness seq(20, _ => 0)

  /** All bits of a 32-bit number set: never the number of a row. */
  const INDEX_NULL: nat := 0xFFFF_FFFF

  function Hash64(h: Hash): seq<byte> { h[..8] }

  /** Known rows: at most 2^32 - 1 of them, so that no row number is the null. */
  ghost predicate Rows(rows: seq<Hash>) {
    |rows| <= INDEX_NULL
  }

  ghost predicate Distinct(rows: seq<Hash>) {
    forall i, j :: 0 <= i < j < |rows| ==> rows[i] != rows[j]
  }

  // ------------------------------------------------------------------------ swizzle

  /** The entries of the hash table: a 64-bit hash and a row number. */
  method BuildIndex(rows: seq<Hash>) returns (table: seq<(seq<byte>, nat)>)
    ensures |table| == |rows|
    ensures forall i :: 0 <= i < |rows| ==> table[i] == (Hash64(rows[i]), i)
  {
    table := [];
    for offset := 0 to |rows|
      invariant |table| == offset
      invariant forall i :: 0 <= i < offset ==> table[i] == (Hash64(rows[i]), i)
    {
      table := table + [(Hash64(rows[offset]), offset)];
    }
  }

  /** `idx` stands for `key`: its row number, or the null if there is no such row. */
  ghost predicate PointsTo(rows: seq<Hash>, key: Hash, idx: nat) {
    if idx == INDEX_NULL then key !in rows else idx < |rows| && rows[idx] == key
  }

  method PhToIdx(table: seq<(seq<byte>, nat)>, rows: seq<Hash>, key: Hash) returns (idx: nat)
    requires Rows(rows) && |table| == |rows|
    requires forall i :: 0 <= i < |rows| ==> table[i] == (Hash64(rows[i]), i)
    ensures PointsTo(rows, key, idx)
  {
    var hash := Hash64(key);
    for i := 0 to |table|
      invariant forall j :: 0 <= j < i ==> rows[j] != key
    {
      var (candidateHash, candidateIndex) := table[i];
      if candidateHash == hash && rows[candidateIndex] == key {
        return candidateIndex;
      }
    }
    return INDEX_NULL;
  }

  /** Every reference of every row is replaced by what it points to. */
  ghost predicate Swizzled(rows: seq<Hash>, refs: seq<seq<Hash>>, idxs: seq<seq<nat>>) {
    && |refs| == |idxs| == |rows|
    && (forall i :: 0 <= i < |rows| ==> |idxs[i]| == |refs[i]|)
    && (forall i, j :: 0 <= i < |rows| && 0 <= j < |refs[i]| ==> PointsTo(rows, refs[i][j], idxs[i][j]))
  }

  method SwizzleRow(table: seq<(seq<byte>, nat)>, rows: seq<Hash>, refs: seq<Hash>) returns (out: seq<nat>)
    requires Rows(rows) && |table| == |rows|
    requires forall i :: 0 <= i < |rows| ==> table[i] == (Hash64(rows[i]), i)
    ensures |out| == |refs| && forall j :: 0 <= j < |refs| ==> PointsTo(rows, refs[j], out[j])
  {
    out := [];
    for n := 0 to |refs|
      invariant |out| == n && forall j :: 0 <= j < n ==> PointsTo(rows, refs[j], out[j])
    {
      var idx := PhToIdx(table, rows, refs[n]);
      out := out + [idx];
    }
  }

  method Swizzle(rows: seq<Hash>, refs: seq<seq<Hash>>) returns (idxs: seq<seq<nat>>)
    requires Rows(rows) && |refs| == |rows|
    ensures Swizzled(rows, refs, idxs)
  {
    var table := BuildIndex(rows);
    idxs := [];
    for n := 0 to |refs|
      invariant |idxs| == n
      invariant forall i :: 0 <= i < n ==> |idxs[i]| == |refs[i]|
      invariant forall i, j :: 0 <= i < n && 0 <= j < |refs[i]| ==> PointsTo(rows, refs[i][j], idxs[i][j])
    {
      var out := SwizzleRow(table, rows, refs[n]);
      idxs := idxs + [out];
    }
  }

  // ------------------------------------------------------------------- chunked lists

  /** An Arrow list chunk: row `k` is `values[offsets[k]..offsets[k + 1]]`. */
  datatype Chunk = Chunk(offsets: seq<nat>, values: seq<nat>) {
    predicate Valid() {
      && |offsets| >= 1
      && (forall k :: 0 <= k < |offsets| ==> offsets[k] <= |values|)
      && (forall k :: 0 < k < |offsets| ==> offsets[k - 1] <= offsets[k])
    }

    /** The number of rows. */
    function Len(): nat
      requires Valid()
    {
      |offsets| - 1
    }

    function Row(k: nat): (r: seq<nat>)
      requires Valid() && k < Len()
      ensures offsets[k] <= offsets[k + 1] && |r| == offsets[k + 1] - offsets[k]
      ensures forall i :: 0 <= i < |r| ==> r[i] == values[offsets[k] + i]
    {
      assert offsets[k + 1 - 1] <= offsets[k + 1];
      values[offsets[k]..offsets[k + 1]]
    }
  }

  ghost predicate AllValid(chunks: seq<Chunk>) {
    forall i :: 0 <= i < |chunks| ==> chunks[i].Valid()
  }

  ghost function ChunkRows(c: Chunk): (r: seq<seq<nat>>)
    requires c.Valid()
    ensures |r| == c.Len() && forall k :: 0 <= k < |r| ==> r[k] == c.Row(k)
  {
    seq(c.Len(), k requires 0 <= k < c.Len() => c.Row(k))
  }

  /** The rows of all chunks, one after the other. */
  ghost function Concatenated(chunks: seq<Chunk>): seq<seq<nat>>
    requires AllValid(chunks)
  {
    if chunks == [] then []
    else Concatenated(chunks[..|chunks| - 1]) + ChunkRows(chunks[|chunks| - 1])
  }

  /** The entry with the greatest key up to `i` holds row `i`. */
  ghost predicate Serves(m: map<nat, Chunk>, base: nat, i: nat, row: seq<nat>) {
    && base <= i && base in m
    && (forall b: nat :: b in m && b <= i ==> b <= base)
    && m[base].Valid() && i - base < m[base].Len() && m[base].Row(i - base) == row
  }

  ghost predicate Indexes(m: map<nat, Chunk>, rows: seq<seq<nat>>) {
    && (forall b: nat :: b in m ==> b <= |rows|)
    && forall i: nat :: i < |rows| ==> Served(m, i, rows[i])
  }

  ghost predicate Served(m: map<nat, Chunk>, i: nat, row: seq<nat>) {
    exists base: nat :: Serves(m, base, i, row)
  }

  /** `ChunkedList::new`: a later chunk replaces an empty one at the same offset. */
  method NewChunkedList(chunks: seq<Chunk>) returns (m: map<nat, Chunk>)
    requires AllValid(chunks)
    ensures Indexes(m, Concatenated(chunks))
  {
    m := map[];
    var nextOffset := 0;
    var n := 0;
    while n < |chunks|
      invariant 0 <= n <= |chunks|
      invariant nextOffset == |Concatenated(chunks[..n])|
      invariant Indexes(m, Concatenated(chunks[..n]))
    {
      AddChunk(m, Concatenated(chunks[..n]), chunks[n]);
      assert chunks[..n + 1][..n] == chunks[..n];
      m := m[nextOffset := chunks[n]];
      nextOffset := nextOffset + chunks[n].Len();
      n := n + 1;
    }
    assert chunks[..n] == chunks;
  }

  lemma AddChunk(m: map<nat, Chunk>, rows: seq<seq<nat>>, c: Chunk)
    requires Indexes(m, rows) && c.Valid()
    ensures Indexes(m[|rows| := c], rows + ChunkRows(c))
  {
    var m', rows' := m[|rows| := c], rows + ChunkRows(c);
    forall i: nat | i < |rows'| ensures Served(m', i, rows'[i]) {
      if i < |rows| {
        assert Served(m, i, rows[i]);
        var base: nat :| Serves(m, base, i, rows[i]);
        assert Serves(m', base, i, rows'[i]);
      } else {
        assert Serves(m', |rows|, i, rows'[i]);
      }
    }
  }

  /** The chunk with the greatest offset up to the index, and in it the slice of that row. */
  method IndexList(m: map<nat, Chunk>, index: nat, ghost rows: seq<seq<nat>>) returns (row: seq<nat>)
    requires Indexes(m, rows) && index < |rows|
    ensures row == rows[index]
  {
    assert Served(m, index, rows[index]);
    ghost var b: nat :| Serves(m, b, index, rows[index]);
    var base := index;
    while base !in m
      invariant b <= base <= index
      invariant forall k :: base < k <= index ==> k !in m
      decreases base
    {
      base := base - 1;
    }
    row := m[base].Row(index - base);
  }

  // -------------------------------------------------------------------------- roots

  /** Each root's slot after all rows were looked at: its row number or the null.
      The program stops at a root that occurs in two rows. */
  method ResolveRoots(rows: seq<Hash>, roots: set<Hash>) returns (slots: Option<map<Hash, nat>>)
    requires Rows(rows)
    ensures slots.Some? ==> slots.value.Keys == roots
    ensures slots.Some? ==> forall h :: h in roots ==> PointsTo(rows, h, slots.value[h])
    ensures slots.None? <==> exists i, j :: 0 <= i < j < |rows| && rows[i] == rows[j] && rows[i] in roots
  {
    var m := map h | h in roots :: INDEX_NULL;
    for idx := 0 to |rows|
      invariant m.Keys == roots
      invariant forall h :: h in roots ==> PointsWithin(rows, idx, h, m[h])
      invariant forall i, j :: 0 <= i < j < idx && rows[i] in roots ==> rows[i] != rows[j]
    {
      var h := rows[idx];
      if h in roots {
        assert PointsWithin(rows, idx, h, m[h]);
        if m[h] != INDEX_NULL {
          assert rows[m[h]] == rows[idx] && rows[m[h]] in roots;
          return None;
        }
        m := m[h := idx];
      }
    }
    return Some(m);
  }

  /** Like `PointsTo`, for the first `n` rows only. */
  ghost predicate PointsWithin(rows: seq<Hash>, n: nat, key: Hash, idx: nat)
    requires n <= |rows|
  {
    if idx == INDEX_NULL then forall i :: 0 <= i < n ==> rows[i] != key
    else idx < n && rows[idx] == key
  }

  // ------------------------------------------------------------------------ the closure

  /** A row refers to a name. */
  ghost predicate Refers(rows: seq<Hash>, refs: seq<seq<Hash>>, from: Hash, to: Hash)
    requires |refs| == |rows|
  {
    exists i :: 0 <= i < |rows| && rows[i] == from && to in refs[i]
  }

  /** A chain of references over known rows, starting at a root. */
  ghost predicate Chain(rows: seq<Hash>, refs: seq<seq<Hash>>, roots: set<Hash>, p: seq<Hash>)
    requires |refs| == |rows|
  {
    && p != [] && p[0] in roots
    && (forall k :: 0 <= k < |p| ==> p[k] in rows)
    && (forall k :: 0 < k < |p| ==> Refers(rows, refs, p[k - 1], p[k]))
  }

  ghost predicate Live(rows: seq<Hash>, refs: seq<seq<Hash>>, roots: set<Hash>, h: Hash)
    requires |refs| == |rows|
  {
    exists p :: Chain(rows, refs, roots, p) && p[|p| - 1] == h
  }

  lemma LiveStep(rows: seq<Hash>, refs: seq<seq<Hash>>, roots: set<Hash>, i: nat, h: Hash)
    requires |refs| == |rows| && i < |rows| && Live(rows, refs, roots, rows[i])
    requires h in refs[i] && h in rows
    ensures Live(rows, refs, roots, h)
  {
    var p :| Chain(rows, refs, roots, p) && p[|p| - 1] == rows[i];
    var q := p + [h];
    forall k | 0 < k < |q| ensures Refers(rows, refs, q[k - 1], q[k]) {
      if k < |p| { assert Refers(rows, refs, p[k - 1], p[k]); }
    }
    assert Chain(rows, refs, roots, q) && q[|q| - 1] == h;
  }

  /** Row numbers found so far are live; the null may be among them. */
  ghost predicate Sound(rows: seq<Hash>, refs: seq<seq<Hash>>, roots: set<Hash>, seen: set<nat>)
    requires |refs| == |rows|
  {
    forall i: nat :: i in seen ==> i == INDEX_NULL || (i < |rows| && Live(rows, refs, roots, rows[i]))
  }

  /** The children of row `parent` are in `seen`. */
  ghost predicate Closed(idxs: seq<seq<nat>>, seen: set<nat>, parent: nat) {
    parent < |idxs| ==> forall j :: 0 <= j < |idxs[parent]| ==> idxs[parent][j] in seen
  }

  lemma ClosedMonotone(idxs: seq<seq<nat>>, a: set<nat>, b: set<nat>, parent: nat)
    requires Closed(idxs, a, parent) && a <= b
    ensures Closed(idxs, b, parent)
  {
  }

  ghost predicate ChildOf(idxs: seq<seq<nat>>, todo: set<nat>, c: nat) {
    exists i: nat, j: nat :: i in todo && i < |idxs| && j < |idxs[i]| && idxs[i][j] == c
  }

  /** One round: everything the frontier points to that was not seen before. */
  method Round(m: map<nat, Chunk>, ghost idxs: seq<seq<nat>>, todo: set<nat>, seen: set<nat>) returns (next: set<nat>)
    requires Indexes(m, idxs) && INDEX_NULL >= |idxs|
    requires forall i: nat :: i in todo ==> i == INDEX_NULL || i < |idxs|
    ensures next !! seen
    ensures forall c: nat :: c in next ==> ChildOf(idxs, todo, c)
    ensures forall i: nat :: i in todo && i != INDEX_NULL ==> Closed(idxs, seen + next, i)
  {
    next := {};
    var rest := todo;
    while rest != {}
      invariant rest <= todo && next !! seen
      invariant forall c: nat :: c in next ==> ChildOf(idxs, todo, c)
      invariant forall i: nat :: i in todo - rest && i != INDEX_NULL ==> Closed(idxs, seen + next, i)
      decreases rest
    {
      var parent :| parent in rest;
      ghost var before := next;
      if parent != INDEX_NULL {
        var row := IndexList(m, parent, idxs);
        var children := set c | c in row && c !in seen;
        forall c | c in children ensures ChildOf(idxs, todo, c) {
          var j: nat :| j < |row| && row[j] == c;
        }
        next := next + children;
        assert Closed(idxs, seen + next, parent);
      }
      forall i: nat | i in todo - rest && i != INDEX_NULL ensures Closed(idxs, seen + next, i) {
        ClosedMonotone(idxs, seen + before, seen + next, i);
      }
      rest := rest - {parent};
    }
  }

  lemma RoundKeeps(rows: seq<Hash>, refs: seq<seq<Hash>>, names: set<Hash>, idxs: seq<seq<nat>>,
                   todo: set<nat>, seen: set<nat>, next: set<nat>)
    requires Rows(rows) && Swizzled(rows, refs, idxs) && todo <= seen && Sound(rows, refs, names, seen)
    requires forall c: nat :: c in next ==> ChildOf(idxs, todo, c)
    ensures Sound(rows, refs, names, seen + next)
  {
    forall c: nat | c in next ensures c == INDEX_NULL || (c < |rows| && Live(rows, refs, names, rows[c])) {
      assert ChildOf(idxs, todo, c);
      var i: nat, j: nat :| i in todo && i < |idxs| && j < |idxs[i]| && idxs[i][j] == c;
      ChildLive(rows, refs, names, idxs, i, j);
    }
  }

  ghost function Upto(n: nat): (s: set<nat>)
    ensures forall i: nat :: i in s <==> i < n
  {
    if n == 0 then {} else Upto(n - 1) + {n - 1}
  }

  /** The marking loop. */
  method Mark(m: map<nat, Chunk>, ghost idxs: seq<seq<nat>>, roots: set<nat>,
              ghost rows: seq<Hash>, ghost refs: seq<seq<Hash>>, ghost names: set<Hash>) returns (seen: set<nat>)
    requires Rows(rows) && Swizzled(rows, refs, idxs) && Indexes(m, idxs)
    requires INDEX_NULL !in roots && Sound(rows, refs, names, roots)
    ensures roots <= seen && Sound(rows, refs, names, seen) && INDEX_NULL !in seen
    ensures forall i: nat :: i in seen ==> Closed(idxs, seen + {INDEX_NULL}, i)
  {
    var todo := roots;
    seen := todo;
    ghost var universe := Upto(|rows|) + {INDEX_NULL};
    while todo != {}
      invariant todo <= seen <= universe && roots <= seen
      invariant Sound(rows, refs, names, seen)
      invariant forall i: nat :: i in seen - todo && i != INDEX_NULL ==> Closed(idxs, seen, i)
      decreases universe - seen, todo
    {
      var next := Round(m, idxs, todo, seen);
      RoundKeeps(rows, refs, names, idxs, todo, seen, next);
      forall i: nat | i in seen && i != INDEX_NULL ensures Closed(idxs, seen + next, i) {
        if i !in todo { ClosedMonotone(idxs, seen, seen + next, i); }
      }
      seen := seen + next;
      todo := next;
    }
    forall i: nat | i in seen && i != INDEX_NULL ensures Closed(idxs, seen - {INDEX_NULL} + {INDEX_NULL}, i) {
      ClosedMonotone(idxs, seen, seen - {INDEX_NULL} + {INDEX_NULL}, i);
    }
    seen := seen - {INDEX_NULL};
  }

  lemma ChildLive(rows: seq<Hash>, refs: seq<seq<Hash>>, names: set<Hash>, idxs: seq<seq<nat>>, i: nat, j: nat)
    requires Swizzled(rows, refs, idxs) && i < |rows| && j < |idxs[i]|
    requires Live(rows, refs, names, rows[i])
    ensures idxs[i][j] == INDEX_NULL || (idxs[i][j] < |rows| && Live(rows, refs, names, rows[idxs[i][j]]))
  {
    assert PointsTo(rows, refs[i][j], idxs[i][j]);
    if idxs[i][j] != INDEX_NULL {
      LiveStep(rows, refs, names, i, refs[i][j]);
    }
  }

  /** A closed set that has the roots has everything live. */
  lemma {:induction false} ClosedHasChain(rows: seq<Hash>, refs: seq<seq<Hash>>, names: set<Hash>,
                                          idxs: seq<seq<nat>>, seen: set<nat>, p: seq<Hash>, k: nat, i: nat)
    requires Rows(rows) && Distinct(rows) && Swizzled(rows, refs, idxs)
    requires forall r: nat :: r < |rows| && rows[r] in names ==> r in seen
    requires forall r: nat :: r in seen ==> Closed(idxs, seen + {INDEX_NULL}, r)
    requires Chain(rows, refs, names, p) && k < |p| && i < |rows| && rows[i] == p[k]
    ensures i in seen
    decreases k
  {
    if k > 0 {
      assert Refers(rows, refs, p[k - 1], p[k]);
      var r: nat :| r < |rows| && rows[r] == p[k - 1] && p[k] in refs[r];
      var j :| 0 <= j < |refs[r]| && refs[r][j] == p[k];
      ClosedHasChain(rows, refs, names, idxs, seen, p, k - 1, r);
      assert PointsTo(rows, refs[r][j], idxs[r][j]);
      assert Closed(idxs, seen + {INDEX_NULL}, r);
    }
  }

  /** The frontier the marking starts from. */
  ghost predicate Frontier(rows: seq<Hash>, roots: set<Hash>, todo: set<nat>) {
    && (forall i: nat :: i in todo ==> i < |rows| && rows[i] in roots)
    && (forall i: nat :: i < |rows| && rows[i] in roots ==> i in todo)
  }

  method StartFrom(rows: seq<Hash>, roots: set<Hash>) returns (todo: set<nat>)
    requires Rows(rows) && Distinct(rows)
    ensures Frontier(rows, roots, todo)
  {
    var slots := ResolveRoots(rows, roots);
    todo := set h | h in roots && slots.value[h] != INDEX_NULL :: slots.value[h];
    forall i: nat | i < |rows| && rows[i] in roots ensures i in todo {
      assert PointsTo(rows, rows[i], slots.value[rows[i]]);
    }
  }

  lemma RootsSound(rows: seq<Hash>, refs: seq<seq<Hash>>, roots: set<Hash>, todo: set<nat>)
    requires |refs| == |rows| && Frontier(rows, roots, todo)
    ensures Sound(rows, refs, roots, todo)
  {
    forall i: nat | i in todo ensures i < |rows| && Live(rows, refs, roots, rows[i]) {
      var p := [rows[i]];
      assert Chain(rows, refs, roots, p) && p[|p| - 1] == rows[i];
    }
  }

  lemma ClosedHasLive(rows: seq<Hash>, refs: seq<seq<Hash>>, roots: set<Hash>, idxs: seq<seq<nat>>, seen: set<nat>,
                      i: nat)
    requires Rows(rows) && Distinct(rows) && Swizzled(rows, refs, idxs)
    requires forall r: nat :: r < |rows| && rows[r] in roots ==> r in seen
    requires forall r: nat :: r in seen ==> Closed(idxs, seen + {INDEX_NULL}, r)
    requires i < |rows| && Live(rows, refs, roots, rows[i])
    ensures i in seen
  {
    var p :| Chain(rows, refs, roots, p) && p[|p| - 1] == rows[i];
    ClosedHasChain(rows, refs, roots, idxs, seen, p, |p| - 1, i);
  }

  /** Swizzle, then weave: the rows traced are exactly those whose hash is reachable
      from the roots in the graph of names, over known rows, however the list of
      references is split into chunks. */
  method Trace(rows: seq<Hash>, refs: seq<seq<Hash>>, ghost idxs: seq<seq<nat>>, chunks: seq<Chunk>, roots: set<Hash>)
    returns (live: set<nat>)
    requires Rows(rows) && Distinct(rows) && Swizzled(rows, refs, idxs)
    requires AllValid(chunks) && Concatenated(chunks) == idxs
    ensures forall i: nat :: i in live <==> i < |rows| && Live(rows, refs, roots, rows[i])
  {
    var todo := StartFrom(rows, roots);
    var m := NewChunkedList(chunks);
    RootsSound(rows, refs, roots, todo);
    live := Mark(m, idxs, todo, rows, refs, roots);
    forall i: nat | i < |rows| && Live(rows, refs, roots, rows[i]) ensures i in live {
      ClosedHasLive(rows, refs, roots, idxs, live, i);
    }
  }
}
