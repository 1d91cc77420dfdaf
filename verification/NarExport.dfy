/** Writing a tree of directories in archive order: an explicit stack of directories,
    each drained in name order, against the recursive listing of the tree. */
module NarExport {
  import opened Wrappers
  import opened CastoreDirectory

  type Path = seq<Bytes>  // the components below the root

  datatype Kind =
    | DirectoryKind
    | RegularKind(size: int, executable: bool)
    | SymlinkKind(target: Bytes)

  datatype Header = Header(path: Path, kind: Kind)

  /** What the lookup functions know. */
  datatype Store = Store(directories: map<Bytes, Directory>, blobs: set<Bytes>)

  /** The headers written, and whether the export went through. */
  datatype Export = Export(headers: seq<Header>, ok: bool)

  /** A 64-bit size read as a signed number. */
  function ToInt64(n: u64): int {
    if n < 0x8000_0000_0000_0000 then n else n - TWO_TO_64
  }

  function KindOf(e: Entry): Kind {
    match e
    case Dir(_, _, _) => DirectoryKind
    case File(_, _, size, executable) => RegularKind(ToInt64(size), executable)
    case Link(_, target) => SymlinkKind(target)
  }

  /** The header of an entry: its executable bit and its size, as a signed number with the same
      64 bits, its target, or just that it is a directory. */
  ghost predicate Describes(kind: Kind, e: Entry) {
    match e
    case Dir(_, _, _) => kind == DirectoryKind
    case File(_, _, size, executable) =>
      && kind.RegularKind? && kind.executable == executable
      && -TWO_TO_64 <= 2 * kind.size < TWO_TO_64 && (kind.size - size as int) % TWO_TO_64 == 0
    case Link(_, target) => kind == SymlinkKind(target)
  }

  lemma DescribesIs(kind: Kind, e: Entry)
    ensures Describes(kind, e) <==> kind == KindOf(e)
  {
    if e.File? && kind.RegularKind? && -TWO_TO_64 <= 2 * kind.size < TWO_TO_64 {
      var n := ToInt64(e.size);
      assert (n - e.size as int) % TWO_TO_64 == 0;
      if (kind.size - e.size as int) % TWO_TO_64 == 0 {
        var a := (kind.size - e.size as int) / TWO_TO_64;
        var b := (n - e.size as int) / TWO_TO_64;
        assert kind.size - n == TWO_TO_64 * (a - b);
      }
    }
  }

  // ------------------------------------------------------------------- the next entry

  function SmallerNode(a: Entry, b: Entry): Entry {
    if Less(a.name, b.name) then a else b
  }

  function SmallestNode(d: Directory): Option<Entry> {
    if d.directories != [] then
      if d.files != [] then
        if d.symlinks != [] then Some(SmallerNode(SmallerNode(d.directories[0], d.files[0]), d.symlinks[0]))
        else Some(SmallerNode(d.directories[0], d.files[0]))
      else
        if d.symlinks != [] then Some(SmallerNode(d.directories[0], d.symlinks[0]))
        else Some(d.directories[0])
    else
      if d.files != [] then
        if d.symlinks != [] then Some(SmallerNode(d.files[0], d.symlinks[0]))
        else Some(d.files[0])
      else
        if d.symlinks != [] then Some(d.symlinks[0]) else None
  }

  /** The smallest entry, and the directory without it. */
  function DrainNextNode(d: Directory): (r: (Option<Entry>, Directory))
    ensures r.0.None? <==> Count(d) == 0
    ensures r.0.Some? ==> Count(r.1) == Count(d) - 1
  {
    match SmallestNode(d)
    case None => (None, d)
    case Some(e) =>
      (Some(e),
       match e
       case Dir(_, _, _) => d.(directories := d.directories[1..])
       case File(_, _, _, _) => d.(files := d.files[1..])
       case Link(_, _) => d.(symlinks := d.symlinks[1..]))
  }

  function Count(d: Directory): nat {
    |d.directories| + |d.files| + |d.symlinks|
  }

  ghost function Elements(s: seq<Entry>): set<Entry> {
    set i | 0 <= i < |s| :: s[i]
  }

  ghost function Entries(d: Directory): set<Entry> {
    Elements(d.directories) + Elements(d.files) + Elements(d.symlinks)
  }

  /** The entries in the order they are drained. */
  function Merged(d: Directory): (r: seq<Entry>)
    ensures |r| == Count(d)
    decreases Count(d)
  {
    var (e, rest) := DrainNextNode(d);
    if e.None? then [] else [e.value] + Merged(rest)
  }

  /** The entry comes no later than the first one of the list. */
  ghost predicate Leads(e: Entry, s: seq<Entry>) {
    s == [] || e == s[0] || Less(e.name, s[0].name)
  }

  lemma SmallerLeads(a: Entry, b: Entry)
    requires a.name != b.name
    ensures SmallerNode(a, b) == a || Less(SmallerNode(a, b).name, a.name)
    ensures SmallerNode(a, b) == b || Less(SmallerNode(a, b).name, b.name)
  {
    LessTotal(a.name, b.name);
  }

  lemma SmallestLeads(d: Directory)
    requires Ordered(d) && Count(d) > 0
    ensures SmallestNode(d).Some?
    ensures var e := SmallestNode(d).value; Leads(e, d.directories) && Leads(e, d.files) && Leads(e, d.symlinks)
  {
    if d.directories != [] { assert d.directories[0].name in Names(d.directories); }
    if d.files != [] { assert d.files[0].name in Names(d.files); }
    if d.symlinks != [] { assert d.symlinks[0].name in Names(d.symlinks); }
    if d.directories != [] && d.files != [] {
      SmallerLeads(d.directories[0], d.files[0]);
      var a := SmallerNode(d.directories[0], d.files[0]);
      if d.symlinks != [] {
        SmallerLeads(a, d.symlinks[0]);
        SmallerChain(d.directories[0], d.files[0], d.symlinks[0]);
      }
    } else if d.directories != [] && d.symlinks != [] {
      SmallerLeads(d.directories[0], d.symlinks[0]);
    } else if d.files != [] && d.symlinks != [] {
      SmallerLeads(d.files[0], d.symlinks[0]);
    }
  }

  lemma SmallerChain(a: Entry, b: Entry, c: Entry)
    requires a.name != b.name && b.name != c.name && a.name != c.name
    ensures var e := SmallerNode(SmallerNode(a, b), c);
            (e == a || Less(e.name, a.name)) && (e == b || Less(e.name, b.name))
  {
    var ab := SmallerNode(a, b);
    SmallerLeads(a, b);
    SmallerLeads(ab, c);
    if Less(c.name, ab.name) && Less(ab.name, a.name) { LessTransitive(c.name, ab.name, a.name); }
    if Less(c.name, ab.name) && Less(ab.name, b.name) { LessTransitive(c.name, ab.name, b.name); }
  }

  lemma LeadsTail(e: Entry, s: seq<Entry>)
    requires Sorted(s) && Leads(e, s) && s != []
    ensures Sorted(s[1..]) && Names(s[1..]) <= Names(s) && Elements(s) == {s[0]} + Elements(s[1..])
    ensures forall x :: x in Elements(s[1..]) ==> Less(e.name, x.name)
  {
    assert forall i :: 0 < i < |s| ==> s[i] == s[1..][i - 1];
    forall i | 0 < i < |s| ensures Less(e.name, s[i].name) {
      if e != s[0] { LessTransitive(e.name, s[0].name, s[i].name); }
    }
  }

  lemma LeadsAll(e: Entry, s: seq<Entry>)
    requires Sorted(s) && Leads(e, s) && (s != [] ==> e != s[0])
    ensures forall x :: x in Elements(s) ==> Less(e.name, x.name)
  {
    forall i | 0 <= i < |s| ensures Less(e.name, s[i].name) {
      if i > 0 { LessTransitive(e.name, s[0].name, s[i].name); }
    }
  }

  /** Draining takes the entry before all others and leaves the others. */
  lemma DrainFirst(d: Directory)
    requires Ordered(d) && Count(d) > 0
    ensures var (e, rest) := DrainNextNode(d);
            && Ordered(rest) && Entries(d) == Entries(rest) + {e.value}
            && forall x :: x in Entries(rest) ==> Less(e.value.name, x.name)
  {
    SmallestLeads(d);
    var e := SmallestNode(d).value;
    if e.Dir? { LeadsTail(e, d.directories); } else { LeadsAll(e, d.directories); }
    if e.File? { LeadsTail(e, d.files); } else { LeadsAll(e, d.files); }
    if e.Link? { LeadsTail(e, d.symlinks); } else { LeadsAll(e, d.symlinks); }
  }

  lemma PrependElements(e: Entry, s: seq<Entry>)
    ensures Elements([e] + s) == {e} + Elements(s)
  {
    var r := [e] + s;
    assert r[0] == e && forall i :: 0 < i < |r| ==> r[i] == s[i - 1];
    forall x | x in Elements(s) ensures x in Elements(r) {
      var i :| 0 <= i < |s| && s[i] == x;
      assert r[i + 1] == x;
    }
  }

  lemma PrependSorted(e: Entry, s: seq<Entry>)
    requires Sorted(s) && forall x :: x in Elements(s) ==> Less(e.name, x.name)
    ensures Sorted([e] + s)
  {
    var r := [e] + s;
    forall i, j | 0 <= i < j < |r| ensures Less(r[i].name, r[j].name) {
      assert r[j] == s[j - 1] && s[j - 1] in Elements(s);
      if i > 0 { assert r[i] == s[i - 1]; }
    }
  }

  /** Draining a directory to the end lists exactly its entries, in name order. */
  lemma {:induction false} MergedSorted(d: Directory)
    requires Ordered(d)
    ensures Sorted(Merged(d)) && Elements(Merged(d)) == Entries(d)
    decreases Count(d)
  {
    if Count(d) > 0 {
      DrainFirst(d);
      var (e, rest) := DrainNextNode(d);
      MergedSorted(rest);
      PrependSorted(e.value, Merged(rest));
      PrependElements(e.value, Merged(rest));
    }
  }

  lemma FirstOfSorted(a: seq<Entry>, b: seq<Entry>)
    requires Sorted(a) && Sorted(b) && Elements(a) == Elements(b) && a != []
    ensures b != [] && a[0] == b[0]
  {
    assert a[0] in Elements(b);
    assert b[0] in Elements(a);
    var i :| 0 <= i < |b| && b[i] == a[0];
    var j :| 0 <= j < |a| && a[j] == b[0];
    if i > 0 && j > 0 {
      LessTransitive(a[0].name, a[j].name, b[i].name);
      LessIrreflexive(a[0].name);
    }
  }

  lemma SortedTail(a: seq<Entry>)
    requires Sorted(a) && a != []
    ensures Sorted(a[1..]) && Elements(a) == {a[0]} + Elements(a[1..]) && a[0] !in Elements(a[1..])
  {
    LeadsTail(a[0], a);
    LessIrreflexive(a[0].name);
  }

  /** There is only one way to list given entries in name order. */
  lemma {:induction false} SortedUnique(a: seq<Entry>, b: seq<Entry>)
    requires Sorted(a) && Sorted(b) && Elements(a) == Elements(b)
    ensures a == b
  {
    if a == [] && b != [] {
      FirstOfSorted(b, a);
    } else if a != [] {
      FirstOfSorted(a, b);
      SortedTail(a);
      SortedTail(b);
      SortedUnique(a[1..], b[1..]);
      assert a == [a[0]] + a[1..] && b == [b[0]] + b[1..];
    }
  }

  // ------------------------------------------------------------- the recursive listing

  /** The subdirectories of a directory rank below it. */
  ghost predicate Ranked(st: Store, rank: map<Bytes, nat>, bound: nat, entries: set<Entry>) {
    forall e :: e in entries && e.Dir? && e.digest in st.directories ==> e.digest in rank && rank[e.digest] < bound
  }

  ghost predicate GoodDirectory(st: Store, rank: map<Bytes, nat>, dg: Bytes)
    requires dg in st.directories
  {
    dg in rank && Valid(st.directories[dg]) && Ranked(st, rank, rank[dg], Entries(st.directories[dg]))
  }

  /** All directories are valid and the tree below each is finite. */
  ghost predicate GoodStore(st: Store, rank: map<Bytes, nat>) {
    forall dg {:trigger GoodDirectory(st, rank, dg)} :: dg in st.directories ==> GoodDirectory(st, rank, dg)
  }

  /** One export after another, unless the first one failed. */
  function Then(a: Export, b: Export): Export {
    if a.ok then Export(a.headers + b.headers, b.ok) else a
  }

  lemma ThenAssociative(a: Export, b: Export, c: Export)
    ensures Then(Then(a, b), c) == Then(a, Then(b, c))
  {
    assert a.headers + b.headers + c.headers == a.headers + (b.headers + c.headers);
  }

  /** The entries at `path` in the order given, each directory followed by what is in it.
      A missing directory or blob ends the export after its header. */
  ghost function Listing(st: Store, rank: map<Bytes, nat>, bound: nat, entries: seq<Entry>, path: Path): Export
    requires GoodStore(st, rank) && Ranked(st, rank, bound, Elements(entries))
    decreases bound, |entries|
  {
    if entries == [] then Export([], true) else
      TailRanked(st, rank, bound, entries);
      Then(ListEntry(st, rank, bound, entries[0], path), Listing(st, rank, bound, entries[1..], path))
  }

  /** One entry with everything below it. */
  ghost function ListEntry(st: Store, rank: map<Bytes, nat>, bound: nat, e: Entry, path: Path): Export
    requires GoodStore(st, rank) && Ranked(st, rank, bound, {e})
    decreases bound, 0
  {
    var here := Export([Header(path + [e.name], KindOf(e))], Found(st, e));
    if e.Dir? && here.ok then
      SubRanked(st, rank, e.digest);
      Then(here, Listing(st, rank, rank[e.digest], Merged(st.directories[e.digest]), path + [e.name]))
    else here
  }

  predicate Found(st: Store, e: Entry) {
    match e
    case Dir(_, digest, _) => digest in st.directories
    case File(_, digest, _, _) => digest in st.blobs
    case Link(_, _) => true
  }

  lemma TailRanked(st: Store, rank: map<Bytes, nat>, bound: nat, entries: seq<Entry>)
    requires entries != [] && Ranked(st, rank, bound, Elements(entries))
    ensures Ranked(st, rank, bound, Elements(entries[1..])) && Ranked(st, rank, bound, {entries[0]})
  {
    assert entries[0] in Elements(entries);
    assert forall i :: 0 < i < |entries| ==> entries[i] == entries[1..][i - 1];
    assert Elements(entries[1..]) <= Elements(entries);
  }

  lemma SubRanked(st: Store, rank: map<Bytes, nat>, dg: Bytes)
    requires GoodStore(st, rank) && dg in st.directories
    ensures dg in rank && Ordered(st.directories[dg])
    ensures Ranked(st, rank, rank[dg], Elements(Merged(st.directories[dg])))
  {
    assert GoodDirectory(st, rank, dg);
    MergedSorted(st.directories[dg]);
  }

  // -------------------------------------------------------------------- what it writes

  /** Paths in component-wise order, a directory before what is in it. */
  predicate PathLess(p: Path, q: Path) {
    q != [] && (p == [] || Less(p[0], q[0]) || (p[0] == q[0] && PathLess(p[1..], q[1..])))
  }

  /** The paths agree up to `i`, where the first ends or has the smaller component. */
  ghost predicate PathLessAt(p: Path, q: Path, i: nat) {
    i <= |p| && i < |q| && (i == |p| || Less(p[i], q[i])) && forall j :: 0 <= j < i ==> p[j] == q[j]
  }

  /** The order of paths is that of the first difference. */
  lemma {:induction false} PathLessIs(p: Path, q: Path)
    ensures PathLess(p, q) <==> exists i: nat :: PathLessAt(p, q, i)
  {
    if p != [] && q != [] && p[0] == q[0] {
      LessIrreflexive(p[0]);
      PathLessIs(p[1..], q[1..]);
      if i: nat :| PathLessAt(p[1..], q[1..], i) {
        forall j | 0 <= j < i + 1 ensures p[j] == q[j] {
          if j > 0 { assert p[1..][j - 1] == p[j] && q[1..][j - 1] == q[j]; }
        }
        assert PathLessAt(p, q, i + 1);
      }
      if i: nat :| PathLessAt(p, q, i) {
        forall j | 0 <= j < i - 1 ensures p[1..][j] == q[1..][j] { assert p[j + 1] == q[j + 1]; }
        assert PathLessAt(p[1..], q[1..], i - 1);
      }
    } else if PathLess(p, q) {
      assert PathLessAt(p, q, 0);
    } else {
      assert forall i: nat :: PathLessAt(p, q, i) ==> i == 0 || p[0] == q[0];
    }
  }

  ghost predicate Increasing(h: seq<Header>) {
    forall i, j :: 0 <= i < j < |h| ==> PathLess(h[i].path, h[j].path)
  }

  /** The path lies below `base`, in the component `name`. */
  ghost predicate Under(p: Path, base: Path, name: Bytes) {
    |base| < |p| && p[..|base|] == base && p[|base|] == name
  }

  lemma {:induction false} UnderLess(p: Path, q: Path, base: Path, m: Bytes, n: Bytes)
    requires Under(p, base, m) && Under(q, base, n) && Less(m, n)
    ensures PathLess(p, q)
  {
    if base != [] {
      assert p[..|base|][0] == q[..|base|][0];
      assert p[1..][..|base| - 1] == p[..|base|][1..];
      assert q[1..][..|base| - 1] == q[..|base|][1..];
      UnderLess(p[1..], q[1..], base[1..], m, n);
    }
  }

  lemma {:induction false} ParentLess(p: Path, q: Path)
    requires |p| < |q| && q[..|p|] == p
    ensures PathLess(p, q)
  {
    if p != [] {
      assert q[..|p|][0] == p[0];
      assert q[1..][..|p| - 1] == q[..|p|][1..];
      ParentLess(p[1..], q[1..]);
    }
  }

  ghost predicate UnderSome(p: Path, base: Path, names: set<Bytes>) {
    exists n :: n in names && Under(p, base, n)
  }

  /** Everything written for an entry is at or below it, in increasing order. */
  ghost predicate WrittenBelow(h: seq<Header>, base: Path, name: Bytes) {
    Increasing(h) && forall i :: 0 <= i < |h| ==> Under(h[i].path, base, name)
  }

  /** Everything written for a list of entries is at or below one of them, in increasing order. */
  ghost predicate WrittenIn(h: seq<Header>, base: Path, names: set<Bytes>) {
    Increasing(h) && forall i :: 0 <= i < |h| ==> UnderSome(h[i].path, base, names)
  }

  lemma IncreasingConcat(a: seq<Header>, b: seq<Header>)
    requires Increasing(a) && Increasing(b)
    requires forall i, j :: 0 <= i < |a| && 0 <= j < |b| ==> PathLess(a[i].path, b[j].path)
    ensures Increasing(a + b)
  {
    var c := a + b;
    forall i, j | 0 <= i < j < |c| ensures PathLess(c[i].path, c[j].path) {
      if j < |a| {
        assert c[i] == a[i] && c[j] == a[j];
      } else if i >= |a| {
        assert c[i] == b[i - |a|] && c[j] == b[j - |a|];
      } else {
        assert c[i] == a[i] && c[j] == b[j - |a|];
      }
    }
  }

  lemma BelowChild(h: seq<Header>, base: Path, name: Bytes, names: set<Bytes>, kind: Kind)
    requires WrittenIn(h, base + [name], names)
    ensures WrittenBelow([Header(base + [name], kind)] + h, base, name)
  {
    var here := base + [name];
    forall i | 0 <= i < |h| ensures Under(h[i].path, base, name) && PathLess(here, h[i].path) {
      assert UnderSome(h[i].path, here, names);
      var n :| n in names && Under(h[i].path, here, n);
      assert h[i].path[..|base|] == h[i].path[..|here|][..|base|] == base;
      assert h[i].path[|base|] == h[i].path[..|here|][|base|];
      ParentLess(here, h[i].path);
    }
    IncreasingConcat([Header(here, kind)], h);
  }

  lemma BelowThenIn(a: seq<Header>, b: seq<Header>, base: Path, name: Bytes, names: set<Bytes>)
    requires WrittenBelow(a, base, name) && WrittenIn(b, base, names) && forall n :: n in names ==> Less(name, n)
    ensures WrittenIn(a + b, base, {name} + names)
  {
    forall i, j | 0 <= i < |a| && 0 <= j < |b| ensures PathLess(a[i].path, b[j].path) {
      assert UnderSome(b[j].path, base, names);
      var n :| n in names && Under(b[j].path, base, n);
      UnderLess(a[i].path, b[j].path, base, name, n);
    }
    IncreasingConcat(a, b);
    forall i | 0 <= i < |a + b| ensures UnderSome((a + b)[i].path, base, {name} + names) {
      if i < |a| {
        assert Under((a + b)[i].path, base, name);
      } else {
        assert UnderSome(b[i - |a|].path, base, names);
        var n :| n in names && Under(b[i - |a|].path, base, n);
        assert Under((a + b)[i].path, base, n);
      }
    }
  }

  lemma WidenNames(h: seq<Header>, base: Path, names: set<Bytes>, names': set<Bytes>)
    requires WrittenIn(h, base, names) && names <= names'
    ensures WrittenIn(h, base, names')
  {
    forall i | 0 <= i < |h| ensures UnderSome(h[i].path, base, names') {
      assert UnderSome(h[i].path, base, names);
      var n :| n in names && Under(h[i].path, base, n);
    }
  }

  lemma SortedNames(s: seq<Entry>)
    requires Sorted(s) && s != []
    ensures Names(s) == {s[0].name} + Names(s[1..]) && forall n :: n in Names(s[1..]) ==> Less(s[0].name, n)
  {
    assert forall i :: 0 < i < |s| ==> s[i] == s[1..][i - 1];
  }

  lemma {:induction false} EntryIncreasing(st: Store, rank: map<Bytes, nat>, bound: nat, e: Entry, path: Path)
    requires GoodStore(st, rank) && Ranked(st, rank, bound, {e})
    ensures WrittenBelow(ListEntry(st, rank, bound, e, path).headers, path, e.name)
    decreases bound, 0
  {
    var here := path + [e.name];
    if e.Dir? && Found(st, e) {
      SubRanked(st, rank, e.digest);
      var sub := Merged(st.directories[e.digest]);
      MergedSorted(st.directories[e.digest]);
      ListingIncreasing(st, rank, rank[e.digest], sub, here);
      BelowChild(Listing(st, rank, rank[e.digest], sub, here).headers, path, e.name, Names(sub), KindOf(e));
    } else {
      BelowChild([], path, e.name, {}, KindOf(e));
      assert [Header(here, KindOf(e))] + [] == [Header(here, KindOf(e))];
    }
  }

  /** The paths of a listing are strictly increasing, so each is written once. */
  lemma {:induction false} ListingIncreasing(st: Store, rank: map<Bytes, nat>, bound: nat, entries: seq<Entry>,
                                             path: Path)
    requires GoodStore(st, rank) && Ranked(st, rank, bound, Elements(entries)) && Sorted(entries)
    ensures WrittenIn(Listing(st, rank, bound, entries, path).headers, path, Names(entries))
    decreases bound, |entries|
  {
    if entries != [] {
      TailRanked(st, rank, bound, entries);
      SortedTail(entries);
      SortedNames(entries);
      EntryIncreasing(st, rank, bound, entries[0], path);
      ListingIncreasing(st, rank, bound, entries[1..], path);
      var a := ListEntry(st, rank, bound, entries[0], path);
      var b := Listing(st, rank, bound, entries[1..], path);
      BelowThenIn(a.headers, b.headers, path, entries[0].name, Names(entries[1..]));
      BelowThenIn(a.headers, [], path, entries[0].name, {});
      assert a.headers + [] == a.headers;
      WidenNames(a.headers, path, {entries[0].name} + {}, Names(entries));
    }
  }

  // ------------------------------------------------------------------------ how many

  /** Lookups succeed and the size field is that of the directory it stands for. */
  ghost predicate Exact(st: Store, e: Entry) {
    Found(st, e) && (e.Dir? ==> e.size == TrueSize(st.directories[e.digest]))
  }

  ghost predicate AllExact(st: Store) {
    forall dg, e :: dg in st.directories && e in Entries(st.directories[dg]) ==> Exact(st, e)
  }

  function Tally(s: seq<Entry>): nat {
    if s == [] then 0 else 1 + (if s[0].Dir? then s[0].size else 0) + Tally(s[1..])
  }

  /** Draining does not change what the size fields add up to. */
  lemma {:induction false} TallyMerged(d: Directory)
    ensures Tally(Merged(d)) == TrueSize(d)
    decreases Count(d)
  {
    if Count(d) > 0 {
      var (e, rest) := DrainNextNode(d);
      TallyMerged(rest);
    }
  }

  lemma {:induction false} ListingCount(st: Store, rank: map<Bytes, nat>, bound: nat, entries: seq<Entry>, path: Path)
    requires GoodStore(st, rank) && Ranked(st, rank, bound, Elements(entries))
    requires AllExact(st) && forall e :: e in Elements(entries) ==> Exact(st, e)
    ensures Listing(st, rank, bound, entries, path).ok
    ensures |Listing(st, rank, bound, entries, path).headers| == Tally(entries)
    decreases bound, |entries|
  {
    if entries != [] {
      TailRanked(st, rank, bound, entries);
      var e := entries[0];
      assert e in Elements(entries) && forall i :: 0 < i < |entries| ==> entries[i] == entries[1..][i - 1];
      assert Elements(entries[1..]) <= Elements(entries);
      ListingCount(st, rank, bound, entries[1..], path);
      if e.Dir? {
        SubRanked(st, rank, e.digest);
        var d := st.directories[e.digest];
        MergedSorted(d);
        TallyMerged(d);
        ListingCount(st, rank, rank[e.digest], Merged(d), path + [e.name]);
      }
    }
  }

  // -------------------------------------------------------------------- which headers

  /** Following the names of `q` from the entry `x` leads to `e`. */
  ghost predicate At(st: Store, x: Entry, q: Path, e: Entry)
    decreases |q|
  {
    && q != [] && q[0] == x.name
    && if |q| == 1 then e == x
       else x.Dir? && Found(st, x) && exists y :: y in Entries(st.directories[x.digest]) && At(st, y, q[1..], e)
  }

  ghost predicate AtSome(st: Store, entries: set<Entry>, q: Path, e: Entry) {
    exists x :: x in entries && At(st, x, q, e)
  }

  /** An export that goes through writes every path there is, and found what it needed. */
  lemma {:induction false} ListingHas(st: Store, rank: map<Bytes, nat>, bound: nat, entries: seq<Entry>, path: Path,
                                      x: Entry, q: Path, e: Entry)
    requires GoodStore(st, rank) && Ranked(st, rank, bound, Elements(entries))
    requires Listing(st, rank, bound, entries, path).ok
    requires x in Elements(entries) && At(st, x, q, e)
    ensures Header(path + q, KindOf(e)) in Listing(st, rank, bound, entries, path).headers && Found(st, e)
    decreases bound, |entries|
  {
    TailRanked(st, rank, bound, entries);
    var one := ListEntry(st, rank, bound, entries[0], path);
    var others := Listing(st, rank, bound, entries[1..], path);
    if x == entries[0] {
      EntryHas(st, rank, bound, x, path, q, e);
    } else {
      var i :| 0 < i < |entries| && entries[i] == x;
      assert entries[1..][i - 1] == x;
      ListingHas(st, rank, bound, entries[1..], path, x, q, e);
    }
  }

  lemma {:induction false} EntryHas(st: Store, rank: map<Bytes, nat>, bound: nat, x: Entry, path: Path, q: Path,
                                    e: Entry)
    requires GoodStore(st, rank) && Ranked(st, rank, bound, {x}) && ListEntry(st, rank, bound, x, path).ok
    requires At(st, x, q, e)
    ensures Header(path + q, KindOf(e)) in ListEntry(st, rank, bound, x, path).headers && Found(st, e)
    decreases bound, 0
  {
    if |q| == 1 {
      assert q == [x.name];
      assert ListEntry(st, rank, bound, x, path).headers[0] == Header(path + q, KindOf(e));
    } else {
      SubRanked(st, rank, x.digest);
      MergedSorted(st.directories[x.digest]);
      var y :| y in Entries(st.directories[x.digest]) && At(st, y, q[1..], e);
      ListingHas(st, rank, rank[x.digest], Merged(st.directories[x.digest]), path + [x.name], y, q[1..], e);
      JoinAssociative(path, x.name, q[1..]);
      assert q == [x.name] + q[1..];
    }
  }

  /** Whatever is written is the header of an existing path. */
  lemma {:induction false} ListingOnly(st: Store, rank: map<Bytes, nat>, bound: nat, entries: seq<Entry>, path: Path,
                                       h: Header)
    returns (q: Path, e: Entry)
    requires GoodStore(st, rank) && Ranked(st, rank, bound, Elements(entries))
    requires h in Listing(st, rank, bound, entries, path).headers
    ensures AtSome(st, Elements(entries), q, e) && h == Header(path + q, KindOf(e))
    decreases bound, |entries|
  {
    TailRanked(st, rank, bound, entries);
    var x := entries[0];
    assert x in Elements(entries);
    if h in ListEntry(st, rank, bound, x, path).headers {
      q, e := EntryOnly(st, rank, bound, x, path, h);
    } else {
      q, e := ListingOnly(st, rank, bound, entries[1..], path, h);
      TailElements(entries);
    }
  }

  lemma {:induction false} EntryOnly(st: Store, rank: map<Bytes, nat>, bound: nat, x: Entry, path: Path, h: Header)
    returns (q: Path, e: Entry)
    requires GoodStore(st, rank) && Ranked(st, rank, bound, {x}) && h in ListEntry(st, rank, bound, x, path).headers
    ensures At(st, x, q, e) && h == Header(path + q, KindOf(e))
    decreases bound, 0
  {
    if h == Header(path + [x.name], KindOf(x)) {
      q, e := [x.name], x;
    } else {
      SubRanked(st, rank, x.digest);
      var d := st.directories[x.digest];
      MergedSorted(d);
      var q', e' := ListingOnly(st, rank, rank[x.digest], Merged(d), path + [x.name], h);
      AtCons(st, x, q', e');
      JoinAssociative(path, x.name, q');
      q, e := [x.name] + q', e';
    }
  }

  /** An export that fails met an existing path whose contents cannot be found. */
  lemma {:induction false} ListingFails(st: Store, rank: map<Bytes, nat>, bound: nat, entries: seq<Entry>, path: Path)
    returns (q: Path, e: Entry)
    requires GoodStore(st, rank) && Ranked(st, rank, bound, Elements(entries))
    requires !Listing(st, rank, bound, entries, path).ok
    ensures AtSome(st, Elements(entries), q, e) && !Found(st, e)
    decreases bound, |entries|
  {
    TailRanked(st, rank, bound, entries);
    var x := entries[0];
    assert x in Elements(entries);
    if !Found(st, x) {
      q, e := [x.name], x;
      assert At(st, x, q, e);
    } else if !ListEntry(st, rank, bound, x, path).ok {
      SubRanked(st, rank, x.digest);
      MergedSorted(st.directories[x.digest]);
      var q', e' := ListingFails(st, rank, rank[x.digest], Merged(st.directories[x.digest]), path + [x.name]);
      q, e := [x.name] + q', e';
      AtCons(st, x, q', e);
    } else {
      q, e := ListingFails(st, rank, bound, entries[1..], path);
      TailElements(entries);
    }
  }

  lemma JoinAssociative(path: Path, name: Bytes, q: Path)
    ensures path + [name] + q == path + ([name] + q)
  {
  }

  lemma AtCons(st: Store, x: Entry, q: Path, e: Entry)
    requires x.Dir? && Found(st, x) && AtSome(st, Entries(st.directories[x.digest]), q, e)
    ensures At(st, x, [x.name] + q, e)
  {
    var y :| y in Entries(st.directories[x.digest]) && At(st, y, q, e);
    assert ([x.name] + q)[1..] == q;
  }

  lemma TailElements(s: seq<Entry>)
    requires s != []
    ensures Elements(s[1..]) <= Elements(s)
  {
    assert forall i :: 0 < i < |s| ==> s[i] == s[1..][i - 1];
  }

  // ------------------------------------------------------------------- the stack loop

  /** A directory on the stack; its entries rank below `bound`. */
  datatype Frame = Frame(directory: Directory, path: Path, bound: nat)

  ghost predicate FrameOk(st: Store, rank: map<Bytes, nat>, f: Frame) {
    Ordered(f.directory) && Ranked(st, rank, f.bound, Elements(Merged(f.directory)))
  }

  ghost predicate StackOk(st: Store, rank: map<Bytes, nat>, frames: seq<Frame>) {
    forall f {:trigger FrameOk(st, rank, f)} :: f in frames ==> FrameOk(st, rank, f)
  }

  /** What the stack still has to write, from the top down. */
  ghost function Pending(st: Store, rank: map<Bytes, nat>, frames: seq<Frame>): Export
    requires GoodStore(st, rank) && StackOk(st, rank, frames)
  {
    if frames == [] then Export([], true) else
      var f := frames[|frames| - 1];
      assert FrameOk(st, rank, f);
      Then(Listing(st, rank, f.bound, Merged(f.directory), f.path), Pending(st, rank, frames[..|frames| - 1]))
  }

  /** The steps left to drain entries and all directories below them. */
  ghost function Work(st: Store, rank: map<Bytes, nat>, bound: nat, entries: seq<Entry>): (w: nat)
    requires GoodStore(st, rank) && Ranked(st, rank, bound, Elements(entries))
    decreases bound, |entries|
  {
    if entries == [] then 1 else
      TailRanked(st, rank, bound, entries);
      var e := entries[0];
      1 + Work(st, rank, bound, entries[1..]) +
      if e.Dir? && Found(st, e) then
        SubRanked(st, rank, e.digest);
        Work(st, rank, rank[e.digest], Merged(st.directories[e.digest]))
      else 0
  }

  ghost function StackWork(st: Store, rank: map<Bytes, nat>, frames: seq<Frame>): nat
    requires GoodStore(st, rank) && StackOk(st, rank, frames)
  {
    if frames == [] then 0 else
      var f := frames[|frames| - 1];
      assert FrameOk(st, rank, f);
      Work(st, rank, f.bound, Merged(f.directory)) + StackWork(st, rank, frames[..|frames| - 1])
  }

  lemma PushFrame(st: Store, rank: map<Bytes, nat>, frames: seq<Frame>, f: Frame)
    requires GoodStore(st, rank) && StackOk(st, rank, frames) && FrameOk(st, rank, f)
    ensures StackOk(st, rank, frames + [f])
    ensures Pending(st, rank, frames + [f]) ==
              Then(Listing(st, rank, f.bound, Merged(f.directory), f.path), Pending(st, rank, frames))
    ensures StackWork(st, rank, frames + [f]) ==
              Work(st, rank, f.bound, Merged(f.directory)) + StackWork(st, rank, frames)
  {
    assert (frames + [f])[..|frames|] == frames;
  }

  /** Draining the top directory splits what is left to write. */
  lemma DrainTop(st: Store, rank: map<Bytes, nat>, f: Frame)
    requires GoodStore(st, rank) && FrameOk(st, rank, f) && Count(f.directory) > 0
    ensures var (e, rest) := DrainNextNode(f.directory); var f' := f.(directory := rest);
            && FrameOk(st, rank, f') && Ranked(st, rank, f.bound, {e.value})
            && Listing(st, rank, f.bound, Merged(f.directory), f.path)
               == Then(ListEntry(st, rank, f.bound, e.value, f.path), Listing(st, rank, f.bound, Merged(rest), f.path))
            && Work(st, rank, f.bound, Merged(f.directory)) > Work(st, rank, f.bound, Merged(rest))
            && (e.value.Dir? && Found(st, e.value) ==>
                  var digest := e.value.digest;
                  && digest in rank
                  && FrameOk(st, rank, Frame(st.directories[digest], f.path + [e.value.name], rank[digest]))
                  && Work(st, rank, f.bound, Merged(f.directory))
                     == 1 + Work(st, rank, f.bound, Merged(rest))
                        + Work(st, rank, rank[digest], Merged(st.directories[digest])))
  {
    var (e, rest) := DrainNextNode(f.directory);
    var m := Merged(f.directory);
    assert m[0] == e.value && m[1..] == Merged(rest);
    DrainFirst(f.directory);
    TailRanked(st, rank, f.bound, m);
    if e.value.Dir? && Found(st, e.value) {
      SubRanked(st, rank, e.value.digest);
    }
  }

  /** The stack after draining one entry of its top directory. */
  ghost function NextFrames(st: Store, rank: map<Bytes, nat>, below: seq<Frame>, f: Frame): seq<Frame>
    requires Count(f.directory) > 0
  {
    var (e, rest) := DrainNextNode(f.directory);
    var popped := below + [f.(directory := rest)];
    match e.value
    case Dir(name, digest, _) =>
      if digest in st.directories && digest in rank then
        popped + [Frame(st.directories[digest], f.path + [name], rank[digest])]
      else popped
    case _ => popped
  }

  lemma PopStep(st: Store, rank: map<Bytes, nat>, below: seq<Frame>, f: Frame)
    requires GoodStore(st, rank) && StackOk(st, rank, below) && StackOk(st, rank, below + [f])
    requires FrameOk(st, rank, f) && Count(f.directory) == 0
    ensures Pending(st, rank, below + [f]) == Pending(st, rank, below)
    ensures StackWork(st, rank, below) < StackWork(st, rank, below + [f])
  {
    PushFrame(st, rank, below, f);
    assert Merged(f.directory) == [];
    assert [] + Pending(st, rank, below).headers == Pending(st, rank, below).headers;
  }

  lemma EmitStep(st: Store, rank: map<Bytes, nat>, below: seq<Frame>, f: Frame, written: seq<Header>)
    requires GoodStore(st, rank) && StackOk(st, rank, below) && StackOk(st, rank, below + [f])
    requires FrameOk(st, rank, f) && Count(f.directory) > 0
    ensures var e := DrainNextNode(f.directory).0.value;
            var written' := written + [Header(f.path + [e.name], KindOf(e))];
            var left := Then(Export(written, true), Pending(st, rank, below + [f]));
            if Found(st, e) then
              && (e.Dir? ==> e.digest in rank)
              && StackOk(st, rank, NextFrames(st, rank, below, f))
              && left == Then(Export(written', true), Pending(st, rank, NextFrames(st, rank, below, f)))
              && StackWork(st, rank, NextFrames(st, rank, below, f)) < StackWork(st, rank, below + [f])
            else
              left == Export(written', false)
  {
    var (next, rest) := DrainNextNode(f.directory);
    var e := next.value;
    var f', h := f.(directory := rest), Header(f.path + [e.name], KindOf(e));
    DrainTop(st, rank, f);
    PushFrame(st, rank, below, f);
    PushFrame(st, rank, below, f');
    var others := Listing(st, rank, f.bound, Merged(rest), f.path);
    var one := ListEntry(st, rank, f.bound, e, f.path);
    ThenAssociative(one, others, Pending(st, rank, below));
    if e.Dir? && Found(st, e) {
      var sub := Frame(st.directories[e.digest], f.path + [e.name], rank[e.digest]);
      PushFrame(st, rank, below + [f'], sub);
      var inside := Listing(st, rank, sub.bound, Merged(sub.directory), sub.path);
      ThenAssociative(Export([h], true), inside, Pending(st, rank, below + [f']));
    }
    if Found(st, e) {
      ThenAssociative(Export(written, true), Export([h], true), Pending(st, rank, NextFrames(st, rank, below, f)));
    }
  }

  /** What an export of a root node writes. The root has the empty path; a missing root
      directory is noticed before its header is written. */
  ghost function Expected(st: Store, rank: map<Bytes, nat>, root: Entry): Export
    requires GoodStore(st, rank)
  {
    var here := Export([Header([], KindOf(root))], Found(st, root));
    if !root.Dir? then here
    else if !here.ok then Export([], false)
    else
      SubRanked(st, rank, root.digest);
      Then(here, Listing(st, rank, rank[root.digest], Merged(st.directories[root.digest]), []))
  }

  lemma TopFrame(st: Store, rank: map<Bytes, nat>, frames: seq<Frame>)
    requires StackOk(st, rank, frames) && frames != []
    ensures frames == frames[..|frames| - 1] + [frames[|frames| - 1]]
    ensures StackOk(st, rank, frames[..|frames| - 1]) && FrameOk(st, rank, frames[|frames| - 1])
  {
  }

  /** The ghost frames stand for the two stacks. */
  ghost predicate Mirrors(frames: seq<Frame>, directories: seq<Directory>, paths: seq<Path>) {
    && |frames| == |directories| == |paths|
    && forall i :: 0 <= i < |frames| ==> frames[i].directory == directories[i] && frames[i].path == paths[i]
  }

  lemma MirrorsNext(st: Store, rank: map<Bytes, nat>, below: seq<Frame>, f: Frame, directories: seq<Directory>,
                    paths: seq<Path>)
    requires Mirrors(below + [f], directories, paths) && Count(f.directory) > 0
    ensures var (e, rest) := DrainNextNode(f.directory);
            var drained := directories[|below| := rest];
            if e.value.Dir? && e.value.digest in st.directories && e.value.digest in rank
            then Mirrors(NextFrames(st, rank, below, f), drained + [st.directories[e.value.digest]],
                         paths + [f.path + [e.value.name]])
            else Mirrors(NextFrames(st, rank, below, f), drained, paths)
  {
    assert forall i :: 0 <= i < |below| ==> (below + [f])[i] == below[i];
    assert (below + [f])[|below|] == f;
  }

  lemma MirrorsTop(below: seq<Frame>, f: Frame, directories: seq<Directory>, paths: seq<Path>)
    requires Mirrors(below + [f], directories, paths)
    ensures directories[|below|] == f.directory && paths[|below|] == f.path
    ensures Mirrors(below, directories[..|below|], paths[..|below|])
  {
    assert forall i :: 0 <= i < |below| ==> (below + [f])[i] == below[i];
    assert (below + [f])[|below|] == f;
  }

  /** The loop of `Export`: it writes what is pending. */
  method DrainStack(st: Store, ghost rank: map<Bytes, nat>, ghost initial: seq<Frame>, directories: seq<Directory>,
                    paths: seq<Path>, headers: seq<Header>)
    returns (r: Export)
    requires GoodStore(st, rank) && StackOk(st, rank, initial) && Mirrors(initial, directories, paths)
    ensures r == Then(Export(headers, true), Pending(st, rank, initial))
  {
    var written := headers;
    var stackPaths, stackDirectories := paths, directories;
    ghost var frames, total := initial, Then(Export(headers, true), Pending(st, rank, initial));
    while stackDirectories != []
      invariant Mirrors(frames, stackDirectories, stackPaths) && StackOk(st, rank, frames)
      invariant total == Then(Export(written, true), Pending(st, rank, frames))
      decreases StackWork(st, rank, frames)
    {
      var top := |stackDirectories| - 1;
      ghost var below, f := frames[..top], frames[top];
      TopFrame(st, rank, frames);
      MirrorsTop(below, f, stackDirectories, stackPaths);
      var path := stackPaths[top];
      var (next, rest) := DrainNextNode(stackDirectories[top]);
      if next.None? {
        PopStep(st, rank, below, f);
        stackDirectories, stackPaths, frames := stackDirectories[..top], stackPaths[..top], below;
      } else {
        var e := next.value;
        EmitStep(st, rank, below, f, written);
        MirrorsNext(st, rank, below, f, stackDirectories, stackPaths);
        written := written + [Header(path + [e.name], KindOf(e))];
        stackDirectories := stackDirectories[top := rest];
        if !Found(st, e) { return Export(written, false); }
        frames := NextFrames(st, rank, below, f);
        if e.Dir? {
          stackDirectories := stackDirectories + [st.directories[e.digest]];
          stackPaths := stackPaths + [path + [e.name]];
        }
      }
    }
    r := Export(written, true);
  }

  /** `Export` writes the recursive listing. */
  method ExportTree(st: Store, root: Entry, ghost rank: map<Bytes, nat>) returns (r: Export)
    requires GoodStore(st, rank)
    ensures r == Expected(st, rank, root)
    ensures root.Dir? && root.digest !in st.directories ==> r == Export([], false)
    ensures !root.Dir? ==>
              && |r.headers| == 1 && r.headers[0].path == [] && Describes(r.headers[0].kind, root)
              && r.ok == (root.File? ==> root.digest in st.blobs)
  {
    if !root.Dir? { ExportLeaf(st, rank, root); }
    match root {
      case File(_, digest, _, _) =>
        r := Export([Header([], KindOf(root))], digest in st.blobs);
      case Link(_, _) =>
        r := DrainStack(st, rank, [], [], [], [Header([], KindOf(root))]);
      case Dir(_, digest, _) =>
        if digest !in st.directories { return Export([], false); }
        SubRanked(st, rank, digest);
        ghost var f := Frame(st.directories[digest], [], rank[digest]);
        PushFrame(st, rank, [], f);
        assert [] + [f] == [f];
        ghost var rest := Listing(st, rank, f.bound, Merged(f.directory), []);
        assert rest.headers + [] == rest.headers;
        r := DrainStack(st, rank, [f], [st.directories[digest]], [[]], [Header([], DirectoryKind)]);
    }
  }

  /** Headers are written in strictly increasing order of their paths, the root first. */
  lemma ExportIncreasing(st: Store, rank: map<Bytes, nat>, root: Entry)
    requires GoodStore(st, rank)
    ensures Increasing(Expected(st, rank, root).headers)
  {
    if root.Dir? && Found(st, root) {
      SubRanked(st, rank, root.digest);
      var d := st.directories[root.digest];
      MergedSorted(d);
      ListingIncreasing(st, rank, rank[root.digest], Merged(d), []);
      var h := Listing(st, rank, rank[root.digest], Merged(d), []).headers;
      forall i | 0 <= i < |h| ensures PathLess([], h[i].path) {
        assert UnderSome(h[i].path, [], Names(Merged(d)));
      }
      IncreasingConcat([Header([], DirectoryKind)], h);
    }
  }

  /** When every lookup succeeds and the size fields are right, the export goes through
      and writes one header more than the size of the root directory. */
  lemma ExportCount(st: Store, rank: map<Bytes, nat>, root: Entry)
    requires GoodStore(st, rank) && AllExact(st) && root.Dir? && Found(st, root)
    ensures Expected(st, rank, root).ok
    ensures |Expected(st, rank, root).headers| == 1 + TrueSize(st.directories[root.digest])
  {
    SubRanked(st, rank, root.digest);
    var d := st.directories[root.digest];
    MergedSorted(d);
    TallyMerged(d);
    ListingCount(st, rank, rank[root.digest], Merged(d), []);
  }

  /** The header stands for the root or for a path that exists below it. */
  ghost predicate Denotes(st: Store, d: Directory, h: Header) {
    || h == Header([], DirectoryKind)
    || exists e :: AtSome(st, Entries(d), h.path, e) && Describes(h.kind, e)
  }

  /** Exporting a directory goes through iff the contents of every path below it can be found. */
  lemma ExportGoesThrough(st: Store, rank: map<Bytes, nat>, root: Entry)
    requires GoodStore(st, rank) && root.Dir? && Found(st, root)
    ensures Expected(st, rank, root).ok <==>
              forall q, e :: AtSome(st, Entries(st.directories[root.digest]), q, e) ==> Found(st, e)
  {
    SubRanked(st, rank, root.digest);
    var d := st.directories[root.digest];
    MergedSorted(d);
    if Listing(st, rank, rank[root.digest], Merged(d), []).ok {
      forall q, e | AtSome(st, Entries(d), q, e) ensures Found(st, e) {
        var x :| x in Entries(d) && At(st, x, q, e);
        ListingHas(st, rank, rank[root.digest], Merged(d), [], x, q, e);
      }
    } else {
      var q, e := ListingFails(st, rank, rank[root.digest], Merged(d), []);
    }
  }

  /** An export writes only headers that describe existing paths, and all of them if it goes
      through. */
  lemma ExportMeans(st: Store, rank: map<Bytes, nat>, root: Entry, h: Header)
    requires GoodStore(st, rank) && root.Dir? && Found(st, root)
    ensures h in Expected(st, rank, root).headers ==> Denotes(st, st.directories[root.digest], h)
    ensures Expected(st, rank, root).ok && Denotes(st, st.directories[root.digest], h) ==>
              h in Expected(st, rank, root).headers
  {
    SubRanked(st, rank, root.digest);
    var d := st.directories[root.digest];
    MergedSorted(d);
    var bound, m := rank[root.digest], Merged(d);
    var rest := Listing(st, rank, bound, m, []).headers;
    assert Expected(st, rank, root).headers == [Header([], DirectoryKind)] + rest;
    if h in rest {
      var q, e := ListingOnly(st, rank, bound, m, [], h);
      assert [] + q == q;
      DescribesIs(h.kind, e);
    }
    if Expected(st, rank, root).ok && h != Header([], DirectoryKind) && Denotes(st, d, h) {
      var e :| AtSome(st, Entries(d), h.path, e) && Describes(h.kind, e);
      DescribesIs(h.kind, e);
      var x :| x in Entries(d) && At(st, x, h.path, e);
      ListingHas(st, rank, bound, m, [], x, h.path, e);
      assert [] + h.path == h.path;
    }
  }

  /** A file or a link is one header, which describes it. */
  lemma ExportLeaf(st: Store, rank: map<Bytes, nat>, root: Entry)
    requires GoodStore(st, rank) && !root.Dir?
    ensures var r := Expected(st, rank, root);
            && |r.headers| == 1 && r.headers[0].path == [] && Describes(r.headers[0].kind, root)
            && r.ok == (root.File? ==> root.digest in st.blobs)
  {
    DescribesIs(KindOf(root), root);
  }
}
