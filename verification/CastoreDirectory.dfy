/** Directories of the content-addressed store: their entries in three lists, what
    makes one valid, and its size. */
module CastoreDirectory {
  import opened Wrappers

  type Bytes = seq<byte>

  const SLASH: byte := 47
  const DOT: byte := 46

  datatype Entry =
    | Dir(name: Bytes, digest: Bytes, size: u64)
    | File(name: Bytes, digest: Bytes, size: u64, executable: bool)
    | Link(name: Bytes, target: Bytes)

  type DirEntry = e: Entry | e.Dir? witness Dir([], [], 0)
  type FileEntry = e: Entry | e.File? witness File([], [], 0, false)
  type LinkEntry = e: Entry | e.Link? witness Link([], [])

  datatype Directory = Directory(directories: seq<DirEntry>, files: seq<FileEntry>, symlinks: seq<LinkEntry>)

  // ------------------------------------------------------------------------ byte order

  /** Lexicographic order of bytes, a proper prefix coming first. */
  predicate Less(a: Bytes, b: Bytes) {
    b != [] && (a == [] || a[0] < b[0] || (a[0] == b[0] && Less(a[1..], b[1..])))
  }

  lemma {:induction false} LessIrreflexive(a: Bytes)
    ensures !Less(a, a)
  {
    if a != [] { LessIrreflexive(a[1..]); }
  }

  lemma {:induction false} LessTransitive(a: Bytes, b: Bytes, c: Bytes)
    requires Less(a, b) && Less(b, c)
    ensures Less(a, c)
  {
    if a != [] && a[0] == b[0] == c[0] { LessTransitive(a[1..], b[1..], c[1..]); }
  }

  lemma {:induction false} LessTotal(a: Bytes, b: Bytes)
    ensures a == b || Less(a, b) || Less(b, a)
  {
    if a != [] && b != [] && a[0] == b[0] {
      LessTotal(a[1..], b[1..]);
      assert a == [a[0]] + a[1..] && b == [b[0]] + b[1..];
    }
  }

  /** The sequences agree up to `i`, where the first ends or has the smaller byte. */
  ghost predicate SmallerAt(a: Bytes, b: Bytes, i: nat) {
    i <= |a| && i < |b| && (i == |a| || a[i] < b[i]) && forall j :: 0 <= j < i ==> a[j] == b[j]
  }

  /** The order is that of the first difference. */
  lemma {:induction false} LessIs(a: Bytes, b: Bytes)
    ensures Less(a, b) <==> exists i: nat :: SmallerAt(a, b, i)
  {
    if a != [] && b != [] && a[0] == b[0] {
      LessIs(a[1..], b[1..]);
      if i: nat :| SmallerAt(a[1..], b[1..], i) {
        forall j | 0 <= j < i + 1 ensures a[j] == b[j] {
          if j > 0 { assert a[1..][j - 1] == a[j] && b[1..][j - 1] == b[j]; }
        }
        assert SmallerAt(a, b, i + 1);
      }
      if i: nat :| SmallerAt(a, b, i) {
        forall j | 0 <= j < i - 1 ensures a[1..][j] == b[1..][j] { assert a[j + 1] == b[j + 1]; }
        assert SmallerAt(a[1..], b[1..], i - 1);
      }
    } else if Less(a, b) {
      assert SmallerAt(a, b, 0);
    } else {
      assert forall i: nat :: SmallerAt(a, b, i) ==> i == 0 || a[0] == b[0];
    }
  }

  // -------------------------------------------------------------------------- validity

  /** No slash, no null byte, not `.`, not `..`, not empty. */
  predicate ValidName(n: Bytes) {
    n != [] && n != [DOT, DOT] && n != [DOT] && 0 !in n && SLASH !in n
  }

  /** A name is valid iff it has one to any number of bytes, none of them null or a slash, and is
      not made of one or two dots. */
  lemma ValidNameIs(n: Bytes)
    ensures ValidName(n) <==>
              && |n| > 0 && (forall i :: 0 <= i < |n| ==> n[i] != 0 && n[i] != 47)
              && !(|n| <= 2 && forall i :: 0 <= i < |n| ==> n[i] == 46)
  {
    assert 0 !in n && SLASH !in n <==> forall i :: 0 <= i < |n| ==> n[i] != 0 && n[i] != 47;
    if |n| == 1 { assert n == [n[0]]; }
    if |n| == 2 { assert n == [n[0], n[1]]; }
  }

  predicate ValidEntry(e: Entry) {
    match e
    case Dir(name, digest, _) => |digest| == 32 && ValidName(name)
    case File(name, digest, _, _) => |digest| == 32 && ValidName(name)
    case Link(name, target) => target != [] && 0 !in target && ValidName(name)
  }

  /** Digests have 32 bytes, and link targets some, none of them null. */
  lemma ValidEntryIs(e: Entry)
    ensures ValidEntry(e) <==>
              && ValidName(e.name) && (!e.Link? ==> |e.digest| == 32)
              && (e.Link? ==> |e.target| > 0 && forall i :: 0 <= i < |e.target| ==> e.target[i] != 0)
  {
    if e.Link? { assert 0 !in e.target <==> forall i :: 0 <= i < |e.target| ==> e.target[i] != 0; }
  }

  function Names(s: seq<Entry>): set<Bytes> {
    set i | 0 <= i < |s| :: s[i].name
  }

  ghost predicate Sorted(s: seq<Entry>) {
    forall i, j :: 0 <= i < j < |s| ==> Less(s[i].name, s[j].name)
  }

  ghost predicate AllValid(s: seq<Entry>) {
    forall i :: 0 <= i < |s| ==> ValidEntry(s[i])
  }

  /** Each list is strictly sorted, and no name occurs in two lists. */
  ghost predicate Ordered(d: Directory) {
    && Sorted(d.directories) && Sorted(d.files) && Sorted(d.symlinks)
    && Names(d.directories) !! Names(d.files)
    && Names(d.directories) + Names(d.files) !! Names(d.symlinks)
  }

  /** Entries are valid, each list is strictly sorted, and no name occurs in two lists. */
  ghost predicate Valid(d: Directory) {
    && AllValid(d.directories) && AllValid(d.files) && AllValid(d.symlinks)
    && Ordered(d)
  }

  datatype Fault = BadEntry(name: Bytes) | NotSorted(name: Bytes) | Duplicate(name: Bytes)

  lemma SortedSnoc(s: seq<Entry>, e: Entry)
    requires Sorted(s) && (s != [] ==> Less(s[|s| - 1].name, e.name))
    ensures Sorted(s + [e]) && e.name !in Names(s)
  {
    forall i | 0 <= i < |s| ensures Less(s[i].name, e.name) && s[i].name != e.name {
      if i < |s| - 1 { LessTransitive(s[i].name, s[|s| - 1].name, e.name); }
      LessIrreflexive(e.name);
    }
  }

  lemma NamesSnoc(s: seq<Entry>, e: Entry)
    ensures Names(s + [e]) == Names(s) + {e.name}
  {
    var s' := s + [e];
    assert s'[|s|] == e && forall i :: 0 <= i < |s| ==> s'[i] == s[i];
  }

  /** The list is fine as far as it goes, given the names seen before it. */
  ghost predicate Fine(s: seq<Entry>, seen: set<Bytes>) {
    AllValid(s) && Sorted(s) && Names(s) !! seen
  }

  /** What the fault says of the first entry that is not fine. */
  ghost predicate FaultAt(s: seq<Entry>, seen: set<Bytes>, n: nat, f: Fault) {
    && n < |s| && Fine(s[..n], seen)
    && if !ValidEntry(s[n]) then f == BadEntry(s[n].name)
       else if n > 0 && !Less(s[n - 1].name, s[n].name) then f == NotSorted(s[n].name)
       else f == Duplicate(s[n].name) && s[n].name in seen
  }

  ghost predicate FaultIn(s: seq<Entry>, seen: set<Bytes>, f: Fault) {
    exists n: nat :: FaultAt(s, seen, n, f)
  }

  /** One of the three loops of `Validate`, with the last name and the names seen. */
  method ValidateList(s: seq<Entry>, seen: set<Bytes>) returns (fault: Option<Fault>, seen': set<Bytes>)
    ensures fault.None? <==> Fine(s, seen)
    ensures fault.None? ==> seen' == seen + Names(s)
    ensures fault.Some? ==> FaultIn(s, seen, fault.value)
  {
    fault, seen' := None, seen;
    var last: Bytes := [];
    for n := 0 to |s|
      invariant last == if n == 0 then [] else s[n - 1].name
      invariant seen' == seen + Names(s[..n])
      invariant Fine(s[..n], seen)
    {
      var e := s[n];
      assert e.name in Names(s);
      if !ValidEntry(e) {
        assert FaultAt(s, seen, n, BadEntry(e.name));
        return Some(BadEntry(e.name)), seen';
      }
      if !Less(last, e.name) {
        assert FaultAt(s, seen, n, NotSorted(e.name));
        return Some(NotSorted(e.name)), seen';
      }
      last := e.name;
      SortedSnoc(s[..n], e);
      if e.name in seen' {
        assert FaultAt(s, seen, n, Duplicate(e.name));
        return Some(Duplicate(e.name)), seen';
      }
      NamesSnoc(s[..n], e);
      assert s[..n] + [e] == s[..n + 1];
      seen' := seen' + {e.name};
    }
    assert s[..|s|] == s;
  }

  /** `Validate` accepts exactly the valid directories. */
  method Validate(d: Directory) returns (fault: Option<Fault>)
    ensures fault.None? <==> Valid(d)
    ensures fault.Some? ==>
              if !Fine(d.directories, {}) then FaultIn(d.directories, {}, fault.value)
              else if !Fine(d.files, Names(d.directories)) then FaultIn(d.files, Names(d.directories), fault.value)
              else FaultIn(d.symlinks, Names(d.directories) + Names(d.files), fault.value)
  {
    var seen: set<Bytes> := {};
    fault, seen := ValidateList(d.directories, seen);
    if fault.Some? { return; }
    assert seen == Names(d.directories);
    fault, seen := ValidateList(d.files, seen);
    if fault.Some? { return; }
    assert seen == Names(d.directories) + Names(d.files);
    fault, seen := ValidateList(d.symlinks, seen);
  }

  // ------------------------------------------------------------------------------ size

  /** What the size fields add up to, without wrapping. */
  function SizeSum(s: seq<DirEntry>): nat {
    if s == [] then 0 else 1 + s[0].size + SizeSum(s[1..])
  }

  function TrueSize(d: Directory): nat {
    |d.files| + |d.symlinks| + SizeSum(d.directories)
  }

  lemma {:induction false} SizeSumSnoc(s: seq<DirEntry>, e: DirEntry)
    ensures SizeSum(s + [e]) == SizeSum(s) + 1 + e.size
  {
    if s != [] {
      assert (s + [e])[1..] == s[1..] + [e];
      SizeSumSnoc(s[1..], e);
    }
  }

  lemma WrapAdd(a: nat, b: nat)
    ensures (a % TWO_TO_64 + b) % TWO_TO_64 == (a + b) % TWO_TO_64
  {
  }

  /** `Size`, in 64-bit arithmetic, is the sum whenever that fits. */
  method Size(d: Directory) returns (size: u64)
    ensures size == TrueSize(d) % TWO_TO_64
    ensures TrueSize(d) < TWO_TO_64 ==> size == TrueSize(d)
  {
    size := (|d.files| + |d.symlinks|) % TWO_TO_64;
    for n := 0 to |d.directories|
      invariant size == (|d.files| + |d.symlinks| + SizeSum(d.directories[..n])) % TWO_TO_64
    {
      SizeSumSnoc(d.directories[..n], d.directories[n]);
      assert d.directories[..n] + [d.directories[n]] == d.directories[..n + 1];
      WrapAdd(|d.files| + |d.symlinks| + SizeSum(d.directories[..n]), 1 + d.directories[n].size);
      size := (size + 1 + d.directories[n].size) % TWO_TO_64;
    }
    assert d.directories[..|d.directories|] == d.directories;
  }
}
