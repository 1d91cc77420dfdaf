/** What an evaluation knows how to produce: derivations with their memoised hashes,
    the derivation chosen for each output path, and fetches. Building a path resolves
    its inputs recursively through these tables. */
module KnownPaths {
  import opened Wrappers

  type StorePath = string
  type HashModulo = nat

  datatype Derivation = Derivation(
    inputDrvs: seq<(StorePath, seq<string>)>,
    inputSources: seq<StorePath>,
    outputs: seq<(string, StorePath)>)

  function InputPaths(drv: Derivation): (r: set<StorePath>)
    ensures forall i :: 0 <= i < |drv.inputDrvs| ==> drv.inputDrvs[i].0 in r
    ensures forall p :: p in r ==> exists i :: 0 <= i < |drv.inputDrvs| && drv.inputDrvs[i].0 == p
  {
    set i | 0 <= i < |drv.inputDrvs| :: drv.inputDrvs[i].0
  }

  function OutputPaths(drv: Derivation): (r: set<StorePath>)
    ensures forall i :: 0 <= i < |drv.outputs| ==> drv.outputs[i].1 in r
    ensures forall p :: p in r ==> exists i :: 0 <= i < |drv.outputs| && drv.outputs[i].1 == p
  {
    set i | 0 <= i < |drv.outputs| :: drv.outputs[i].1
  }

  predicate HasOutput(drv: Derivation, name: string) {
    exists i :: 0 <= i < |drv.outputs| && drv.outputs[i].0 == name
  }

  /** The hash of one derivation, given the hashes of its inputs. */
  type Hasher = (Derivation, map<StorePath, HashModulo>) -> HashModulo

  type Entries = map<StorePath, (HashModulo, Derivation)>

  function InputHashes(t: Entries, drv: Derivation): map<StorePath, HashModulo> {
    map i | i in InputPaths(drv) && i in t :: t[i].0
  }

  // ------------------------------------------------------------- the reference hash

  /** Inputs are known and come strictly before. */
  ghost predicate InputsBefore(t: Entries, rank: map<StorePath, nat>, p: StorePath)
    requires p in t && rank.Keys == t.Keys
  {
    forall i :: i in InputPaths(t[p].1) ==> i in t && rank[i] < rank[p]
  }

  ghost predicate WellFounded(t: Entries, rank: map<StorePath, nat>) {
    && rank.Keys == t.Keys
    && forall p {:trigger InputsBefore(t, rank, p)} :: p in t ==> InputsBefore(t, rank, p)
  }

  /** The hash of a derivation by recursion over the graph of its inputs. */
  ghost function RecursiveHash(h: Hasher, t: Entries, rank: map<StorePath, nat>, p: StorePath): HashModulo
    requires WellFounded(t, rank) && p in t
    decreases rank[p]
  {
    assert InputsBefore(t, rank, p);
    h(t[p].1, map i | i in InputPaths(t[p].1) :: RecursiveHash(h, t, rank, i))
  }

  /** The memoised hash is that of the derivation over the memoised hashes of its inputs. */
  ghost predicate Memoised(h: Hasher, t: Entries, p: StorePath)
    requires p in t
  {
    t[p].0 == h(t[p].1, InputHashes(t, t[p].1))
  }

  /** Every memoised hash is the one defined by recursion over the inputs. */
  lemma {:induction false} MemoIsRecursive(h: Hasher, t: Entries, rank: map<StorePath, nat>, p: StorePath)
    requires WellFounded(t, rank) && p in t
    requires forall q {:trigger Memoised(h, t, q)} :: q in t ==> Memoised(h, t, q)
    ensures t[p].0 == RecursiveHash(h, t, rank, p)
    decreases rank[p]
  {
    assert InputsBefore(t, rank, p);
    forall i | i in InputPaths(t[p].1) ensures t[i].0 == RecursiveHash(h, t, rank, i) {
      MemoIsRecursive(h, t, rank, i);
    }
    assert Memoised(h, t, p);
    assert InputHashes(t, t[p].1) == (map i | i in InputPaths(t[p].1) :: RecursiveHash(h, t, rank, i));
  }

  // ------------------------------------------------------------------------ the tables

  /** Each output path leads to a known derivation that has it. */
  ghost predicate Leads(t: Entries, byOutput: map<StorePath, StorePath>, o: StorePath)
    requires o in byOutput
  {
    byOutput[o] in t && o in OutputPaths(t[byOutput[o]].1)
  }

  /** Every output of `p` leads to a derivation inserted no later than `p`. */
  ghost predicate Earliest(t: Entries, rank: map<StorePath, nat>, byOutput: map<StorePath, StorePath>, p: StorePath)
    requires p in t && p in rank
  {
    forall o :: o in OutputPaths(t[p].1) ==> o in byOutput && byOutput[o] in rank && rank[byOutput[o]] <= rank[p]
  }

  /** All input derivations have been inserted. */
  ghost predicate InputsKnown(t: Entries, drv: Derivation) {
    forall i :: i in InputPaths(drv) ==> i in t
  }

  /** Positions are below the number of insertions. */
  ghost predicate Bounded(rank: map<StorePath, nat>) {
    forall p :: p in rank ==> rank[p] < |rank|
  }

  ghost predicate Consistent(h: Hasher, t: Entries, rank: map<StorePath, nat>, byOutput: map<StorePath, StorePath>) {
    && WellFounded(t, rank)
    && Bounded(rank)
    && (forall p {:trigger Memoised(h, t, p)} :: p in t ==> Memoised(h, t, p))
    && (forall o {:trigger Leads(t, byOutput, o)} :: o in byOutput ==> Leads(t, byOutput, o))
    && (forall p {:trigger Earliest(t, rank, byOutput, p)} :: p in t ==> Earliest(t, rank, byOutput, p))
  }

  /** `byOutput` after a derivation's outputs were entered: existing entries stay. */
  ghost predicate FirstWins(before: map<StorePath, StorePath>, after: map<StorePath, StorePath>, outs: set<StorePath>,
                            p: StorePath)
  {
    && after.Keys == before.Keys + outs
    && forall o :: o in after ==> after[o] == if o in before then before[o] else p
  }

  class Table {
    const h: Hasher
    var derivations: Entries
    var outputsToDrvPath: map<StorePath, StorePath>
    var outputsToFetches: map<StorePath, (string, nat)>
    ghost var rank: map<StorePath, nat>  // the position at which each was first inserted

    ghost predicate Valid()
      reads this
    {
      Consistent(h, derivations, rank, outputsToDrvPath)
    }

    constructor (hasher: Hasher)
      ensures Valid() && h == hasher && derivations == map[] && outputsToDrvPath == map[] && outputsToFetches == map[]
    {
      h := hasher;
      derivations, outputsToDrvPath, outputsToFetches := map[], map[], map[];
      rank := map[];
    }

    /** Enters the derivation for every output that has no entry yet. */
    method EnterOutputs(p: StorePath, drv: Derivation)
      modifies this`outputsToDrvPath
      ensures FirstWins(old(outputsToDrvPath), outputsToDrvPath, OutputPaths(drv), p)
    {
      var n := 0;
      while n < |drv.outputs|
        invariant 0 <= n <= |drv.outputs|
        invariant outputsToDrvPath.Keys == old(outputsToDrvPath).Keys + set i | 0 <= i < n :: drv.outputs[i].1
        invariant forall o :: o in outputsToDrvPath ==>
                    outputsToDrvPath[o] == if o in old(outputsToDrvPath) then old(outputsToDrvPath)[o] else p
      {
        var o := drv.outputs[n].1;
        if o !in outputsToDrvPath {
          outputsToDrvPath := outputsToDrvPath[o := p];
        }
        n := n + 1;
      }
    }

    /** `add_derivation`: all inputs must have been inserted, and a derivation path
        always denotes the same derivation. */
    method AddDerivation(p: StorePath, drv: Derivation)
      requires Valid() && InputsKnown(derivations, drv)
      requires p in derivations ==> derivations[p].1 == drv
      modifies this
      ensures Valid() && outputsToFetches == old(outputsToFetches)
      ensures derivations == old(derivations)[p := (h(drv, InputHashes(old(derivations), drv)), drv)]
      ensures FirstWins(old(outputsToDrvPath), outputsToDrvPath, OutputPaths(drv), p)
      ensures old(rank).Keys <= rank.Keys && forall q :: q in old(rank) ==> rank[q] == old(rank)[q]
      ensures p in old(derivations) ==>
                derivations == old(derivations) && outputsToDrvPath == old(outputsToDrvPath) && rank == old(rank)
    {
      var hashModulo := h(drv, InputHashes(derivations, drv));
      EnterOutputs(p, drv);
      if p in derivations {
        AddAgain(h, derivations, rank, old(outputsToDrvPath), outputsToDrvPath, p);
      } else {
        AddNew(h, derivations, rank, old(outputsToDrvPath), outputsToDrvPath, p, drv);
        rank := rank[p := |rank|];
      }
      derivations := derivations[p := (hashModulo, drv)];
    }

    /** `get_hash_derivation_modulo`: the recursively defined hash of a known derivation. */
    method GetHashDerivationModulo(p: StorePath) returns (r: Option<HashModulo>)
      requires Valid()
      ensures r.Some? <==> p in derivations
      ensures r.Some? ==> r.value == RecursiveHash(h, derivations, rank, p)
    {
      if p !in derivations { return None; }
      MemoIsRecursive(h, derivations, rank, p);
      r := Some(derivations[p].0);
    }

    /** `get_drv_path_for_output_path`, then the derivation itself, which is there. */
    method GetDrvForOutput(o: StorePath) returns (r: Option<Derivation>)
      requires Valid()
      ensures r.Some? ==> o in OutputPaths(r.value) && exists p :: p in derivations && derivations[p].1 == r.value
      ensures r.Some? <==> exists p :: p in derivations && o in OutputPaths(derivations[p].1)
    {
      if o !in outputsToDrvPath {
        forall p | p in derivations ensures o !in OutputPaths(derivations[p].1) {
          assert Earliest(derivations, rank, outputsToDrvPath, p);
        }
        return None;
      }
      assert Leads(derivations, outputsToDrvPath, o);
      r := Some(derivations[outputsToDrvPath[o]].1);
    }

    method AddFetch(o: StorePath, name: string, fetch: nat)
      requires Valid()
      modifies this`outputsToFetches
      ensures Valid() && outputsToFetches == old(outputsToFetches)[o := (name, fetch)]
    {
      outputsToFetches := outputsToFetches[o := (name, fetch)];
    }
  }

  lemma AddAgain(h: Hasher, t: Entries, rank: map<StorePath, nat>, before: map<StorePath, StorePath>,
                 after: map<StorePath, StorePath>, p: StorePath)
    requires Consistent(h, t, rank, before) && p in t && FirstWins(before, after, OutputPaths(t[p].1), p)
    ensures after == before
    ensures t[p := (h(t[p].1, InputHashes(t, t[p].1)), t[p].1)] == t
  {
    assert Earliest(t, rank, before, p);
    assert Memoised(h, t, p);
  }

  ghost function With(h: Hasher, t: Entries, p: StorePath, drv: Derivation): Entries {
    t[p := (h(drv, InputHashes(t, drv)), drv)]
  }

  lemma NewMemoised(h: Hasher, t: Entries, p: StorePath, drv: Derivation, q: StorePath)
    requires p !in t && (q == p || (q in t && Memoised(h, t, q)))
    requires forall i :: i in InputPaths(if q == p then drv else t[q].1) ==> i in t
    ensures Memoised(h, With(h, t, p, drv), q)
  {
    var d := if q == p then drv else t[q].1;
    assert InputHashes(With(h, t, p, drv), d) == InputHashes(t, d);
  }

  lemma NewEarliest(h: Hasher, t: Entries, rank: map<StorePath, nat>, before: map<StorePath, StorePath>,
                    after: map<StorePath, StorePath>, p: StorePath, drv: Derivation, q: StorePath)
    requires Consistent(h, t, rank, before) && p !in t && FirstWins(before, after, OutputPaths(drv), p)
    requires q in t || q == p
    ensures Earliest(With(h, t, p, drv), rank[p := |rank|], after, q)
  {
    if q != p { assert Earliest(t, rank, before, q); }
    forall o | o in before ensures before[o] in rank { assert Leads(t, before, o); }
  }

  lemma NewInputs(h: Hasher, t: Entries, rank: map<StorePath, nat>, p: StorePath, drv: Derivation, q: StorePath)
    requires WellFounded(t, rank) && Bounded(rank)
    requires p !in t && InputsKnown(t, drv) && (q == p || q in t)
    ensures InputsBefore(With(h, t, p, drv), rank[p := |rank|], q)
  {
    if q != p { assert InputsBefore(t, rank, q); }
  }

  lemma AllInputs(h: Hasher, t: Entries, rank: map<StorePath, nat>, before: map<StorePath, StorePath>, p: StorePath,
                  drv: Derivation)
    requires Consistent(h, t, rank, before) && p !in t && InputsKnown(t, drv)
    ensures WellFounded(With(h, t, p, drv), rank[p := |rank|])
  {
    var t', rank' := With(h, t, p, drv), rank[p := |rank|];
    forall q | q in t' ensures InputsBefore(t', rank', q) {
      NewInputs(h, t, rank, p, drv, q);
    }
  }

  lemma AllMemoised(h: Hasher, t: Entries, rank: map<StorePath, nat>, before: map<StorePath, StorePath>, p: StorePath,
                    drv: Derivation)
    requires Consistent(h, t, rank, before) && p !in t && InputsKnown(t, drv)
    ensures forall q {:trigger Memoised(h, With(h, t, p, drv), q)} :: q in With(h, t, p, drv) ==>
              Memoised(h, With(h, t, p, drv), q)
  {
    var t' := With(h, t, p, drv);
    forall q | q in t' ensures Memoised(h, t', q) {
      if q != p { assert Memoised(h, t, q) && InputsBefore(t, rank, q); }
      NewMemoised(h, t, p, drv, q);
    }
  }

  lemma AllLead(h: Hasher, t: Entries, rank: map<StorePath, nat>, before: map<StorePath, StorePath>,
                after: map<StorePath, StorePath>, p: StorePath, drv: Derivation)
    requires Consistent(h, t, rank, before) && p !in t && FirstWins(before, after, OutputPaths(drv), p)
    ensures forall o {:trigger Leads(With(h, t, p, drv), after, o)} :: o in after ==>
              Leads(With(h, t, p, drv), after, o)
    ensures forall q {:trigger Earliest(With(h, t, p, drv), rank[p := |rank|], after, q)} ::
              q in With(h, t, p, drv) ==> Earliest(With(h, t, p, drv), rank[p := |rank|], after, q)
  {
    var t', rank' := With(h, t, p, drv), rank[p := |rank|];
    forall q | q in t' ensures Earliest(t', rank', after, q) {
      NewEarliest(h, t, rank, before, after, p, drv, q);
    }
    forall o | o in after ensures Leads(t', after, o) {
      if o in before { assert Leads(t, before, o); }
    }
  }

  lemma NextRank(rank: map<StorePath, nat>, p: StorePath)
    requires p !in rank && Bounded(rank)
    ensures Bounded(rank[p := |rank|])
  {
    assert rank[p := |rank|].Keys == rank.Keys + {p};
  }

  lemma AddNew(h: Hasher, t: Entries, rank: map<StorePath, nat>, before: map<StorePath, StorePath>,
               after: map<StorePath, StorePath>, p: StorePath, drv: Derivation)
    requires Consistent(h, t, rank, before) && p !in t && FirstWins(before, after, OutputPaths(drv), p)
    requires InputsKnown(t, drv)
    ensures Consistent(h, With(h, t, p, drv), rank[p := |rank|], after)
  {
    NextRank(rank, p);
    AllInputs(h, t, rank, before, p, drv);
    AllMemoised(h, t, rank, before, p, drv);
    AllLead(h, t, rank, before, after, p, drv);
  }
}
