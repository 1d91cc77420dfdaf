/** Producing a store path: present already, fetched, or built after its inputs were
    produced the same way. The recursion follows the tables of known paths. */
module BuildState {
  import opened Wrappers
  import opened KnownPaths

  /** The input derivations are known, and the outputs named of them exist. */
  ghost predicate InputsHaveOutputs(t: Entries, drv: Derivation) {
    forall i :: 0 <= i < |drv.inputDrvs| ==>
      && drv.inputDrvs[i].0 in t
      && forall j :: 0 <= j < |drv.inputDrvs[i].1| ==> HasOutput(t[drv.inputDrvs[i].0].1, drv.inputDrvs[i].1[j])
  }

  type Infos = map<StorePath, set<StorePath>>

  /** A finished build lists, for every output, the positions of the needles found in it. */
  datatype BuildOutcome = Failed | Built(needles: seq<seq<nat>>)

  /** The first `n` entries of an answer. */
  function Zipped(outcome: BuildOutcome, n: nat): (r: BuildOutcome)
    ensures r.Failed? <==> outcome.Failed?
    ensures r.Built? ==> r.needles <= outcome.needles
    ensures r.Built? ==> |r.needles| == n || (|r.needles| < n && r.needles == outcome.needles)
  {
    if outcome.Built? && |outcome.needles| > n then Built(outcome.needles[..n]) else outcome
  }

  datatype Outcome = Info(references: set<StorePath>) | NotKnown | Error

  /** Everything a stored path refers to is stored too. */
  ghost predicate Closed(infos: Infos) {
    forall p :: p in infos ==> infos[p] <= infos.Keys
  }

  function Elements(s: seq<StorePath>): set<StorePath> {
    set i | 0 <= i < |s| :: s[i]
  }

  /** The references are those that the needles, positions of possible ones, stand for. */
  ghost predicate StandFor(references: set<StorePath>, possible: seq<StorePath>, needles: seq<nat>) {
    && (forall q :: q in references ==> exists l :: 0 <= l < |needles| && Names(possible, needles[l], q))
    && (forall l :: 0 <= l < |needles| && needles[l] < |possible| ==> possible[needles[l]] in references)
  }

  ghost predicate Names(possible: seq<StorePath>, needle: nat, q: StorePath) {
    needle < |possible| && possible[needle] == q
  }

  function Named(possible: seq<StorePath>, needles: seq<nat>): (r: set<StorePath>)
    ensures StandFor(r, possible, needles)
  {
    var r := set i | 0 <= i < |needles| && needles[i] < |possible| :: possible[needles[i]];
    assert forall q :: q in r ==> exists l :: 0 <= l < |needles| && Names(possible, needles[l], q);
    r
  }

  /** The paths of the outputs, in order. */
  function OutputList(drv: Derivation): (r: seq<StorePath>)
    ensures |r| == |drv.outputs| && forall i :: 0 <= i < |r| ==> r[i] == drv.outputs[i].1
    ensures Elements(r) == OutputPaths(drv)
  {
    var r := seq(|drv.outputs|, i requires 0 <= i < |drv.outputs| => drv.outputs[i].1);
    assert forall i :: 0 <= i < |r| ==> r[i] == drv.outputs[i].1;
    r
  }

  /** The path of the named output, from position `i` on. */
  function OutputNamed(drv: Derivation, name: string, i: nat): (o: StorePath)
    requires exists j :: i <= j < |drv.outputs| && drv.outputs[j].0 == name
    ensures o in OutputPaths(drv)
    ensures exists j :: i <= j < |drv.outputs| && drv.outputs[j] == (name, o)
    decreases |drv.outputs| - i
  {
    if drv.outputs[i].0 == name then
      assert drv.outputs[i] == (name, drv.outputs[i].1);
      drv.outputs[i].1
    else OutputNamed(drv, name, i + 1)
  }

  /** The chosen outputs of one input derivation. */
  function ChosenOutputs(drv: Derivation, names: seq<string>): (r: seq<StorePath>)
    requires forall j :: 0 <= j < |names| ==> HasOutput(drv, names[j])
    ensures |r| == |names| && forall j :: 0 <= j < |names| ==> (names[j], r[j]) in drv.outputs
  {
    if names == [] then [] else
      assert HasOutput(drv, names[|names| - 1]);
      ChosenOutputs(drv, names[..|names| - 1]) + [OutputNamed(drv, names[|names| - 1], 0)]
  }

  /** The paths a derivation names directly: its sources, then the chosen outputs of
      its inputs. Neither lookup can fail. */
  function DirectInputs(t: Entries, drv: Derivation): (r: seq<StorePath>)
    requires InputsHaveOutputs(t, drv)
  {
    drv.inputSources + InputOutputs(t, drv, |drv.inputDrvs|)
  }

  function InputOutputs(t: Entries, drv: Derivation, n: nat): (r: seq<StorePath>)
    requires InputsHaveOutputs(t, drv) && n <= |drv.inputDrvs|
  {
    if n == 0 then [] else
      InputOutputs(t, drv, n - 1) + ChosenOutputs(t[drv.inputDrvs[n - 1].0].1, drv.inputDrvs[n - 1].1)
  }

  /** Every output an input names is listed. */
  lemma {:induction false} InputOutputsAll(t: Entries, drv: Derivation, n: nat, i: nat, j: nat) returns (o: StorePath)
    requires InputsHaveOutputs(t, drv) && i < n <= |drv.inputDrvs| && j < |drv.inputDrvs[i].1|
    ensures o in InputOutputs(t, drv, n) && (drv.inputDrvs[i].1[j], o) in t[drv.inputDrvs[i].0].1.outputs
    decreases n
  {
    var outs := ChosenOutputs(t[drv.inputDrvs[n - 1].0].1, drv.inputDrvs[n - 1].1);
    if i == n - 1 {
      o := outs[j];
      assert o in outs;
    } else {
      o := InputOutputsAll(t, drv, n - 1, i, j);
    }
  }

  /** Only outputs asked for are listed. */
  lemma {:induction false} InputOutputsOnly(t: Entries, drv: Derivation, n: nat, o: StorePath)
    returns (i: nat, j: nat)
    requires InputsHaveOutputs(t, drv) && n <= |drv.inputDrvs| && o in InputOutputs(t, drv, n)
    ensures AskedFor(t, drv, i, j, o)
    decreases n
  {
    if o in InputOutputs(t, drv, n - 1) {
      i, j := InputOutputsOnly(t, drv, n - 1, o);
    } else {
      i := n - 1;
      var outs := ChosenOutputs(t[drv.inputDrvs[i].0].1, drv.inputDrvs[i].1);
      j :| 0 <= j < |outs| && outs[j] == o;
    }
  }

  /** The path is the output that input `i` is asked for under its `j`th name. */
  ghost predicate AskedFor(t: Entries, drv: Derivation, i: nat, j: nat, p: StorePath) {
    && i < |drv.inputDrvs| && j < |drv.inputDrvs[i].1| && drv.inputDrvs[i].0 in t
    && (drv.inputDrvs[i].1[j], p) in t[drv.inputDrvs[i].0].1.outputs
  }

  ghost predicate Lists(t: Entries, drv: Derivation, i: nat, j: nat, paths: seq<StorePath>) {
    exists p :: p in paths && AskedFor(t, drv, i, j, p)
  }

  /** A derivation names its sources and the outputs it asks its inputs for, and nothing else. */
  lemma DirectInputsAre(t: Entries, drv: Derivation)
    requires InputsHaveOutputs(t, drv)
    ensures forall p :: p in drv.inputSources ==> p in DirectInputs(t, drv)
    ensures forall i: nat, j: nat ::
              i < |drv.inputDrvs| && j < |drv.inputDrvs[i].1| ==> Lists(t, drv, i, j, DirectInputs(t, drv))
    ensures forall p :: p in DirectInputs(t, drv) ==>
              p in drv.inputSources || exists i: nat, j: nat :: AskedFor(t, drv, i, j, p)
  {
    var n := |drv.inputDrvs|;
    forall i: nat, j: nat | i < n && j < |drv.inputDrvs[i].1|
      ensures Lists(t, drv, i, j, DirectInputs(t, drv))
    {
      var o := InputOutputsAll(t, drv, n, i, j);
      assert AskedFor(t, drv, i, j, o);
    }
    forall p | p in DirectInputs(t, drv) && p !in drv.inputSources
      ensures exists i: nat, j: nat :: AskedFor(t, drv, i, j, p)
    {
      var i, j := InputOutputsOnly(t, drv, n, p);
    }
  }

  ghost predicate NoRepeat(s: seq<StorePath>) {
    forall i, j :: 0 <= i < j < |s| ==> s[i] != s[j]
  }

  lemma NoRepeatSnoc(s: seq<StorePath>, p: StorePath)
    requires NoRepeat(s) && p !in s
    ensures NoRepeat(s + [p])
  {
  }

  /** What is appended to the queue for the references of one path: each that was not
      visited before, once. */
  method Enqueue(visited: set<StorePath>, references: seq<StorePath>)
    returns (added: seq<StorePath>, visited': set<StorePath>)
    ensures visited' == visited + Elements(references)
    ensures Elements(added) == Elements(references) - visited && NoRepeat(added)
    ensures visited' == visited ==> added == []
  {
    added, visited' := [], visited;
    for n := 0 to |references|
      invariant visited' == visited + Elements(references[..n])
      invariant Elements(added) == Elements(references[..n]) - visited && NoRepeat(added)
    {
      ElementsSnoc(references[..n], references[n]);
      assert references[..n] + [references[n]] == references[..n + 1];
      if references[n] !in visited' {
        ElementsSnoc(added, references[n]);
        assert references[n] !in Elements(added);
        NoRepeatSnoc(added, references[n]);
        added, visited' := added + [references[n]], visited' + {references[n]};
      }
    }
    assert references[..|references|] == references;
    if added != [] { assert added[0] in Elements(added); }
  }

  lemma ElementsConcat(a: seq<StorePath>, b: seq<StorePath>)
    ensures Elements(a + b) == Elements(a) + Elements(b)
  {
    var c := a + b;
    assert forall i :: 0 <= i < |a| ==> c[i] == a[i];
    assert forall i :: 0 <= i < |b| ==> c[|a| + i] == b[i];
  }

  lemma ElementsSnoc(s: seq<StorePath>, p: StorePath)
    ensures Elements(s + [p]) == Elements(s) + {p}
  {
    var s' := s + [p];
    assert s'[|s|] == p && forall i :: 0 <= i < |s| ==> s'[i] == s[i];
  }

  lemma ElementsTail(s: seq<StorePath>)
    requires s != []
    ensures Elements(s) == {s[0]} + Elements(s[1..])
  {
    assert forall i :: 0 < i < |s| ==> s[i] == s[1..][i - 1];
  }

  /** What `get_all_inputs` yields: a path and the references it was found with. */
  datatype Input = Input(path: StorePath, references: set<StorePath>)

  function Delivered(items: seq<Input>): set<StorePath> {
    if items == [] then {} else Delivered(items[..|items| - 1]) + {items[|items| - 1].path}
  }

  ghost function Mentioned(items: seq<Input>): set<StorePath> {
    if items == [] then {} else Mentioned(items[..|items| - 1]) + items[|items| - 1].references
  }

  /** Every item was named directly or by an item before it. */
  ghost predicate Traced(direct: set<StorePath>, items: seq<Input>) {
    items == [] ||
    (var init := items[..|items| - 1];
     Traced(direct, init) && items[|items| - 1].path in direct + Mentioned(init))
  }

  /** Whatever was named is queued or delivered, and only that. */
  ghost predicate Tracked(direct: set<StorePath>, queue: set<StorePath>, visited: set<StorePath>, items: seq<Input>) {
    && visited == Mentioned(items)
    && direct + visited <= queue + Delivered(items)
    && queue <= direct + visited
    && Traced(direct, items)
  }

  lemma TrackedStep(direct: set<StorePath>, queue: set<StorePath>, p: StorePath, visited: set<StorePath>,
                    items: seq<Input>, refs: set<StorePath>)
    requires Tracked(direct, {p} + queue, visited, items)
    ensures Tracked(direct, queue + (refs - visited), visited + refs, items + [Input(p, refs)])
    ensures Delivered(items + [Input(p, refs)]) == Delivered(items) + {p}
  {
    assert (items + [Input(p, refs)])[..|items|] == items;
  }

  /** Delivers the first path of the queue and appends its references that were not visited. */
  method Advance(queue: seq<StorePath>, visited: set<StorePath>, items: seq<Input>, refs: set<StorePath>,
                 references: seq<StorePath>, ghost direct: set<StorePath>)
    returns (queue': seq<StorePath>, visited': set<StorePath>, items': seq<Input>)
    requires queue != [] && Elements(references) == refs && Tracked(direct, Elements(queue), visited, items)
    ensures items' == items + [Input(queue[0], refs)] && visited' == visited + refs
    ensures Elements(queue') <= Elements(queue) + refs && Tracked(direct, Elements(queue'), visited', items')
    ensures visited' == visited ==> |queue'| < |queue|
  {
    ElementsTail(queue);
    var added;
    added, visited' := Enqueue(visited, references);
    ElementsConcat(queue[1..], added);
    TrackedStep(direct, Elements(queue[1..]), queue[0], visited, items, refs);
    queue', items' := queue[1..] + added, items + [Input(queue[0], refs)];
  }

  lemma FewerLeft(u: set<StorePath>, visited: set<StorePath>, visited': set<StorePath>)
    requires visited <= visited' <= u
    ensures visited' == visited || |u - visited'| < |u - visited|
  {
    if visited' != visited {
      assert u - visited == (u - visited') + (visited' - visited);
    }
  }

  /** All needles are positions of paths the build was told about. */
  predicate InRange(needles: seq<nat>, possible: nat) {
    forall i :: 0 <= i < |needles| ==> needles[i] < possible
  }

  ghost predicate AllInRange(needles: seq<seq<nat>>, possible: nat) {
    forall i :: 0 <= i < |needles| ==> InRange(needles[i], possible)
  }

  /** The outputs are stored with the references their needles stand for; other paths are as before. */
  ghost predicate PutFrom(infos: Infos, infos': Infos, outputs: seq<StorePath>, possible: seq<StorePath>,
                          needles: seq<seq<nat>>)
  {
    && infos'.Keys == infos.Keys + Elements(outputs)
    && (forall p {:trigger SameAt(infos, infos', p)} ::
          p in infos && p !in Elements(outputs) ==> SameAt(infos, infos', p))
    && (forall p {:trigger PutAt(infos', outputs, possible, needles, p)} ::
          p in Elements(outputs) ==> PutAt(infos', outputs, possible, needles, p))
  }

  ghost predicate SameAt(infos: Infos, infos': Infos, p: StorePath) {
    p in infos && p in infos' && infos'[p] == infos[p]
  }

  ghost predicate PutAt(infos: Infos, outputs: seq<StorePath>, possible: seq<StorePath>, needles: seq<seq<nat>>,
                        p: StorePath)
  {
    p in infos && exists i: nat :: LastAt(outputs, i, p) && i < |needles| && StandFor(infos[p], possible, needles[i])
  }

  /** The last position of the path, whose entry is the one that stays. */
  ghost predicate LastAt(outputs: seq<StorePath>, i: nat, p: StorePath) {
    i < |outputs| && outputs[i] == p && forall j :: i < j < |outputs| ==> outputs[j] != p
  }

  lemma PutNext(infos: Infos, infos': Infos, outputs: seq<StorePath>, possible: seq<StorePath>, needles: seq<seq<nat>>,
                n: nat)
    requires n < |outputs| && n < |needles| && PutFrom(infos, infos', outputs[..n], possible, needles[..n])
    ensures PutFrom(infos, infos'[outputs[n] := Named(possible, needles[n])],
                    outputs[..n + 1], possible, needles[..n + 1])
  {
    var infos'' := infos'[outputs[n] := Named(possible, needles[n])];
    ElementsSnoc(outputs[..n], outputs[n]);
    assert outputs[..n] + [outputs[n]] == outputs[..n + 1];
    var outs := outputs[..n + 1];
    forall p | p in infos && p !in Elements(outs) ensures SameAt(infos, infos'', p) {
      assert SameAt(infos, infos', p);
    }
    forall p | p in Elements(outs) ensures PutAt(infos'', outs, possible, needles[..n + 1], p) {
      if p == outputs[n] {
        assert LastAt(outs, n, p) && needles[..n + 1][n] == needles[n];
      } else {
        assert PutAt(infos', outputs[..n], possible, needles[..n], p);
        var i: nat :| LastAt(outputs[..n], i, p) && i < n && StandFor(infos'[p], possible, needles[..n][i]);
        assert LastAt(outs, i, p) && needles[..n + 1][i] == needles[i];
      }
    }
  }

  /** Stores the outputs one after the other, each with its entry of the answer, up to the first
      with a needle out of range or without an entry; what was stored before that one stays. */
  method PutAll(infos: Infos, outputs: seq<StorePath>, possible: seq<StorePath>, needles: seq<seq<nat>>)
    returns (infos': Infos, n: nat)
    ensures n <= |outputs| && n <= |needles| && PutFrom(infos, infos', outputs[..n], possible, needles[..n])
    ensures AllInRange(needles[..n], |possible|)
    ensures n < |outputs| && n < |needles| ==> !InRange(needles[n], |possible|)
  {
    infos', n := infos, 0;
    while n < |outputs| && n < |needles|
      invariant n <= |outputs| && n <= |needles| && PutFrom(infos, infos', outputs[..n], possible, needles[..n])
      invariant AllInRange(needles[..n], |possible|)
    {
      if !InRange(needles[n], |possible|) { return; }
      PutNext(infos, infos', outputs, possible, needles, n);
      infos' := infos'[outputs[n] := Named(possible, needles[n])];
      n := n + 1;
    }
  }

  /** An answer with fewer entries than outputs: the outputs without one are not stored, and the
      others may refer to them. */
  method ShortAnswer() returns (infos: Infos)
    ensures infos.Keys == {"a"} && !Closed(infos)
  {
    var n;
    infos, n := PutAll(map[], ["a", "b"], ["a", "b"], [[1]]);
    assert InRange([1], 2);
    assert n == 1;
    ElementsSnoc([], "a");
    assert [] + ["a"] == ["a"] == ["a", "b"][..1] && [[1]][..1] == [[1]] && Elements([]) == {};
    assert PutAt(infos, ["a"], ["a", "b"], [[1]], "a");
    assert [[1]][0] == [1] && [1][0] == 1 && ["a", "b"][1] == "b";
  }

  /** What is stored for the outputs refers to nothing beyond them and what was stored. */
  ghost predicate Complete(infos: Infos, outputs: seq<StorePath>, possible: seq<StorePath>, needles: seq<seq<nat>>) {
    forall i: nat {:trigger LastAt(outputs, i, outputs[i])} ::
      i < |outputs| && i < |needles| && LastAt(outputs, i, outputs[i]) ==>
        AllStored(infos.Keys + Elements(outputs), possible, needles[i])
  }

  /** What the needles stand for is stored. */
  ghost predicate AllStored(stored: set<StorePath>, possible: seq<StorePath>, needles: seq<nat>) {
    forall l :: 0 <= l < |needles| && needles[l] < |possible| ==> possible[needles[l]] in stored
  }

  lemma StandForStored(references: set<StorePath>, stored: set<StorePath>, possible: seq<StorePath>, needles: seq<nat>)
    requires StandFor(references, possible, needles)
    ensures references <= stored <==> AllStored(stored, possible, needles)
  {
  }

  /** Storing outputs keeps the store closed exactly if what they refer to is there. */
  lemma PutClosed(infos: Infos, infos': Infos, outputs: seq<StorePath>, possible: seq<StorePath>,
                  needles: seq<seq<nat>>)
    requires PutFrom(infos, infos', outputs, possible, needles) && |needles| == |outputs| && Closed(infos)
    ensures Closed(infos') <==> Complete(infos, outputs, possible, needles)
  {
    if Complete(infos, outputs, possible, needles) {
      forall p | p in infos' ensures infos'[p] <= infos'.Keys {
        if p in Elements(outputs) {
          assert PutAt(infos', outputs, possible, needles, p);
          var i: nat :| LastAt(outputs, i, p) && i < |needles| && StandFor(infos'[p], possible, needles[i]);
          assert LastAt(outputs, i, outputs[i]);
          StandForStored(infos'[p], infos'.Keys, possible, needles[i]);
        } else {
          assert SameAt(infos, infos', p);
        }
      }
    }
    if Closed(infos') {
      forall i: nat | i < |outputs| && LastAt(outputs, i, outputs[i])
        ensures AllStored(infos.Keys + Elements(outputs), possible, needles[i])
      {
        var p := outputs[i];
        assert p in Elements(outputs) && PutAt(infos', outputs, possible, needles, p);
        var k: nat :| LastAt(outputs, k, p) && k < |needles| && StandFor(infos'[p], possible, needles[k]);
        assert k == i;
        StandForStored(infos'[p], infos'.Keys, possible, needles[i]);
      }
    }
  }

  // ------------------------------------------------------- what a derivation may need

  /** A chain of references from a path named directly. */
  ghost predicate Chain(start: Infos, direct: set<StorePath>, c: seq<StorePath>) {
    && c != [] && c[0] in direct
    && forall i {:trigger ReferenceAt(start, c, i)} :: 0 < i < |c| ==> ReferenceAt(start, c, i)
  }

  ghost predicate ReferenceAt(start: Infos, c: seq<StorePath>, i: int) {
    0 < i < |c| && Refers(start, c[i - 1], c[i])
  }

  ghost predicate Refers(start: Infos, p: StorePath, q: StorePath) {
    p in start && q in start[p]
  }

  /** The path is named directly or, through references of stored paths, indirectly. */
  ghost predicate Reach(start: Infos, direct: set<StorePath>, p: StorePath) {
    exists c :: Chain(start, direct, c) && c[|c| - 1] == p
  }

  lemma ReachDirect(start: Infos, direct: set<StorePath>, p: StorePath)
    requires p in direct
    ensures Reach(start, direct, p)
  {
    assert Chain(start, direct, [p]) && [p][|[p]| - 1] == p;
  }

  lemma ReachStep(start: Infos, direct: set<StorePath>, p: StorePath, q: StorePath)
    requires Reach(start, direct, p) && p in start && q in start[p]
    ensures Reach(start, direct, q)
  {
    var c :| Chain(start, direct, c) && c[|c| - 1] == p;
    var c' := c + [q];
    forall i | 0 < i < |c'| ensures ReferenceAt(start, c', i) {
      if i < |c| { assert ReferenceAt(start, c, i); }
    }
    assert Chain(start, direct, c') && c'[|c'| - 1] == q;
  }

  /** What is reached is named directly or a reference of a stored path. */
  lemma ReachFrom(start: Infos, direct: set<StorePath>, p: StorePath)
    requires Reach(start, direct, p)
    ensures p in direct || exists q :: q in start && p in start[q]
  {
    var c :| Chain(start, direct, c) && c[|c| - 1] == p;
    if |c| > 1 { assert ReferenceAt(start, c, |c| - 1); }
  }

  /** The paths of `whole` and all they refer to are stored; the others are as at the start. */
  ghost predicate Growing(start: Infos, infos: Infos, whole: set<StorePath>) {
    && start.Keys <= infos.Keys && whole <= infos.Keys
    && (forall p {:trigger WholeAt(infos, whole, p)} :: p in whole ==> WholeAt(infos, whole, p))
    && (forall p {:trigger SameAt(start, infos, p)} :: p in infos && p !in whole ==> SameAt(start, infos, p))
  }

  ghost predicate WholeAt(infos: Infos, whole: set<StorePath>, p: StorePath) {
    p in infos && infos[p] <= whole
  }

  /** Whatever was not stored at the start, or was stored anew, has its references stored. */
  ghost predicate Sound(start: Infos, infos: Infos) {
    && start.Keys <= infos.Keys
    && forall p :: p in infos && !(infos[p] <= infos.Keys) ==> p in start && infos[p] == start[p]
  }

  lemma GrowingSound(start: Infos, infos: Infos, whole: set<StorePath>)
    requires Growing(start, infos, whole)
    ensures Sound(start, infos) && (Closed(start) ==> Closed(infos))
  {
    forall p | p in infos ensures infos[p] <= infos.Keys || (p in start && infos[p] == start[p]) {
      if p in whole { assert WholeAt(infos, whole, p); } else { assert SameAt(start, infos, p); }
    }
  }

  /** What has been delivered is whole once everything it refers to has been delivered. */
  lemma GrowingDelivered(start: Infos, infos: Infos, whole: set<StorePath>, items: seq<Input>)
    requires Growing(start, infos, whole) && Carried(infos, whole, items) && Mentioned(items) <= Delivered(items)
    ensures Growing(start, infos, whole + Delivered(items))
  {
    var whole' := whole + Delivered(items);
    forall p | p in whole' ensures WholeAt(infos, whole', p) {
      if p in whole { assert WholeAt(infos, whole, p); } else { assert CarriedAt(infos, items, p); }
    }
    forall p | p in infos && p !in whole' ensures SameAt(start, infos, p) {
    }
  }

  /** What delivered paths refer to is whole or has been mentioned. */
  ghost predicate Carried(infos: Infos, whole: set<StorePath>, items: seq<Input>) {
    && Delivered(items) <= infos.Keys
    && forall p {:trigger CarriedAt(infos, items, p)} ::
         p in Delivered(items) && p !in whole ==> CarriedAt(infos, items, p)
  }

  ghost predicate CarriedAt(infos: Infos, items: seq<Input>, p: StorePath) {
    p in infos && infos[p] <= Mentioned(items)
  }

  /** Some stored paths and everything the store referred to at the start. */
  ghost function Mentionable(start: Infos, known: set<StorePath>): set<StorePath> {
    known + set p, r | p in start && r in start[p] :: r
  }

  lemma RefsMentionable(start: Infos, infos: Infos, whole: set<StorePath>, known: set<StorePath>, p: StorePath)
    requires Growing(start, infos, whole) && p in infos && infos.Keys <= known
    ensures infos[p] <= Mentionable(start, known)
  {
    if p in whole {
      assert WholeAt(infos, whole, p);
    } else {
      assert SameAt(start, infos, p);
      forall q | q in infos[p] ensures q in Mentionable(start, known) { assert p in start && q in start[p]; }
    }
  }

  lemma CarriedOn(start: Infos, infos: Infos, whole: set<StorePath>, infos': Infos, whole': set<StorePath>,
                  items: seq<Input>)
    requires Growing(start, infos, whole) && Growing(start, infos', whole')
    requires infos.Keys <= infos'.Keys && whole <= whole'
    requires Carried(infos, whole, items)
    ensures Carried(infos', whole', items)
  {
    forall p | p in Delivered(items) && p !in whole' ensures CarriedAt(infos', items, p) {
      assert CarriedAt(infos, items, p) && SameAt(start, infos, p) && SameAt(start, infos', p);
    }
  }

  lemma CarriedNext(infos: Infos, whole: set<StorePath>, items: seq<Input>, p: StorePath)
    requires Carried(infos, whole, items) && p in infos
    ensures Carried(infos, whole, items + [Input(p, infos[p])])
  {
    var items' := items + [Input(p, infos[p])];
    assert items'[..|items|] == items;
    forall q | q in Delivered(items') && q !in whole ensures CarriedAt(infos, items', q) {
      if q != p { assert CarriedAt(infos, items, q); }
    }
  }

  lemma GrowingFetched(start: Infos, infos: Infos, whole: set<StorePath>, p: StorePath)
    requires Growing(start, infos, whole) && p !in infos
    ensures Growing(start, infos[p := {}], whole + {p})
  {
    var infos', whole' := infos[p := {}], whole + {p};
    forall q | q in whole' ensures WholeAt(infos', whole', q) {
      if q != p { assert WholeAt(infos, whole, q); }
    }
    forall q | q in infos' && q !in whole' ensures SameAt(start, infos', q) {
      assert SameAt(start, infos, q);
    }
  }

  lemma GrowingBuilt(start: Infos, infos: Infos, whole: set<StorePath>, infos': Infos, outputs: seq<StorePath>,
                     possible: seq<StorePath>, needles: seq<seq<nat>>)
    requires Growing(start, infos, whole) && PutFrom(infos, infos', outputs, possible, needles)
    requires Elements(possible) <= whole + Elements(outputs)
    ensures Growing(start, infos', whole + Elements(outputs))
  {
    var whole' := whole + Elements(outputs);
    forall p | p in whole' ensures WholeAt(infos', whole', p) {
      if p in Elements(outputs) {
        assert PutAt(infos', outputs, possible, needles, p);
      } else {
        assert WholeAt(infos, whole, p) && SameAt(infos, infos', p);
      }
    }
    forall p | p in infos' && p !in whole' ensures SameAt(start, infos', p) {
      assert SameAt(infos, infos', p) && SameAt(start, infos, p);
    }
  }

  /** A build that ended at a needle out of range, after `n` outputs were stored. */
  datatype Broken = Broken(before: Infos, outputs: seq<StorePath>, possible: seq<StorePath>, needles: seq<seq<nat>>,
                           n: nat)
  {
    /** Where it left the store: the outputs before the first bad one are stored. */
    ghost predicate Left(infos: Infos) {
      && n < |outputs| == |needles|
      && AllInRange(needles[..n], |possible|) && !InRange(needles[n], |possible|)
      && PutFrom(before, infos, outputs[..n], possible, needles[..n])
    }

    /** Whether what was stored refers to stored paths only. */
    ghost predicate Harmless()
      requires n < |outputs| == |needles|
    {
      Complete(before, outputs[..n], possible, needles[..n])
    }
  }

  /** One part of a call: from `infos` and `whole` to `infos'` and `whole'`, or to a broken build. */
  ghost predicate Step(start: Infos, infos: Infos, whole: set<StorePath>, infos': Infos, whole': set<StorePath>,
                       broken: Option<Broken>, extra: set<StorePath>, tidy: bool)
  {
    && infos.Keys <= infos'.Keys <= infos.Keys + extra
    && match broken
       case None => Growing(start, infos', whole') && whole <= whole'
       case Some(b) => !tidy && b.Left(infos') && Sound(start, b.before)
  }

  lemma StepThen(start: Infos, a: Infos, v: set<StorePath>, b: Infos, w: set<StorePath>, c: Infos, x: set<StorePath>,
                 broken: Option<Broken>, extra: set<StorePath>, tidy: bool)
    requires Step(start, a, v, b, w, None, extra, tidy) && Step(start, b, w, c, x, broken, extra, tidy)
    ensures Step(start, a, v, c, x, broken, extra, tidy)
  {
  }

  lemma StepStay(start: Infos, infos: Infos, whole: set<StorePath>, extra: set<StorePath>, tidy: bool)
    requires Growing(start, infos, whole)
    ensures Step(start, infos, whole, infos, whole, None, extra, tidy)
  {
  }

  lemma StepFetched(start: Infos, infos: Infos, whole: set<StorePath>, p: StorePath, extra: set<StorePath>, tidy: bool)
    requires Growing(start, infos, whole) && p !in infos && p in extra
    ensures Step(start, infos, whole, infos[p := {}], whole + {p}, None, extra, tidy)
  {
    GrowingFetched(start, infos, whole, p);
  }

  lemma StepDelivered(start: Infos, infos: Infos, whole: set<StorePath>, items: seq<Input>, extra: set<StorePath>,
                      tidy: bool)
    requires Growing(start, infos, whole) && Carried(infos, whole, items) && Mentioned(items) <= Delivered(items)
    ensures Step(start, infos, whole, infos, whole + Delivered(items), None, extra, tidy)
  {
    GrowingDelivered(start, infos, whole, items);
  }

  lemma StepBuilt(start: Infos, infos: Infos, whole: set<StorePath>, infos': Infos, outputs: seq<StorePath>,
                  possible: seq<StorePath>, needles: seq<seq<nat>>, extra: set<StorePath>, tidy: bool)
    requires Growing(start, infos, whole) && PutFrom(infos, infos', outputs, possible, needles)
    requires Elements(possible) <= whole + Elements(outputs) && Elements(outputs) <= extra
    ensures Step(start, infos, whole, infos', whole + Elements(outputs), None, extra, tidy)
  {
    GrowingBuilt(start, infos, whole, infos', outputs, possible, needles);
  }

  lemma StepBroken(start: Infos, infos: Infos, whole: set<StorePath>, infos': Infos, b: Broken, extra: set<StorePath>,
                   tidy: bool)
    requires Growing(start, infos, whole) && b.before == infos && b.Left(infos') && Elements(b.outputs) <= extra
    requires tidy ==> AllInRange(b.needles, |b.possible|)
    ensures Step(start, infos, whole, infos', whole, Some(b), extra, tidy)
  {
    GrowingSound(start, infos, whole);
    assert Elements(b.outputs[..b.n]) <= Elements(b.outputs);
  }

  /** What a build leaves in the store. */
  datatype Stored = Stored(infos: Infos, broken: Option<Broken>)

  /** Stores the outputs of a finished build. */
  method StoreOutputs(infos: Infos, outputs: seq<StorePath>, possible: seq<StorePath>, needles: seq<seq<nat>>)
    returns (r: Stored)
    requires |needles| == |outputs|
    ensures r.broken.None? <==> AllInRange(needles, |possible|)
    ensures r.broken.None? ==> PutFrom(infos, r.infos, outputs, possible, needles)
    ensures r.broken.Some? ==> r.broken.value.Left(r.infos)
    ensures r.broken.Some? ==> r.broken.value == Broken(infos, outputs, possible, needles, r.broken.value.n)
  {
    var infos', n := PutAll(infos, outputs, possible, needles);
    if n < |outputs| {
      r := Stored(infos', Some(Broken(infos, outputs, possible, needles, n)));
    } else {
      assert outputs[..n] == outputs && needles[..n] == needles;
      r := Stored(infos', None);
    }
  }

  class State {
    // the tables of known paths, fixed while building
    ghost const h: Hasher
    ghost const rank: map<StorePath, nat>
    const t: Entries
    const byOutput: map<StorePath, StorePath>
    const fetches: map<StorePath, (string, nat)>

    const doBuild: (StorePath, seq<StorePath>) -> BuildOutcome  // the derivation, its resolved inputs
    const doFetch: StorePath -> bool
    const sorted: set<StorePath> -> seq<StorePath>  // the key order of the map of resolved inputs
    var infos: Infos

    // one call of `store_path_to_path_info`
    ghost var start: Infos              // what was stored at its beginning
    ghost var level: map<StorePath, nat>
    ghost var whole: set<StorePath>     // stored with all they refer to, directly or not
    ghost var built: seq<StorePath>     // the derivations handed to the build service, in order
    ghost var broken: Option<Broken>

    constructor (ghost hasher: Hasher, ghost ranks: map<StorePath, nat>, entries: Entries,
                 outs: map<StorePath, StorePath>, fetched: map<StorePath, (string, nat)>,
                 build: (StorePath, seq<StorePath>) -> BuildOutcome, fetch: StorePath -> bool,
                 order: set<StorePath> -> seq<StorePath>, stored: Infos)
      ensures h == hasher && rank == ranks && t == entries && byOutput == outs && fetches == fetched
      ensures doBuild == build && doFetch == fetch && sorted == order && infos == stored
      ensures start == stored && level == ranks && whole == {} && built == [] && broken == None
    {
      h, rank, t, byOutput, fetches := hasher, ranks, entries, outs, fetched;
      doBuild, doFetch, sorted, infos := build, fetch, order, stored;
      start, level, whole, built, broken := stored, ranks, {}, [], None;
    }

    /** What the build service says of the outputs of a derivation; what it says beyond them is
        dropped. */
    function Answer(d: StorePath, s: seq<StorePath>): BuildOutcome {
      if d in t then Zipped(doBuild(d, s), |t[d].1.outputs|) else doBuild(d, s)
    }

    /** The tables come from insertions of valid derivations, a finished build has an entry for
        every output, and sources are not outputs of known derivations. */
    ghost predicate Setting() {
      && Consistent(h, t, rank, byOutput)
      && (forall d {:trigger InputsHaveOutputs(t, t[d].1)} :: d in t ==> InputsHaveOutputs(t, t[d].1))
      && (forall d, s {:trigger Answer(d, s)} :: d in t && Answer(d, s).Built? ==>
            |Answer(d, s).needles| == |t[d].1.outputs|)
      && (forall s {:trigger sorted(s)} :: Elements(sorted(s)) == s)
      && (forall d {:trigger SourcesApart(d)} :: d in t ==> SourcesApart(d))
    }

    ghost predicate SourcesApart(d: StorePath)
      requires d in t
    {
      forall s :: s in t[d].1.inputSources ==> s !in byOutput
    }

    /** The paths a derivation names directly. */
    ghost function Direct(d: StorePath): set<StorePath>
      requires Setting() && d in t
    {
      assert InputsHaveOutputs(t, t[d].1);
      Elements(DirectInputs(t, t[d].1))
    }

    // ------------------------------------------------------------- when the recursion ends

    /** To build `d`, `e` has to be built for the path `p`. */
    ghost predicate NeedsFor(stored: Infos, d: StorePath, p: StorePath, e: StorePath)
      requires Setting() && d in t
    {
      && Reach(stored, Direct(d), p)
      && p !in stored && p !in fetches && p in byOutput && byOutput[p] == e
    }

    ghost predicate Needs(stored: Infos, d: StorePath, e: StorePath)
      requires Setting()
    {
      d in t && exists p :: NeedsFor(stored, d, p, e)
    }

    /** Whatever has to be built for a derivation with a level has a lower one. */
    ghost predicate Grounded(stored: Infos, levels: map<StorePath, nat>)
      requires Setting()
    {
      && levels.Keys <= t.Keys
      && forall d, e {:trigger Needs(stored, d, e)} ::
           d in levels && Needs(stored, d, e) ==> e in levels && levels[e] < levels[d]
    }

    lemma NeedsKnown(stored: Infos, d: StorePath, e: StorePath)
      requires Setting() && Needs(stored, d, e)
      ensures d in t && e in t
    {
      var p :| NeedsFor(stored, d, p, e);
      assert KnownPaths.Leads(t, byOutput, p);
    }

    /** The inputs of a derivation come strictly before it: the output map may point
        to another derivation with the same output, but only to an earlier one. */
    lemma InputBelow(d: StorePath, i: StorePath, o: StorePath)
      requires Setting() && d in t && i in InputPaths(t[d].1)
      requires i in t && o in OutputPaths(t[i].1)
      ensures o in byOutput && byOutput[o] in rank && rank[byOutput[o]] < rank[d]
    {
      assert InputsBefore(t, rank, d);
      assert Earliest(t, rank, byOutput, i);
    }

    /** What is named directly is a source or the output of an earlier derivation. */
    lemma DirectBelow(d: StorePath, p: StorePath)
      requires Setting() && d in t && p in Direct(d)
      ensures p in t[d].1.inputSources || p in byOutput
      ensures p in byOutput ==> byOutput[p] in rank && rank[byOutput[p]] < rank[d]
    {
      assert InputsHaveOutputs(t, t[d].1) && SourcesApart(d);
      if p !in t[d].1.inputSources {
        assert p in InputOutputs(t, t[d].1, |t[d].1.inputDrvs|);
        var i, j := InputOutputsOnly(t, t[d].1, |t[d].1.inputDrvs|, p);
        InputBelow(d, t[d].1.inputDrvs[i].0, p);
      }
    }

    /** With a closed store the order of insertion is such a level. */
    lemma ClosedGrounded(stored: Infos)
      requires Setting() && Closed(stored)
      ensures Grounded(stored, rank) && rank.Keys == t.Keys
    {
      forall d, e | Needs(stored, d, e) ensures e in rank && rank[e] < rank[d] {
        NeedsKnown(stored, d, e);
        var p :| NeedsFor(stored, d, p, e);
        ReachFrom(stored, Direct(d), p);
        DirectBelow(d, p);
      }
    }

    /** Derivations each of which needs the next. */
    ghost predicate NeedChain(stored: Infos, c: seq<StorePath>)
      requires Setting()
    {
      forall i {:trigger NeedAt(stored, c, i)} :: 0 < i < |c| ==> NeedAt(stored, c, i)
    }

    ghost predicate NeedAt(stored: Infos, c: seq<StorePath>, i: int)
      requires Setting()
    {
      0 < i < |c| && Needs(stored, c[i - 1], c[i])
    }

    /** The derivation needs, directly or not, one that needs itself. */
    ghost predicate Circular(stored: Infos, d: StorePath)
      requires Setting()
    {
      exists c, i :: Loops(stored, d, c, i)
    }

    /** A chain of needs from `d` that comes back to where it was at `i`. */
    ghost predicate Loops(stored: Infos, d: StorePath, c: seq<StorePath>, i: nat)
      requires Setting()
    {
      i < |c| - 1 && NeedChain(stored, c) && c[0] == d && c[i] == c[|c| - 1]
    }

    lemma {:induction false} LevelsFall(stored: Infos, levels: map<StorePath, nat>, c: seq<StorePath>, i: nat)
      requires Setting() && Grounded(stored, levels) && i < |c| - 1 && NeedChain(stored, c) && c[0] in levels
      ensures c[i] in levels && c[|c| - 1] in levels && levels[c[|c| - 1]] < levels[c[i]]
      decreases |c|
    {
      assert NeedAt(stored, c, 1);
      if |c| > 2 {
        SubChain(stored, c, 1, |c|);
        assert c[1..|c|] == c[1..];
        LevelsFall(stored, levels, c[1..], if i == 0 then 0 else i - 1);
      }
    }

    /** Nothing needed, directly or not, is more than `n` steps away. */
    ghost predicate Within(stored: Infos, d: StorePath, n: nat)
      requires Setting()
      decreases n
    {
      n > 0 && forall e {:trigger Needs(stored, d, e)} :: Needs(stored, d, e) ==> Within(stored, e, n - 1)
    }

    lemma {:induction false} WithinMore(stored: Infos, d: StorePath, m: nat, n: nat)
      requires Setting() && m <= n && Within(stored, d, m)
      ensures Within(stored, d, n)
      decreases m
    {
      forall e | Needs(stored, d, e) ensures Within(stored, e, n - 1) {
        WithinMore(stored, e, m - 1, n - 1);
      }
    }

    lemma ChainCons(stored: Infos, d: StorePath, c: seq<StorePath>)
      requires Setting() && NeedChain(stored, c) && c != [] && Needs(stored, d, c[0])
      ensures NeedChain(stored, [d] + c)
    {
      var c' := [d] + c;
      forall i | 0 < i < |c'| ensures NeedAt(stored, c', i) {
        if i > 1 { assert NeedAt(stored, c, i - 1); }
      }
    }

    /** Otherwise there is a chain of that many needs. */
    lemma {:induction false} LongChain(stored: Infos, d: StorePath, n: nat) returns (c: seq<StorePath>)
      requires Setting() && d in t && !Within(stored, d, n)
      ensures |c| == n + 1 && c[0] == d && NeedChain(stored, c) && forall i :: 0 <= i < |c| ==> c[i] in t
      decreases n
    {
      c := [d];
      if n > 0 {
        var e :| Needs(stored, d, e) && !Within(stored, e, n - 1);
        NeedsKnown(stored, d, e);
        var rest := LongChain(stored, e, n - 1);
        ChainCons(stored, d, rest);
        c := [d] + rest;
      }
    }

    lemma {:induction false} DistinctFits(c: seq<StorePath>, s: set<StorePath>)
      requires NoRepeat(c) && forall i :: 0 <= i < |c| ==> c[i] in s
      ensures |c| <= |s|
      decreases |c|
    {
      if c != [] { DistinctFits(c[1..], s - {c[0]}); }
    }

    lemma SubChain(stored: Infos, c: seq<StorePath>, i: nat, j: nat)
      requires Setting() && NeedChain(stored, c) && i <= j <= |c|
      ensures NeedChain(stored, c[i..j])
    {
      var part := c[i..j];
      forall k | 0 < k < |part| ensures NeedAt(stored, part, k) {
        assert NeedAt(stored, c, i + k);
      }
    }

    lemma RepeatCircular(stored: Infos, c: seq<StorePath>, i: nat, j: nat)
      requires Setting() && NeedChain(stored, c) && i < j < |c| && c[i] == c[j]
      ensures Circular(stored, c[0])
    {
      SubChain(stored, c, 0, j + 1);
      assert Loops(stored, c[0], c[0..j + 1], i);
    }

    lemma AcyclicWithin(stored: Infos, d: StorePath)
      requires Setting() && d in t && !Circular(stored, d)
      ensures Within(stored, d, |t|)
    {
      if !Within(stored, d, |t|) {
        var c := LongChain(stored, d, |t|);
        if NoRepeat(c) {
          DistinctFits(c, t.Keys);
        } else {
          var i: nat, j: nat :| i < j < |c| && c[i] == c[j];
          RepeatCircular(stored, c, i, j);
        }
      }
    }

    /** The least number of steps that suffices. */
    ghost function Height(stored: Infos, d: StorePath, n: nat): (m: nat)
      requires Setting() && Within(stored, d, n)
      ensures m <= n && Within(stored, d, m) && (m > 0 ==> !Within(stored, d, m - 1))
    {
      if n > 0 && Within(stored, d, n - 1) then Height(stored, d, n - 1) else n
    }

    lemma HeightFalls(stored: Infos, d: StorePath, e: StorePath, n: nat)
      requires Setting() && Needs(stored, d, e) && Within(stored, d, n) && Within(stored, e, n)
      ensures Height(stored, e, n) < Height(stored, d, n)
    {
      var m := Height(stored, d, n);
      assert Within(stored, e, m - 1);
    }

    lemma ChainJoin(stored: Infos, a: seq<StorePath>, b: seq<StorePath>)
      requires Setting() && NeedChain(stored, a) && NeedChain(stored, b) && a != [] && b != [] && a[|a| - 1] == b[0]
      ensures NeedChain(stored, a + b[1..])
    {
      var c := a + b[1..];
      forall i | 0 < i < |c| ensures NeedAt(stored, c, i) {
        if i < |a| { assert NeedAt(stored, a, i); } else { assert NeedAt(stored, b, i - |a| + 1); }
      }
    }

    /** Goes round a loop until the chain is long enough. */
    lemma {:induction false} GoRound(stored: Infos, c: seq<StorePath>, loop: seq<StorePath>, n: nat)
      returns (c': seq<StorePath>)
      requires Setting() && NeedChain(stored, c) && NeedChain(stored, loop) && c != [] && |loop| > 1
      requires c[|c| - 1] == loop[0] == loop[|loop| - 1]
      ensures |c'| > n && NeedChain(stored, c') && c'[0] == c[0]
      decreases n - |c|
    {
      c' := c;
      if |c| <= n {
        ChainJoin(stored, c, loop);
        c' := GoRound(stored, c + loop[1..], loop, n);
      }
    }

    /** If one of them needs itself, the derivations that have to be built first have no end. */
    lemma Endless(stored: Infos, d: StorePath, n: nat) returns (c: seq<StorePath>)
      requires Setting() && Circular(stored, d)
      ensures |c| > n && NeedChain(stored, c) && c[0] == d
    {
      var c0, i: nat :| Loops(stored, d, c0, i);
      SubChain(stored, c0, i, |c0|);
      c := GoRound(stored, c0, c0[i..|c0|], n);
    }

    /** There are levels down from a derivation exactly if nothing it needs, directly or not,
        needs itself. */
    lemma GroundedIff(stored: Infos, d: StorePath)
      requires Setting() && d in t
      ensures (exists levels :: d in levels && Grounded(stored, levels)) <==> !Circular(stored, d)
    {
      if levels :| d in levels && Grounded(stored, levels) {
        forall c, i | Loops(stored, d, c, i) ensures false {
          LevelsFall(stored, levels, c, i);
        }
      }
      if !Circular(stored, d) {
        AcyclicWithin(stored, d);
        var levels := HeightLevels(stored);
      }
    }

    lemma HeightLevels(stored: Infos) returns (levels: map<StorePath, nat>)
      requires Setting()
      ensures Grounded(stored, levels) && forall d :: d in t && Within(stored, d, |t|) ==> d in levels
    {
      levels := map d | d in t && Within(stored, d, |t|) :: Height(stored, d, |t|);
      forall d, e | d in levels && Needs(stored, d, e) ensures e in levels && levels[e] < levels[d] {
        NeedsKnown(stored, d, e);
        WithinMore(stored, e, |t| - 1, |t|);
        HeightFalls(stored, d, e, |t|);
      }
    }

    // --------------------------------------------------------------- what can be expected

    ghost predicate SourcesAtHand(stored: set<StorePath>, d: StorePath)
      requires d in t
    {
      forall s :: s in t[d].1.inputSources ==> s in stored || s in fetches
    }

    /** Sources and references are stored, or some table has an answer for them. */
    ghost predicate AtHand(stored: Infos) {
      && (forall d {:trigger SourcesAtHand(stored.Keys, d)} :: d in t ==> SourcesAtHand(stored.Keys, d))
      && forall p, q {:trigger Refers(stored, p, q)} ::
           Refers(stored, p, q) ==> q in stored || q in fetches || q in byOutput
    }

    /** The needles found by builds are positions of paths they were told about. */
    ghost predicate Tidy() {
      forall d, s {:trigger Answer(d, s)} :: d in t && Answer(d, s).Built? ==>
        AllInRange(Answer(d, s).needles, |t[d].1.outputs| + |s|)
    }

    /** Builds and fetches succeed. */
    ghost predicate Willing() {
      && (forall d, s {:trigger Answer(d, s)} :: Answer(d, s).Built?)
      && (forall p {:trigger doFetch(p)} :: doFetch(p))
    }

    /** Nothing the environment is asked for is missing or fails, apart from needles out of range. */
    ghost predicate Supported(stored: Infos) {
      Willing() && AtHand(stored)
    }

    /** Whether some table has an answer for the path. */
    ghost predicate Obtainable(path: StorePath)
      reads this
    {
      path in infos || path in fetches || path in byOutput
    }

    /** What a derivation reaches can be had. */
    lemma ReachAtHand(stored: Infos, d: StorePath, p: StorePath)
      requires Setting() && d in t && AtHand(stored) && Reach(stored, Direct(d), p)
      ensures p in stored || p in fetches || p in byOutput
    {
      ReachFrom(stored, Direct(d), p);
      if p in Direct(d) {
        DirectBelow(d, p);
        assert SourcesAtHand(stored.Keys, d);
      } else {
        var q :| q in stored && p in stored[q];
        assert Refers(stored, q, p);
      }
    }

    /** No derivation was built twice; what was built is stored, and what is stored beyond
        `from` was fetched or built. */
    ghost predicate LogOk(from: set<StorePath>, stored: set<StorePath>, log: seq<StorePath>) {
      && NoRepeat(log)
      && (forall d {:trigger BuiltStored(stored, d)} :: d in log ==> BuiltStored(stored, d))
      && forall p {:trigger BuiltFor(log, p)} :: p in stored ==> p in from || p in fetches || BuiltFor(log, p)
    }

    ghost predicate BuiltFor(log: seq<StorePath>, p: StorePath) {
      exists d :: d in log && d in t && p in OutputPaths(t[d].1)
    }

    ghost predicate BuiltStored(stored: set<StorePath>, d: StorePath) {
      d in t && OutputPaths(t[d].1) <= stored
    }

    /** A fetched path is stored. */
    lemma LogFetched(from: set<StorePath>, stored: set<StorePath>, p: StorePath, log: seq<StorePath>)
      requires LogOk(from, stored, log) && p in fetches
      ensures LogOk(from, stored + {p}, log)
    {
      forall d | d in log ensures BuiltStored(stored + {p}, d) { assert BuiltStored(stored, d); }
    }

    /** The outputs of a derivation are stored. */
    lemma LogNext(from: set<StorePath>, stored: set<StorePath>, log: seq<StorePath>, d: StorePath)
      requires LogOk(from, stored, log) && d in t && d !in log
      ensures LogOk(from, stored + OutputPaths(t[d].1), log + [d])
    {
      var stored', log' := stored + OutputPaths(t[d].1), log + [d];
      NoRepeatSnoc(log, d);
      forall e | e in log' ensures BuiltStored(stored', e) {
        if e != d { assert BuiltStored(stored, e); }
      }
      forall p | p in stored' && p !in from && p !in fetches ensures BuiltFor(log', p) {
        if p in stored { assert BuiltFor(log, p); } else { assert d in log'; }
      }
    }

    /** Only derivations below level `n` were built since. */
    ghost predicate BuiltBelow(levels: map<StorePath, nat>, before: seq<StorePath>, after: seq<StorePath>, n: nat) {
      before <= after && forall i :: |before| <= i < |after| ==> after[i] in levels && levels[after[i]] < n
    }

    lemma BuiltThen(levels: map<StorePath, nat>, a: seq<StorePath>, b: seq<StorePath>, c: seq<StorePath>, n: nat)
      requires BuiltBelow(levels, a, b, n) && BuiltBelow(levels, b, c, n)
      ensures BuiltBelow(levels, a, c, n)
    {
      forall i | |a| <= i < |c| ensures c[i] in levels && levels[c[i]] < n {
        if i < |b| { assert c[i] == b[i]; }
      }
    }

    lemma BuiltNext(levels: map<StorePath, nat>, a: seq<StorePath>, b: seq<StorePath>, d: StorePath)
      requires d in levels && BuiltBelow(levels, a, b, levels[d])
      ensures BuiltBelow(levels, a, b, levels[d] + 1) && BuiltBelow(levels, a, b + [d], levels[d] + 1)
    {
    }

    /** A derivation whose output is missing was not built before, nor for its own inputs. */
    lemma NotBuiltYet(levels: map<StorePath, nat>, from: set<StorePath>, stored: set<StorePath>,
                      before: seq<StorePath>, after: seq<StorePath>, d: StorePath, path: StorePath)
      requires d in t && d in levels && LogOk(from, stored, before) && BuiltBelow(levels, before, after, levels[d])
      requires path in OutputPaths(t[d].1) && path !in stored
      ensures d !in after
    {
      forall i | 0 <= i < |after| ensures after[i] != d {
        if i < |before| { assert after[i] == before[i] && BuiltStored(stored, before[i]); }
      }
    }

    /** The resolved inputs as the build service gets them: in order, all stored, with all that
        the derivation names. */
    ghost predicate ResolvedInputs(stored: set<StorePath>, d: StorePath, s: seq<StorePath>) {
      Setting() && d in t && s == sorted(Elements(s)) && Direct(d) <= Elements(s) <= stored
    }

    /** The record is that of the answer to building `d` with the resolved inputs `s`. */
    ghost predicate AnsweredBy(b: Broken, d: StorePath, s: seq<StorePath>) {
      && d in t && b.outputs == OutputList(t[d].1) && b.possible == b.outputs + s
      && ResolvedInputs(b.before.Keys, d, s) && Answer(d, s) == Built(b.needles)
    }

    ghost predicate AnswerTo(b: Broken, d: StorePath) {
      exists s :: AnsweredBy(b, d, s)
    }

    /** The broken build is the last one handed to the build service, and what was stored
        before it was there from the beginning, fetched or built. */
    ghost predicate Answered(from: set<StorePath>, b: Broken, log: seq<StorePath>) {
      && log != [] && AnswerTo(b, log[|log| - 1])
      && LogOk(from, b.before.Keys, log[..|log| - 1])
    }

    /** The path is stored with what the answer to building `d` with the resolved inputs `s` names. */
    ghost predicate BuiltFrom(stored: Infos, d: StorePath, s: seq<StorePath>, path: StorePath) {
      && ResolvedInputs(stored.Keys, d, s) && Answer(d, s).Built?
      && AllInRange(Answer(d, s).needles, |t[d].1.outputs| + |s|)
      && PutAt(stored, OutputList(t[d].1), OutputList(t[d].1) + s, Answer(d, s).needles, path)
    }

    ghost predicate BuiltBy(stored: Infos, d: StorePath, path: StorePath) {
      exists s :: BuiltFrom(stored, d, s, path)
    }

    // ------------------------------------------------------------------------- the calls

    /** The call is under way and nothing has gone wrong. */
    ghost predicate Going()
      reads this
    {
      Setting() && Grounded(start, level) && Growing(start, infos, whole) && broken.None?
    }

    /** The call has failed: a build was broken, or else something was not there or failed. */
    ghost predicate Failing()
      reads this
    {
      && (broken.Some? ==> Answered(start.Keys, broken.value, built))
      && (Supported(start) ==> broken.Some?)
    }

    /** The outputs and fetches of the tables. */
    ghost function Known(): set<StorePath> {
      byOutput.Keys + fetches.Keys
    }

    /** Producing the path needs at most derivations below level `n`. */
    ghost predicate Below(stored: set<StorePath>, levels: map<StorePath, nat>, path: StorePath, n: nat) {
      path in stored || path in fetches || (path in byOutput ==> byOutput[path] in levels && levels[byOutput[path]] < n)
    }

    /** Where a path comes from: it was stored before, is fetched, or was built. */
    ghost predicate HadFrom(before: set<StorePath>, stored: Infos, path: StorePath) {
      path in before || path in fetches || (path in byOutput && BuiltBy(stored, byOutput[path], path))
    }

    /** Queued paths are whole or reached from the derivation. */
    ghost predicate Queued(d: StorePath, queue: set<StorePath>)
      requires Setting() && d in t
      reads this
    {
      forall p {:trigger Reach(start, Direct(d), p)} :: p in queue ==> p in whole || Reach(start, Direct(d), p)
    }

    lemma QueuedBelow(d: StorePath, queue: set<StorePath>, p: StorePath)
      requires Going() && d in t && d in level && Queued(d, queue) && p in queue
      ensures Below(infos.Keys, level, p, level[d])
      ensures AtHand(start) ==> Obtainable(p)
    {
      if p in whole {
        assert WholeAt(infos, whole, p);
      } else {
        assert Reach(start, Direct(d), p);
        if AtHand(start) { ReachAtHand(start, d, p); }
        if p !in infos && p !in fetches && p in byOutput {
          assert NeedsFor(start, d, p, byOutput[p]);
          assert Needs(start, d, byOutput[p]);
        }
      }
    }

    /** The references of a path that is now stored may be queued. */
    lemma RefsQueued(d: StorePath, p: StorePath)
      requires Going() && d in t && p in infos && (p in whole || Reach(start, Direct(d), p))
      ensures Queued(d, infos[p])
    {
      if p in whole {
        assert WholeAt(infos, whole, p);
      } else {
        assert SameAt(start, infos, p);
        forall q | q in infos[p] ensures Reach(start, Direct(d), q) {
          ReachStep(start, Direct(d), p, q);
        }
      }
    }

    lemma QueuedBoth(d: StorePath, a: set<StorePath>, b: set<StorePath>)
      requires Setting() && d in t && Queued(d, a) && Queued(d, b)
      ensures forall c :: c <= a + b ==> Queued(d, c)
    {
    }

    /** The items are the closure under references of the paths named directly: nothing is
        missing, nothing is there without having been named, and all of it is stored. */
    ghost predicate Resolved(d: StorePath, items: seq<Input>)
      requires Setting() && d in t
      reads this
    {
      Direct(d) + Mentioned(items) <= Delivered(items) <= infos.Keys && Traced(Direct(d), items)
    }

    /** The inputs of `d` are being collected since the store was `from`. */
    ghost predicate Collecting(d: StorePath, items: seq<Input>, queue: seq<StorePath>, visited: set<StorePath>,
                               u: set<StorePath>, from: Infos, held: set<StorePath>, log: seq<StorePath>)
      requires Setting() && d in t
      reads this
    {
      && broken.None? && d in level
      && Step(start, from, held, infos, whole, None, Known(), Tidy())
      && LogOk(start.Keys, infos.Keys, built) && BuiltBelow(level, log, built, level[d])
      && visited <= u == Mentionable(start, from.Keys + Known()) && Carried(infos, whole, items)
      && Queued(d, Elements(queue)) && Tracked(Direct(d), Elements(queue), visited, items)
    }

    /** One iteration of `get_all_inputs`. */
    method NextInput(d: StorePath, items: seq<Input>, queue: seq<StorePath>, visited: set<StorePath>,
                     ghost u: set<StorePath>, ghost from: Infos, ghost held: set<StorePath>, ghost log: seq<StorePath>)
      returns (ok: bool, items': seq<Input>, queue': seq<StorePath>, visited': set<StorePath>)
      requires Setting() && Grounded(start, level) && d in t
      requires Collecting(d, items, queue, visited, u, from, held, log) && queue != []
      modifies this`infos, this`whole, this`built, this`broken
      ensures ok ==> Collecting(d, items', queue', visited', u, from, held, log)
      ensures ok ==> |u - visited'| < |u - visited| || (|u - visited'| == |u - visited| && |queue'| < |queue|)
      ensures !ok ==> Step(start, from, held, infos, whole, broken, Known(), Tidy())
      ensures !ok ==> NoRepeat(built) && BuiltBelow(level, log, built, level[d]) && Failing()
      decreases level[d], 1
    {
      items', queue', visited' := items, queue, visited;
      var p := queue[0];
      ElementsTail(queue);
      QueuedBelow(d, Elements(queue), p);
      ghost var infos0, whole0, log0 := infos, whole, built;
      var info := Resolve(p, level[d]);
      StepThen(start, from, held, infos0, whole0, infos, whole, broken, Known(), Tidy());
      BuiltThen(level, log, log0, built, level[d]);
      if !info.Info? { return false, items', queue', visited'; }
      CarriedOn(start, infos0, whole0, infos, whole, items);
      CarriedNext(infos, whole, items, p);
      RefsQueued(d, p);
      RefsMentionable(start, infos, whole, from.Keys + Known(), p);
      QueuedBoth(d, Elements(queue), infos[p]);
      FewerLeft(u, visited, visited + info.references);
      queue', visited', items' := Advance(queue, visited, items, info.references, sorted(info.references), Direct(d));
      ok := true;
    }

    lemma CollectingStarts(d: StorePath)
      requires Going() && d in t && d in level && LogOk(start.Keys, infos.Keys, built) && InputsHaveOutputs(t, t[d].1)
      ensures Collecting(d, [], DirectInputs(t, t[d].1), {}, Mentionable(start, infos.Keys + Known()),
                         infos, whole, built)
    {
      forall p | p in Direct(d) ensures Reach(start, Direct(d), p) { ReachDirect(start, Direct(d), p); }
      StepStay(start, infos, whole, Known(), Tidy());
    }

    /** The loop of `get_all_inputs`. */
    method Collect(d: StorePath, ghost u: set<StorePath>) returns (ok: bool, items: seq<Input>, visited: set<StorePath>)
      requires Going() && d in t && d in level && LogOk(start.Keys, infos.Keys, built)
      requires u == Mentionable(start, infos.Keys + Known())
      modifies this`infos, this`whole, this`built, this`broken
      ensures ok ==> Collecting(d, items, [], visited, u, old(infos), old(whole), old(built))
      ensures !ok ==> Step(start, old(infos), old(whole), infos, whole, broken, Known(), Tidy())
      ensures !ok ==> NoRepeat(built) && BuiltBelow(level, old(built), built, level[d]) && Failing()
      decreases level[d], 2
    {
      assert InputsHaveOutputs(t, t[d].1);
      var queue := DirectInputs(t, t[d].1);
      ok, items, visited := true, [], {};
      CollectingStarts(d);
      while queue != []
        invariant ok && Collecting(d, items, queue, visited, u, old(infos), old(whole), old(built))
        decreases |u - visited|, |queue|
      {
        ok, items, queue, visited := NextInput(d, items, queue, visited, u, old(infos), old(whole), old(built));
        if !ok { return; }
      }
    }

    /** With nothing queued, what was delivered is the closure. */
    lemma CollectingEnds(d: StorePath, items: seq<Input>, visited: set<StorePath>, u: set<StorePath>,
                         from: Infos, held: set<StorePath>, log: seq<StorePath>)
      requires Setting() && d in t && Collecting(d, items, [], visited, u, from, held, log)
      ensures Step(start, from, held, infos, whole + Delivered(items), None, Known(), Tidy())
      ensures Direct(d) + Mentioned(items) <= Delivered(items) <= infos.Keys && Traced(Direct(d), items)
    {
      assert Elements([]) == {};
      StepDelivered(start, infos, whole, items, Known(), Tidy());
      StepThen(start, from, held, infos, whole, infos, whole + Delivered(items), None, Known(), Tidy());
    }

    /** `get_all_inputs`: the transitive closure of a derivation's inputs, each of which
        is produced first. */
    method GetAllInputs(d: StorePath) returns (r: Option<seq<Input>>)
      requires Going() && d in t && d in level && LogOk(start.Keys, infos.Keys, built)
      modifies this`infos, this`whole, this`built, this`broken
      ensures Step(start, old(infos), old(whole), infos, whole, broken, Known(), Tidy())
      ensures r.Some? ==> broken.None? && LogOk(start.Keys, infos.Keys, built)
      ensures r.Some? ==> Resolved(d, r.value) && Delivered(r.value) <= whole
      ensures NoRepeat(built) && BuiltBelow(level, old(built), built, level[d])
      ensures r.None? ==> Failing()
      decreases level[d], 3
    {
      ghost var u := Mentionable(start, infos.Keys + Known());
      var ok, items, visited := Collect(d, u);
      if !ok { return None; }
      CollectingEnds(d, items, visited, u, old(infos), old(whole), old(built));
      whole := whole + Delivered(items);
      r := Some(items);
    }

    /** The recursion of `store_path_to_path_info`. */
    method Resolve(path: StorePath, ghost n: nat) returns (r: Outcome)
      requires Going() && Below(infos.Keys, level, path, n) && LogOk(start.Keys, infos.Keys, built)
      modifies this`infos, this`whole, this`built, this`broken
      ensures Step(start, old(infos), old(whole), infos, whole, broken, Known(), Tidy())
      ensures r != Error ==> broken.None? && LogOk(start.Keys, infos.Keys, built)
      ensures r.Info? ==> path in infos && infos[path] == r.references && (path in old(infos) || path in whole)
      ensures r.Info? ==> HadFrom(old(infos).Keys, infos, path)
      ensures path in old(infos) ==> r.Info? && infos == old(infos)
      ensures path !in old(infos) && path in fetches ==> r == if doFetch(path) then Info({}) else Error
      ensures r.NotKnown? <==> !old(Obtainable(path))
      ensures r.NotKnown? ==> infos == old(infos)
      ensures NoRepeat(built) && BuiltBelow(level, old(built), built, n)
      ensures r == Error ==> Failing()
      decreases n, 0
    {
      StepStay(start, infos, whole, Known(), Tidy());
      if path in infos { return Info(infos[path]); }
      if path in fetches {
        r := Fetch(path);
        return;
      }
      if path !in byOutput { return NotKnown; }
      r := Produce(path, byOutput[path]);
    }

    method Fetch(path: StorePath) returns (r: Outcome)
      requires Going() && path !in infos && path in fetches && LogOk(start.Keys, infos.Keys, built)
      modifies this`infos, this`whole
      ensures Step(start, old(infos), old(whole), infos, whole, None, Known(), Tidy())
      ensures r == if doFetch(path) then Info({}) else Error
      ensures if r.Info? then infos == old(infos)[path := {}] && path in whole else infos == old(infos)
      ensures LogOk(start.Keys, infos.Keys, built)
    {
      StepStay(start, infos, whole, Known(), Tidy());
      if !doFetch(path) { return Error; }
      StepFetched(start, infos, whole, path, Known(), Tidy());
      LogFetched(start.Keys, infos.Keys, path, built);
      assert infos[path := {}].Keys == infos.Keys + {path};
      infos, whole := infos[path := {}], whole + {path};
      r := Info({});
    }

    /** Produces the inputs of the derivation of a path, and then builds it. */
    method Produce(path: StorePath, d: StorePath) returns (r: Outcome)
      requires Going() && path !in infos && path in byOutput && byOutput[path] == d && d in level
      requires LogOk(start.Keys, infos.Keys, built)
      modifies this`infos, this`whole, this`built, this`broken
      ensures Step(start, old(infos), old(whole), infos, whole, broken, Known(), Tidy())
      ensures r.Info? || r == Error
      ensures r.Info? ==> broken.None? && path in infos && path in whole && infos[path] == r.references
      ensures r.Info? ==> BuiltBy(infos, d, path) && LogOk(start.Keys, infos.Keys, built)
      ensures NoRepeat(built) && BuiltBelow(level, old(built), built, level[d] + 1)
      ensures r == Error ==> Failing()
      decreases level[d], 4
    {
      assert KnownPaths.Leads(t, byOutput, path);
      var inputs := GetAllInputs(d);
      ghost var infos0, whole0 := infos, whole;
      if inputs.None? { return Error; }
      BuiltNext(level, old(built), built, d);
      NotBuiltYet(level, start.Keys, old(infos).Keys, old(built), built, d, path);
      r := Build(d, Delivered(inputs.value), path);
      StepThen(start, old(infos), old(whole), infos0, whole0, infos, whole, broken, Known(), Tidy());
    }

    /** The build itself, which stores every output with its references. A needle out of
        range ends it after the outputs before that one. */
    method Build(d: StorePath, inputs: set<StorePath>, path: StorePath) returns (r: Outcome)
      requires Going() && d in t && path in OutputPaths(t[d].1) && Direct(d) <= inputs <= whole
      requires LogOk(start.Keys, infos.Keys, built) && d !in built
      modifies this`infos, this`whole, this`built, this`broken
      ensures Step(start, old(infos), old(whole), infos, whole, broken, Known(), Tidy())
      ensures built == old(built) + [d] && NoRepeat(built)
      ensures var outcome := Answer(d, sorted(inputs));
              var outputs := OutputList(t[d].1);
              var possible := outputs + sorted(inputs);
              if outcome.Failed? then r == Error && infos == old(infos) && broken.None?
              else if AllInRange(outcome.needles, |possible|) then
                && r.Info? && path in infos && path in whole && infos[path] == r.references && broken.None?
                && PutFrom(old(infos), infos, outputs, possible, outcome.needles)
              else
                && r == Error && broken.Some? && broken.value.Left(infos)
                && broken.value == Broken(old(infos), outputs, possible, outcome.needles, broken.value.n)
      ensures r.Info? ==> BuiltBy(infos, d, path) && LogOk(start.Keys, infos.Keys, built)
      ensures r == Error ==> Failing()
    {
      ghost var log := built;
      NoRepeatSnoc(built, d);
      built := built + [d];
      var resolved := sorted(inputs);
      var outcome := Answer(d, resolved);
      if outcome.Failed? {
        StepStay(start, infos, whole, Known(), Tidy());
        return Error;
      }
      InputsStored(d, inputs);
      r := Record(d, resolved, outcome.needles, path, log);
    }

    /** Stores what the build service said of the outputs. */
    method Record(d: StorePath, resolved: seq<StorePath>, needles: seq<seq<nat>>, path: StorePath,
                  ghost log: seq<StorePath>)
      returns (r: Outcome)
      requires Going() && ResolvedInputs(infos.Keys, d, resolved) && Elements(resolved) <= whole
      requires Answer(d, resolved) == Built(needles) && path in OutputPaths(t[d].1)
      requires built == log + [d] && d !in log && LogOk(start.Keys, infos.Keys, log)
      modifies this`infos, this`whole, this`broken
      ensures Step(start, old(infos), old(whole), infos, whole, broken, Known(), Tidy())
      ensures var outputs := OutputList(t[d].1);
              var possible := outputs + resolved;
              if AllInRange(needles, |possible|) then
                && r.Info? && path in infos && path in whole && infos[path] == r.references && broken.None?
                && PutFrom(old(infos), infos, outputs, possible, needles)
              else
                && r == Error && broken.Some? && broken.value.Left(infos)
                && broken.value == Broken(old(infos), outputs, possible, needles, broken.value.n)
      ensures r.Info? ==> BuiltBy(infos, d, path) && LogOk(start.Keys, infos.Keys, built)
      ensures r == Error ==> Failing()
    {
      var outputs := OutputList(t[d].1);
      var possible := outputs + resolved;
      var stored := StoreOutputs(infos, outputs, possible, needles);
      broken := stored.broken;
      if stored.broken.Some? {
        EndsBroken(stored.infos, stored.broken.value, d, resolved, log);
        infos := stored.infos;
        return Error;
      }
      EndsBuilt(stored.infos, d, resolved, needles, log);
      PutBuilt(stored.infos, infos, d, resolved, needles, path);
      infos, whole := stored.infos, whole + Elements(outputs);
      r := Info(infos[path]);
    }

    lemma EndsBroken(stored: Infos, b: Broken, d: StorePath, s: seq<StorePath>, log: seq<StorePath>)
      requires Setting() && Growing(start, infos, whole) && b.before == infos && b.Left(stored) && AnsweredBy(b, d, s)
      requires LogOk(start.Keys, infos.Keys, log)
      ensures Step(start, infos, whole, stored, whole, Some(b), Known(), Tidy())
      ensures Answered(start.Keys, b, log + [d])
    {
      OutputsKnown(d);
      StepBroken(start, infos, whole, stored, b, Known(), Tidy());
      assert (log + [d])[..|log + [d]| - 1] == log;
    }

    lemma EndsBuilt(stored: Infos, d: StorePath, s: seq<StorePath>, needles: seq<seq<nat>>, log: seq<StorePath>)
      requires Setting() && Growing(start, infos, whole) && d in t && Elements(s) <= whole
      requires LogOk(start.Keys, infos.Keys, log) && d !in log
      requires PutFrom(infos, stored, OutputList(t[d].1), OutputList(t[d].1) + s, needles)
      ensures Step(start, infos, whole, stored, whole + OutputPaths(t[d].1), None, Known(), Tidy())
      ensures LogOk(start.Keys, stored.Keys, log + [d])
    {
      var outputs := OutputList(t[d].1);
      OutputsKnown(d);
      ElementsConcat(outputs, s);
      StepBuilt(start, infos, whole, stored, outputs, outputs + s, needles, Known(), Tidy());
      LogNext(start.Keys, infos.Keys, log, d);
    }

    lemma PutBuilt(stored: Infos, before: Infos, d: StorePath, s: seq<StorePath>, needles: seq<seq<nat>>,
                   path: StorePath)
      requires ResolvedInputs(before.Keys, d, s) && Answer(d, s) == Built(needles) && path in OutputPaths(t[d].1)
      requires AllInRange(needles, |t[d].1.outputs| + |s|)
      requires PutFrom(before, stored, OutputList(t[d].1), OutputList(t[d].1) + s, needles)
      ensures BuiltBy(stored, d, path)
    {
      assert PutAt(stored, OutputList(t[d].1), OutputList(t[d].1) + s, needles, path);
      assert BuiltFrom(stored, d, s, path);
    }

    lemma InputsStored(d: StorePath, inputs: set<StorePath>)
      requires Going() && d in t && Direct(d) <= inputs <= whole
      ensures ResolvedInputs(infos.Keys, d, sorted(inputs))
    {
    }

    lemma OutputsKnown(d: StorePath)
      requires Setting() && d in t
      ensures OutputPaths(t[d].1) <= Known()
    {
      assert Earliest(t, rank, byOutput, d);
    }

    /** What has to be built to produce the path has no end. */
    ghost predicate Unending(path: StorePath)
      requires Setting()
      reads this
    {
      path !in infos && path !in fetches && path in byOutput && Circular(infos, byOutput[path])
    }

    lemma ClosedEnds(path: StorePath)
      requires Setting() && Closed(infos)
      ensures !Unending(path)
    {
      if path in byOutput {
        assert KnownPaths.Leads(t, byOutput, path);
        ClosedGrounded(infos);
        GroundedIff(infos, byOutput[path]);
      }
    }

    /** Levels for everything the path needs. */
    lemma LevelsFor(path: StorePath) returns (levels: map<StorePath, nat>, n: nat)
      requires Setting() && !Unending(path)
      ensures Grounded(infos, levels)
      ensures Below(infos.Keys, levels, path, n)
    {
      levels, n := map[], 0;
      if path !in infos && path !in fetches && path in byOutput {
        assert KnownPaths.Leads(t, byOutput, path);
        GroundedIff(infos, byOutput[path]);
        levels :| byOutput[path] in levels && Grounded(infos, levels);
        n := levels[byOutput[path]] + 1;
      }
    }

    /** The end of a call: the store stays closed, or a broken build decides. */
    lemma StepEnds()
      requires Step(start, start, {}, infos, whole, broken, Known(), Tidy())
      ensures broken.None? ==> Sound(start, infos) && (Closed(start) ==> Closed(infos))
      ensures broken.Some? ==> !Tidy() && broken.value.Left(infos) && Sound(start, broken.value.before)
      ensures broken.Some? && Closed(start) ==> (Closed(infos) <==> broken.value.Harmless())
    {
      if broken.None? {
        GrowingSound(start, infos, whole);
      } else if Closed(start) {
        var b := broken.value;
        assert Closed(b.before);
        PutClosed(b.before, infos, b.outputs[..b.n], b.possible, b.needles[..b.n]);
      }
    }

    /** One of the outputs stored before the bad one refers to the output at `j`, which is not stored. */
    ghost predicate MissingLater(b: Broken, i: nat, j: nat)
      requires b.n < |b.outputs| == |b.needles|
    {
      && i < b.n <= j < |b.outputs| && LastAt(b.outputs[..b.n], i, b.outputs[i]) && j in b.needles[i]
      && b.outputs[j] !in b.before.Keys + Elements(b.outputs[..b.n])
    }

    ghost predicate Harmful(b: Broken)
      requires b.n < |b.outputs| == |b.needles|
    {
      exists i: nat, j: nat :: MissingLater(b, i, j)
    }

    /** A broken build does harm exactly if an output it stored refers to an output it did not
        get to and that was not stored before: nothing else the build was told about can be
        missing. */
    lemma HarmlessIff(b: Broken, d: StorePath)
      requires AnswerTo(b, d) && b.n < |b.outputs| == |b.needles|
      ensures b.Harmless() <==> !Harmful(b)
    {
      var s :| AnsweredBy(b, d, s);
      var outputs, needles := b.outputs[..b.n], b.needles[..b.n];
      if i: nat, j: nat :| MissingLater(b, i, j) {
        assert b.possible[j] == b.outputs[j] && LastAt(outputs, i, outputs[i]) && needles[i] == b.needles[i];
        var l :| 0 <= l < |needles[i]| && needles[i][l] == j;
      }
      if !Harmful(b) {
        forall i: nat | i < |outputs| && LastAt(outputs, i, outputs[i])
          ensures AllStored(b.before.Keys + Elements(outputs), b.possible, needles[i])
        {
          forall l | 0 <= l < |needles[i]| && needles[i][l] < |b.possible|
            ensures b.possible[needles[i][l]] in b.before.Keys + Elements(outputs)
          {
            NamedStored(b, d, s, i, needles[i][l]);
          }
        }
      }
    }

    lemma NamedStored(b: Broken, d: StorePath, s: seq<StorePath>, i: nat, j: nat)
      requires AnsweredBy(b, d, s) && b.n < |b.outputs| == |b.needles| && !MissingLater(b, i, j)
      requires i < b.n && LastAt(b.outputs[..b.n], i, b.outputs[i]) && j in b.needles[i] && j < |b.possible|
      ensures b.possible[j] in b.before.Keys + Elements(b.outputs[..b.n])
    {
      if j < b.n {
        assert b.possible[j] == b.outputs[..b.n][j];
      } else if j >= |b.outputs| {
        assert b.possible[j] == s[j - |b.outputs|];
      }
    }

    /** `store_path_to_path_info` on any path, unless something it needs needs itself. What is
        stored stays closed under references, except that a build with a needle out of range,
        which is an error, leaves it so exactly if no output stored before that one refers to an
        output that was not stored. No derivation is built twice, and a built path has the references that the build
        service named. */
    method StorePathToPathInfo(path: StorePath) returns (r: Outcome)
      requires Setting() && !Unending(path)
      modifies this
      ensures old(infos).Keys <= infos.Keys <= old(infos).Keys + Known()
      ensures broken.None? ==> Sound(old(infos), infos) && (Closed(old(infos)) ==> Closed(infos))
      ensures broken.Some? ==> r == Error && !Tidy() && broken.value.Left(infos)
      ensures broken.Some? ==> Answered(old(infos).Keys, broken.value, built) && Sound(old(infos), broken.value.before)
      ensures broken.Some? && Closed(old(infos)) ==> (Closed(infos) <==> !Harmful(broken.value))
      ensures r.Info? ==> path in infos && infos[path] == r.references
      ensures r.Info? ==> HadFrom(old(infos).Keys, infos, path)
      ensures path in old(infos) ==> r.Info? && infos == old(infos)
      ensures path !in old(infos) && path in fetches ==> r == if doFetch(path) then Info({}) else Error
      ensures r.NotKnown? <==> !old(Obtainable(path))
      ensures r.NotKnown? ==> infos == old(infos)
      ensures NoRepeat(built) && forall d :: d in built ==> d in t
      ensures r != Error ==> LogOk(old(infos).Keys, infos.Keys, built)
      ensures Supported(old(infos)) && r == Error ==> broken.Some?
      ensures Supported(old(infos)) && Tidy() ==> r != Error
    {
      ghost var levels, n := LevelsFor(path);
      r := Begin(path, levels, n);
      StepEnds();
      if broken.Some? { HarmlessIff(broken.value, built[|built| - 1]); }
    }

    /** Starts the recursion. */
    method Begin(path: StorePath, ghost levels: map<StorePath, nat>, ghost n: nat) returns (r: Outcome)
      requires Setting() && Grounded(infos, levels)
      requires Below(infos.Keys, levels, path, n)
      modifies this
      ensures start == old(infos) && Step(start, start, {}, infos, whole, broken, Known(), Tidy())
      ensures r != Error ==> broken.None? && LogOk(start.Keys, infos.Keys, built)
      ensures r == Error ==> Failing()
      ensures r.Info? ==> path in infos && infos[path] == r.references
      ensures r.Info? ==> HadFrom(old(infos).Keys, infos, path)
      ensures path in old(infos) ==> r.Info? && infos == old(infos)
      ensures path !in old(infos) && path in fetches ==> r == if doFetch(path) then Info({}) else Error
      ensures r.NotKnown? <==> !old(Obtainable(path))
      ensures r.NotKnown? ==> infos == old(infos)
      ensures NoRepeat(built) && forall d :: d in built ==> d in t
    {
      start, level, whole, built, broken := infos, levels, {}, [], None;
      r := Resolve(path, n);
      BuiltKnown(levels, built, n);
    }

    lemma BuiltKnown(levels: map<StorePath, nat>, log: seq<StorePath>, n: nat)
      requires BuiltBelow(levels, [], log, n) && levels.Keys <= t.Keys
      ensures forall d :: d in log ==> d in t
    {
      forall d | d in log ensures d in t {
        var i :| 0 <= i < |log| && log[i] == d;
      }
    }
  }

  /** A table with one derivation. */
  method OneDerivation(drv: Derivation) returns (table: Table)
    requires drv.inputDrvs == []
    ensures table.Valid() && table.derivations.Keys == {"drv"} && table.derivations["drv"].1 == drv
    ensures table.outputsToDrvPath.Keys == OutputPaths(drv) && table.outputsToFetches == map[]
    ensures forall o :: o in OutputPaths(drv) ==> table.outputsToDrvPath[o] == "drv"
    ensures fresh(table)
  {
    table := new Table((_, _) => 0);
    table.AddDerivation("drv", drv);
  }

  /** A stored source that refers to the missing output of a derivation with that source: to
      build the derivation its own output is needed first, and the recursion has no end. */
  method SelfNeeding(order: set<StorePath> -> seq<StorePath>) returns (s: State)
    requires forall x {:trigger order(x)} :: Elements(order(x)) == x
    ensures s.Setting() && s.Unending("o") && !Closed(s.infos)
  {
    var drv := Derivation([], ["src"], [("out", "o")]);
    var table := OneDerivation(drv);
    s := new State(table.h, table.rank, table.derivations, table.outputsToDrvPath, map[],
                   (_, _) => Failed, _ => false, order, map["src" := {"o"}]);
    assert OutputPaths(drv) == {"o"} by { assert drv.outputs[0].1 == "o"; }
    assert s.Setting();
    SelfNeeds(s, drv);
    assert "src" in s.infos && "o" in s.infos["src"] && "o" !in s.infos;
  }

  lemma SelfNeeds(s: State, drv: Derivation)
    requires s.Setting() && "drv" in s.t && s.t["drv"].1 == drv && drv.inputSources == ["src"]
    requires s.infos == map["src" := {"o"}] && "o" !in s.fetches && "o" in s.byOutput && s.byOutput["o"] == "drv"
    ensures s.Circular(s.infos, "drv")
  {
    assert "src" in s.Direct("drv") by { assert DirectInputs(s.t, drv)[0] == "src"; }
    var c := ["src", "o"];
    assert ReferenceAt(s.infos, c, 1);
    assert Chain(s.infos, s.Direct("drv"), c) && c[|c| - 1] == "o";
    assert s.NeedsFor(s.infos, "drv", "o", "drv");
    var loop := ["drv", "drv"];
    assert s.Needs(s.infos, "drv", "drv") && s.NeedAt(s.infos, loop, 1);
    assert s.NeedChain(s.infos, loop);
    assert s.Loops(s.infos, "drv", loop, 0);
  }

  const TWO_OUTPUTS := Derivation([], [], [("a", "a"), ("b", "b")])

  /** An empty store, and a build service that says the first output refers to the second and
      for the second names the position after the last one. */
  method TwoOutputs(order: set<StorePath> -> seq<StorePath>) returns (s: State)
    requires forall x {:trigger order(x)} :: Elements(order(x)) == x
    ensures s.Setting() && s.infos == map[] && s.Supported(map[]) && s.fetches == map[]
    ensures s.t.Keys == {"drv"} && s.t["drv"].1 == TWO_OUTPUTS && "a" in s.byOutput && s.byOutput["a"] == "drv"
    ensures forall d, inputs {:trigger s.Answer(d, inputs)} :: s.Answer(d, inputs) == Built([[1], [2 + |inputs|]])
    ensures fresh(s)
  {
    var table := OneDerivation(TWO_OUTPUTS);
    s := new State(table.h, table.rank, table.derivations, table.outputsToDrvPath, map[],
                   (_, inputs) => Built([[1], [2 + |inputs|]]), _ => true, order, map[]);
    assert s.Setting();
    assert s.SourcesAtHand({}, "drv");
    assert "a" in OutputPaths(TWO_OUTPUTS) by { assert TWO_OUTPUTS.outputs[0].1 == "a"; }
  }

  /** That build fails and leaves a reference to a path that is not stored. */
  method BrokenStore(order: set<StorePath> -> seq<StorePath>) returns (s: State, r: Outcome)
    requires forall x {:trigger order(x)} :: Elements(order(x)) == x
    ensures r == Error && !Closed(s.infos)
  {
    s := TwoOutputs(order);
    s.ClosedEnds("a");
    r := s.StorePathToPathInfo("a");
    if r.Info? {
      ghost var inputs :| s.BuiltFrom(s.infos, "drv", inputs, "a");
      OutOfRange(|inputs|);
      assert false;
    }
    NothingBefore(s, s.broken.value);
    SecondMissing(s, s.broken.value, s.infos);
  }

  lemma OutOfRange(n: nat)
    ensures !AllInRange([[1], [2 + n]], 2 + n)
  {
    assert !InRange([[1], [2 + n]][1], 2 + n) by { assert [2 + n][0] == 2 + n; }
  }

  /** With one derivation and no fetches nothing is stored before its build. */
  lemma NothingBefore(s: State, b: Broken)
    requires s.t.Keys == {"drv"} && s.fetches == map[] && NoRepeat(s.built) && s.Answered({}, b, s.built)
    requires forall d :: d in s.built ==> d in s.t
    ensures b.before == map[] && s.built == ["drv"]
  {
    assert forall i :: 0 <= i < |s.built| ==> s.built[i] in s.built;
    s.DistinctFits(s.built, {"drv"});
    assert s.built[..|s.built| - 1] == [];
    assert forall p :: p in b.before ==> s.BuiltFor([], p);
    assert b.before.Keys == {};
  }

  lemma SecondMissing(s: State, b: Broken, infos: Infos)
    requires "drv" in s.t && s.t["drv"].1 == TWO_OUTPUTS && b.before == map[] && s.AnswerTo(b, "drv") && b.Left(infos)
    requires forall d, inputs {:trigger s.Answer(d, inputs)} :: s.Answer(d, inputs) == Built([[1], [2 + |inputs|]])
    ensures s.Harmful(b)
  {
    var inputs :| s.AnsweredBy(b, "drv", inputs);
    assert OutputList(TWO_OUTPUTS) == ["a", "b"];
    FirstBad(b, infos, inputs);
    assert s.MissingLater(b, 0, 1);
  }

  lemma FirstBad(b: Broken, infos: Infos, inputs: seq<StorePath>)
    requires b.before == map[] && b.outputs == ["a", "b"] && b.possible == b.outputs + inputs
    requires b.needles == [[1], [2 + |inputs|]] && b.Left(infos)
    ensures b.n == 1 && LastAt(b.outputs[..1], 0, "a") && "b" !in Elements(b.outputs[..1])
  {
    assert InRange([1], 2 + |inputs|);
    assert b.outputs[..1] == ["a"] && b.needles[..1] == [[1]];
    ElementsSnoc([], "a");
    assert [] + ["a"] == ["a"] && Elements([]) == {};
  }
}
