/** Service composition: stores are instantiated lazily, at most once each, by
    any number of concurrent builds.

    A builder resolves its references through `join!`, so one build is a tree of
    calls that advance independently. `build_internal` runs under the mutex of
    the composition and is therefore one atomic step. */
module Composition {
  import opened Wrappers

  // ---------------------------------------------------------------- data model

  /** A store is known by the trait it implements and its instance name. */
  datatype Key = Key(typ: nat, name: string)

  /** A reference as written in a configuration, e.g. "&root". */
  datatype Ref = Ref(typ: nat, text: string)

  /** The reference with its "&" stripped, if it has one. */
  function Target(r: Ref): (t: Option<Key>)
    ensures t.Some? <==> |r.text| > 0 && r.text[0] == '&'
    ensures t.Some? ==> t.value.typ == r.typ && "&" + t.value.name == r.text
  {
    if |r.text| > 0 && r.text[0] == '&' then Some(Key(r.typ, r.text[1..])) else None
  }

  datatype Error =
    | NotFound(name: string)
    | Recursion(stack: seq<string>)
    | Poisoned(name: string)
    | InvalidReference(text: string)
    | Failed(name: string)

  /** A service is identified by the call that constructed it. */
  datatype Result = Ok(service: nat) | Err(error: Error)

  /** A builder resolves all its references, and then succeeds or fails by itself. */
  datatype Builder = Builder(refs: seq<Ref>, fails: bool)

  type Config = map<Key, Builder>

  datatype Slot =
    | Pending(builder: Builder)
    | InProgress(published: Option<Result>)
    | Done(result: Result)

  /** What a call was asked for: `Composition::build` names a store directly,
      `CompositionContext::resolve` follows a reference. */
  datatype Request = Direct(key: Key) | Resolve(ref: Ref)

  datatype Phase =
    | Fresh
    | Waiting
    | Building(builder: Builder, kids: seq<nat>)
    | Built(built: Result)
    | Returned(returned: Result)

  datatype Call = Call(request: Request, stack: seq<Key>, phase: Phase) {
    function Wanted(): Option<Key> {
      match request
      case Direct(k) => Some(k)
      case Resolve(r) => Target(r)
    }

    predicate Finished() {
      phase.Built? || phase.Returned?
    }

    function Outcome(): Result
      requires Finished()
    {
      if phase.Built? then phase.built else phase.returned
    }

    /** The call has run, or is running, the builder of `k`. */
    predicate Started(k: Key) {
      Wanted() == Some(k) && (phase.Building? || phase.Built?)
    }
  }

  datatype State = State(slots: map<Key, Slot>, calls: seq<Call>)

  function Names(stack: seq<Key>): seq<string> {
    seq(|stack|, i requires 0 <= i < |stack| => stack[i].name)
  }

  function Init(cfg: Config, tops: seq<Key>): State {
    State(map k | k in cfg :: Pending(cfg[k]),
          seq(|tops|, i requires 0 <= i < |tops| => Call(Direct(tops[i]), [], Fresh)))
  }

  // --------------------------------------------------------------------- steps

  datatype Step =
    | Start(c: nat)   // the recursion check and `build_internal`
    | Spawn(c: nat)   // `join!` polls the next reference for the first time
    | Finish(c: nat)  // the builder returns and publishes its result
    | Wake(c: nat)    // the watch channel delivers the published result

  predicate Enabled(s: State, st: Step) {
    && st.c < |s.calls|
    && var call := s.calls[st.c];
       match st
       case Start(_) => call.phase.Fresh?
       case Spawn(_) =>
         && call.phase.Building?
         && |call.phase.kids| < |call.phase.builder.refs|
         && call.Wanted().Some?
       case Finish(_) =>
         && call.phase.Building?
         && |call.phase.kids| == |call.phase.builder.refs|
         && call.Wanted().Some?
         && forall i :: 0 <= i < |call.phase.kids| ==>
              call.phase.kids[i] < |s.calls| && s.calls[call.phase.kids[i]].Finished()
       case Wake(_) =>
         && call.phase.Waiting?
         && call.Wanted().Some?
         && call.Wanted().value in s.slots
         && s.slots[call.Wanted().value].InProgress?
         && s.slots[call.Wanted().value].published.Some?
  }

  function SetPhase(s: State, c: nat, p: Phase): State
    requires c < |s.calls|
  {
    s.(calls := s.calls[c := s.calls[c].(phase := p)])
  }

  /** `resolve` followed by `build_internal`, with the mutex held throughout. */
  function ApplyStart(s: State, c: nat): State
    requires c < |s.calls|
  {
    var call := s.calls[c];
    match call.Wanted()
    case None => SetPhase(s, c, Returned(Err(InvalidReference(call.request.ref.text))))
    case Some(k) =>
      if call.request.Resolve? && k in call.stack then
        SetPhase(s, c, Returned(Err(Recursion(Names(call.stack)))))
      else if k !in s.slots then
        SetPhase(s, c, Returned(Err(NotFound(k.name))))
      else match s.slots[k]
        case Done(r) => SetPhase(s, c, Returned(r))
        case Pending(b) =>
          SetPhase(s.(slots := s.slots[k := InProgress(None)]), c, Building(b, []))
        case InProgress(_) => SetPhase(s, c, Waiting)
  }

  function ApplySpawn(s: State, c: nat): State
    requires Enabled(s, Spawn(c))
  {
    var call := s.calls[c];
    var b, kids := call.phase.builder, call.phase.kids;
    var s1 := SetPhase(s, c, Building(b, kids + [|s.calls|]));
    s1.(calls := s1.calls + [Call(Resolve(b.refs[|kids|]), call.stack + [call.Wanted().value], Fresh)])
  }

  /** The first failure among the references, in order, else the builder's own verdict. */
  function JoinOutcome(s: State, kids: seq<nat>, own: Result): Result
    requires forall i :: 0 <= i < |kids| ==> kids[i] < |s.calls| && s.calls[kids[i]].Finished()
  {
    if kids == [] then own
    else if s.calls[kids[0]].Outcome().Err? then s.calls[kids[0]].Outcome()
    else JoinOutcome(s, kids[1..], own)
  }

  function ApplyFinish(s: State, c: nat): State
    requires Enabled(s, Finish(c))
  {
    var call := s.calls[c];
    var k := call.Wanted().value;
    var own := if call.phase.builder.fails then Err(Failed(k.name)) else Ok(c);
    var res := JoinOutcome(s, call.phase.kids, own);
    SetPhase(s.(slots := s.slots[k := InProgress(Some(res))]), c, Built(res))
  }

  function Apply(s: State, st: Step): State
    requires Enabled(s, st)
  {
    match st
    case Start(c) => ApplyStart(s, c)
    case Spawn(c) => ApplySpawn(s, c)
    case Finish(c) => ApplyFinish(s, c)
    case Wake(c) => SetPhase(s, c, Returned(s.slots[s.calls[c].Wanted().value].published.value))
  }

  ghost predicate IsRun(s: State, steps: seq<Step>)
    decreases |steps|
  {
    steps == [] || (Enabled(s, steps[0]) && IsRun(Apply(s, steps[0]), steps[1..]))
  }

  ghost function After(s: State, steps: seq<Step>): State
    requires IsRun(s, steps)
    decreases |steps|
  {
    if steps == [] then s else After(Apply(s, steps[0]), steps[1..])
  }

  ghost predicate Reachable(cfg: Config, tops: seq<Key>, s: State) {
    exists steps :: IsRun(Init(cfg, tops), steps) && After(Init(cfg, tops), steps) == s
  }

  // ------------------------------------------------- which stores can be built

  /** `k` can be instantiated by a derivation of height at most `n`: it is
      configured, its builder does not fail, and so for all its references. */
  ghost predicate GoodWithin(cfg: Config, k: Key, n: nat)
    decreases n
  {
    && n > 0
    && k in cfg
    && !cfg[k].fails
    && forall i :: 0 <= i < |cfg[k].refs| ==>
         && Target(cfg[k].refs[i]).Some?
         && GoodWithin(cfg, Target(cfg[k].refs[i]).value, n - 1)
  }

  ghost predicate Good(cfg: Config, k: Key) {
    exists n :: GoodWithin(cfg, k, n)
  }

  /** The builder of `k` refers to `t`. */
  ghost predicate Edge(cfg: Config, k: Key, t: Key) {
    k in cfg && exists i :: 0 <= i < |cfg[k].refs| && Target(cfg[k].refs[i]) == Some(t)
  }

  ghost predicate EdgeAt(cfg: Config, p: seq<Key>, i: int) {
    0 < i < |p| && Edge(cfg, p[i - 1], p[i])
  }

  ghost predicate Path(cfg: Config, p: seq<Key>) {
    forall i {:trigger EdgeAt(cfg, p, i)} :: 0 < i < |p| ==> EdgeAt(cfg, p, i)
  }

  ghost predicate Cycle(cfg: Config, p: seq<Key>) {
    |p| > 1 && Path(cfg, p) && p[0] == p[|p| - 1]
  }

  lemma {:induction false} GoodWithinMonotone(cfg: Config, k: Key, m: nat, n: nat)
    requires m <= n && GoodWithin(cfg, k, m)
    ensures GoodWithin(cfg, k, n)
    decreases m
  {
    forall i | 0 <= i < |cfg[k].refs|
      ensures GoodWithin(cfg, Target(cfg[k].refs[i]).value, n - 1)
    {
      GoodWithinMonotone(cfg, Target(cfg[k].refs[i]).value, m - 1, n - 1);
    }
  }

  /** A common height for the first `i` references. */
  lemma {:induction false} CommonHeight(cfg: Config, k: Key, i: nat) returns (n: nat)
    requires k in cfg && i <= |cfg[k].refs|
    requires forall j :: 0 <= j < i ==>
               Target(cfg[k].refs[j]).Some? && Good(cfg, Target(cfg[k].refs[j]).value)
    ensures forall j :: 0 <= j < i ==> GoodWithin(cfg, Target(cfg[k].refs[j]).value, n)
    decreases i
  {
    n := 0;
    if i > 0 {
      var m := CommonHeight(cfg, k, i - 1);
      var h :| GoodWithin(cfg, Target(cfg[k].refs[i - 1]).value, h);
      n := if m < h then h else m;
      forall j | 0 <= j < i ensures GoodWithin(cfg, Target(cfg[k].refs[j]).value, n) {
        GoodWithinMonotone(cfg, Target(cfg[k].refs[j]).value, if j < i - 1 then m else h, n);
      }
    }
  }

  lemma GoodFromRefs(cfg: Config, k: Key)
    requires k in cfg && !cfg[k].fails
    requires forall j :: 0 <= j < |cfg[k].refs| ==>
               Target(cfg[k].refs[j]).Some? && Good(cfg, Target(cfg[k].refs[j]).value)
    ensures Good(cfg, k)
  {
    var n := CommonHeight(cfg, k, |cfg[k].refs|);
    assert GoodWithin(cfg, k, n + 1);
  }

  lemma {:induction false} GoodAlongPath(cfg: Config, p: seq<Key>, n: nat)
    requires p != [] && Path(cfg, p) && GoodWithin(cfg, p[0], n)
    ensures |p| <= n && GoodWithin(cfg, p[|p| - 1], n + 1 - |p|)
    decreases |p|
  {
    if |p| > 1 {
      assert EdgeAt(cfg, p, 1);
      assert Path(cfg, p[1..]) by {
        forall i | 0 < i < |p[1..]| ensures EdgeAt(cfg, p[1..], i) {
          assert EdgeAt(cfg, p, i + 1);
        }
      }
      GoodAlongPath(cfg, p[1..], n - 1);
    }
  }

  /** A store on a cycle has no finite height. */
  lemma {:induction false} CycleNotWithin(cfg: Config, p: seq<Key>, n: nat)
    requires Cycle(cfg, p)
    ensures !GoodWithin(cfg, p[0], n)
    decreases n
  {
    if GoodWithin(cfg, p[0], n) {
      GoodAlongPath(cfg, p, n);
      CycleNotWithin(cfg, p, n + 1 - |p|);
    }
  }

  // ------------------------------------------------------- why a store is not good

  ghost predicate PathFrom(cfg: Config, k: Key, p: seq<Key>) {
    p != [] && p[0] == k && Path(cfg, p)
  }

  /** The stack is a path of references to `last`, which refers back into it. */
  ghost predicate Closes(cfg: Config, stack: seq<Key>, last: Key) {
    && stack != [] && stack[|stack| - 1] == last && Path(cfg, stack)
    && exists t :: t in stack && Edge(cfg, last, t)
  }

  ghost predicate Malformed(refs: seq<Ref>, text: string) {
    exists i :: 0 <= i < |refs| && Target(refs[i]).None? && refs[i].text == text
  }

  /** A path of references to the store at which the error originates. */
  ghost predicate Blames(cfg: Config, p: seq<Key>, e: Error)
    requires p != []
  {
    var last := p[|p| - 1];
    match e
    case NotFound(name) => last !in cfg && last.name == name
    case Recursion(names) => exists stack :: Names(stack) == names && Closes(cfg, stack, last)
    case InvalidReference(text) => last in cfg && Malformed(cfg[last].refs, text)
    case Failed(name) => last in cfg && cfg[last].fails && last.name == name
    case Poisoned(_) => false
  }

  ghost predicate Explains(cfg: Config, k: Key, e: Error) {
    exists p :: PathFrom(cfg, k, p) && Blames(cfg, p, e)
  }

  lemma ExplainsUp(cfg: Config, k: Key, t: Key, e: Error)
    requires Edge(cfg, k, t) && Explains(cfg, t, e)
    ensures Explains(cfg, k, e)
  {
    var p :| PathFrom(cfg, t, p) && Blames(cfg, p, e);
    var q := [k] + p;
    forall i | 0 < i < |q| ensures EdgeAt(cfg, q, i) {
      if i > 1 { assert EdgeAt(cfg, p, i - 1); }
    }
    assert q[|q| - 1] == p[|p| - 1];
    assert PathFrom(cfg, k, q) && Blames(cfg, q, e);
  }

  lemma PathSnoc(cfg: Config, p: seq<Key>, k: Key)
    requires Path(cfg, p) && (p != [] ==> Edge(cfg, p[|p| - 1], k))
    ensures Path(cfg, p + [k])
  {
    var q := p + [k];
    forall i | 0 < i < |q| ensures EdgeAt(cfg, q, i) {
      if i < |p| { assert EdgeAt(cfg, p, i); }
    }
  }

  lemma SubPath(cfg: Config, p: seq<Key>, i: nat, j: nat)
    requires Path(cfg, p) && i <= j <= |p|
    ensures Path(cfg, p[i..j])
  {
    forall l | 0 < l < j - i ensures EdgeAt(cfg, p[i..j], l) {
      assert EdgeAt(cfg, p, i + l);
    }
  }

  /** A stack that closes makes a cycle through its last store. */
  lemma ClosesCycle(cfg: Config, stack: seq<Key>, last: Key) returns (p: seq<Key>)
    requires Closes(cfg, stack, last)
    ensures Cycle(cfg, p) && p[0] == last
  {
    var t :| t in stack && Edge(cfg, last, t);
    var m :| 0 <= m < |stack| && stack[m] == t;
    p := [last] + stack[m..];
    forall i | 0 < i < |p| ensures EdgeAt(cfg, p, i) {
      if i > 1 { assert EdgeAt(cfg, stack, m + i - 1); }
    }
  }

  /** An explained error is a real one: the store has no finite derivation. */
  lemma ExplainsNotGood(cfg: Config, k: Key, e: Error)
    requires Explains(cfg, k, e)
    ensures !Good(cfg, k)
  {
    var p :| PathFrom(cfg, k, p) && Blames(cfg, p, e);
    forall n: nat ensures !GoodWithin(cfg, k, n) {
      if GoodWithin(cfg, k, n) {
        GoodAlongPath(cfg, p, n);
        if e.Recursion? {
          var last := p[|p| - 1];
          var stack :| Names(stack) == e.stack && Closes(cfg, stack, last);
          var cycle := ClosesCycle(cfg, stack, last);
          CycleNotWithin(cfg, cycle, n + 1 - |p|);
        }
      }
    }
  }

  /** Without a derivation of height `n` there is a broken store, or a path of `n` references. */
  lemma {:induction false} LongPath(cfg: Config, k: Key, n: nat) returns (p: seq<Key>)
    requires !GoodWithin(cfg, k, n)
    ensures PathFrom(cfg, k, p)
    ensures |p| == n + 1 || exists e: Error :: !e.Recursion? && Blames(cfg, p, e)
    decreases n
  {
    p := [k];
    if k !in cfg {
      assert Blames(cfg, p, NotFound(k.name));
    } else if cfg[k].fails {
      assert Blames(cfg, p, Failed(k.name));
    } else if n > 0 {
      var i :| 0 <= i < |cfg[k].refs| &&
               (Target(cfg[k].refs[i]).None? || !GoodWithin(cfg, Target(cfg[k].refs[i]).value, n - 1));
      if Target(cfg[k].refs[i]).None? {
        assert Blames(cfg, p, InvalidReference(cfg[k].refs[i].text));
      } else {
        var t := Target(cfg[k].refs[i]).value;
        var q := LongPath(cfg, t, n - 1);
        p := [k] + q;
        assert Edge(cfg, k, t);
        forall l | 0 < l < |p| ensures EdgeAt(cfg, p, l) {
          if l > 1 { assert EdgeAt(cfg, q, l - 1); }
        }
        if |q| != n {
          var e: Error :| !e.Recursion? && Blames(cfg, q, e);
          assert p[|p| - 1] == q[|q| - 1];
          assert Blames(cfg, p, e);
        }
      }
    }
  }

  lemma {:induction false} DistinctFits(p: seq<Key>, S: set<Key>)
    requires forall i :: 0 <= i < |p| ==> p[i] in S
    requires forall i, j :: 0 <= i < j < |p| ==> p[i] != p[j]
    ensures |p| <= |S|
    decreases |p|
  {
    if p != [] {
      DistinctFits(p[1..], S - {p[0]});
    }
  }

  lemma NotGoodExplained(cfg: Config, k: Key)
    requires !Good(cfg, k)
    ensures exists e :: Explains(cfg, k, e)
  {
    var p := LongPath(cfg, k, |cfg|);
    if e: Error :| !e.Recursion? && Blames(cfg, p, e) {
      assert Explains(cfg, k, e);
    } else {
      forall i | 0 <= i < |p| ensures p[i] in cfg.Keys {
        if i == |p| - 1 {
          assert !Blames(cfg, p, NotFound(p[i].name));
        } else {
          assert EdgeAt(cfg, p, i + 1);
        }
      }
      if forall i, j :: 0 <= i < j < |p| ==> p[i] != p[j] {
        DistinctFits(p, cfg.Keys);
      } else {
        var i, j :| 0 <= i < j < |p| && p[i] == p[j];
        RepeatExplains(cfg, p, i, j);
      }
    }
  }

  lemma RepeatExplains(cfg: Config, p: seq<Key>, i: nat, j: nat)
    requires Path(cfg, p) && i < j < |p| && p[i] == p[j]
    ensures Explains(cfg, p[0], Recursion(Names(p[i..j])))
  {
    SubPath(cfg, p, 0, j);
    SubPath(cfg, p, i, j);
    var stack, last := p[i..j], p[j - 1];
    assert EdgeAt(cfg, p, j) && stack[0] == p[j];
    assert Closes(cfg, stack, last);
    assert PathFrom(cfg, p[0], p[0..j]) && Blames(cfg, p[0..j], Recursion(Names(stack)));
  }

  /** A store can be built exactly when no path of references from it leads to a
      missing or failing store, to a malformed reference, or into a cycle. */
  lemma GoodIffUnexplained(cfg: Config, k: Key)
    ensures Good(cfg, k) <==> !exists e :: Explains(cfg, k, e)
  {
    if e :| Explains(cfg, k, e) {
      ExplainsNotGood(cfg, k, e);
    }
    if !Good(cfg, k) {
      NotGoodExplained(cfg, k);
    }
  }

  /** The recursion check is right to refuse: a key found on the stack closes a cycle. */
  lemma StackCycle(cfg: Config, stack: seq<Key>, t: Key)
    requires stack != [] && Path(cfg, stack) && t in stack
    requires Edge(cfg, stack[|stack| - 1], t)
    ensures Explains(cfg, stack[|stack| - 1], Recursion(Names(stack)))
  {
    var k := stack[|stack| - 1];
    assert Closes(cfg, stack, k);
    assert PathFrom(cfg, k, [k]) && Blames(cfg, [k], Recursion(Names(stack)));
  }

  // ---------------------------------------------------------------- invariant

  /** What a finished call that did not run the builder may answer. */
  ghost predicate Answers(cfg: Config, s: State, call: Call, r: Result) {
    match call.Wanted()
    case None => r == Err(InvalidReference(call.request.ref.text))
    case Some(k) =>
      if call.request.Resolve? && k in call.stack then r == Err(Recursion(Names(call.stack)))
      else if k !in cfg then r == Err(NotFound(k.name))
      else k in s.slots && s.slots[k] == InProgress(Some(r))
  }

  ghost predicate KidOk(s: State, call: Call, k: Key, b: Builder, i: nat, kid: nat)
    requires i < |b.refs|
  {
    && kid < |s.calls|
    && s.calls[kid].request == Resolve(b.refs[i])
    && s.calls[kid].stack == call.stack + [k]
  }

  ghost predicate CallOk(cfg: Config, s: State, call: Call) {
    && Path(cfg, call.stack)
    && (call.request.Direct? <==> call.stack == [])
    && (call.request.Resolve? ==>
          var last := call.stack[|call.stack| - 1];
          last in cfg && call.request.ref in cfg[last].refs)
    && (call.phase.Waiting? || call.phase.Building? || call.phase.Built? ==>
          && call.Wanted().Some?
          && call.Wanted().value !in call.stack
          && call.Wanted().value in cfg
          && call.Wanted().value in s.slots)
    && match call.phase
       case Fresh => true
       case Waiting => s.slots[call.Wanted().value].InProgress?
       case Building(b, kids) =>
         && b == cfg[call.Wanted().value]
         && s.slots[call.Wanted().value] == InProgress(None)
         && |kids| <= |b.refs|
         && forall i :: 0 <= i < |kids| ==> KidOk(s, call, call.Wanted().value, b, i, kids[i])
       case Built(r) => s.slots[call.Wanted().value] == InProgress(Some(r))
       case Returned(r) => Answers(cfg, s, call, r)
  }

  ghost predicate IsBuilder(s: State, c: nat, k: Key) {
    c < |s.calls| && s.calls[c].Wanted() == Some(k) && s.calls[c].phase.Building?
  }

  ghost predicate SlotOk(cfg: Config, s: State, k: Key)
    requires k in cfg && k in s.slots
  {
    match s.slots[k]
    case Pending(b) => b == cfg[k]
    case InProgress(None) => exists c: nat :: IsBuilder(s, c, k)
    case InProgress(Some(r)) =>
      && (r.Ok? ==> Good(cfg, k) && r.service < |s.calls| && s.calls[r.service].Started(k))
      && (r.Err? ==> Explains(cfg, k, r.error))
    case Done(_) => false
  }

  ghost predicate StartedOnce(s: State) {
    forall c, d, k | 0 <= c < |s.calls| && 0 <= d < |s.calls| ::
      s.calls[c].Started(k) && s.calls[d].Started(k) ==> c == d
  }

  ghost predicate Inv(cfg: Config, s: State) {
    && s.slots.Keys == cfg.Keys
    && (forall k {:trigger SlotOk(cfg, s, k)} :: k in cfg ==> SlotOk(cfg, s, k))
    && (forall c {:trigger CallOk(cfg, s, s.calls[c])} :: 0 <= c < |s.calls| ==> CallOk(cfg, s, s.calls[c]))
    && StartedOnce(s)
  }

  lemma InitInv(cfg: Config, tops: seq<Key>)
    ensures Inv(cfg, Init(cfg, tops))
  {
  }

  /** How one step may change a slot. */
  ghost predicate SlotStep(a: Slot, b: Slot) {
    || a == b
    || (a.Pending? && b == InProgress(None))
    || (a == InProgress(None) && b.InProgress? && b.published.Some?)
  }

  /** Only call `c` moves, and no call changes what it was asked for. */
  ghost predicate OnlyMoves(s: State, s': State, c: nat) {
    && c < |s.calls| <= |s'.calls|
    && s'.slots.Keys == s.slots.Keys
    && (forall d :: 0 <= d < |s.calls| && d != c ==> s'.calls[d] == s.calls[d])
    && s'.calls[c].request == s.calls[c].request
    && s'.calls[c].stack == s.calls[c].stack
    && (forall k :: k in s.slots ==> SlotStep(s.slots[k], s'.slots[k]))
    && (forall k :: k in s.slots && s.calls[c].Wanted() != Some(k) ==> s'.slots[k] == s.slots[k])
  }

  /** Only the call that runs a builder touches its slot. */
  ghost predicate OwnSlot(s: State, s': State, c: nat)
    requires c < |s.calls|
  {
    || s'.slots == s.slots
    || (&& c < |s'.calls|
        && s.calls[c].Wanted().Some?
        && s'.calls[c].Started(s.calls[c].Wanted().value))
  }

  lemma CallFrame(cfg: Config, s: State, s': State, c: nat, d: nat)
    requires OnlyMoves(s, s', c) && OwnSlot(s, s', c) && StartedOnce(s')
    requires d < |s.calls| && d != c && CallOk(cfg, s, s.calls[d])
    ensures CallOk(cfg, s', s'.calls[d])
  {
    var call := s.calls[d];
    if call.phase.Building? {
      var k, b, kids := call.Wanted().value, call.phase.builder, call.phase.kids;
      assert s'.calls[d].Started(k);
      forall i | 0 <= i < |kids| ensures KidOk(s', call, k, b, i, kids[i]) {
        assert KidOk(s, call, k, b, i, kids[i]);
      }
    }
  }

  lemma SlotFrame(cfg: Config, s: State, s': State, c: nat, k: Key)
    requires OnlyMoves(s, s', c) && k in cfg && k in s.slots && s.calls[c].Wanted() != Some(k)
    requires SlotOk(cfg, s, k)
    ensures SlotOk(cfg, s', k)
  {
    if s.slots[k] == InProgress(None) {
      var d: nat :| IsBuilder(s, d, k);
      assert IsBuilder(s', d, k);
    }
  }

  /** Everything but call `c` and the slot it wants is unaffected by its step. */
  lemma StepFrame(cfg: Config, s: State, s': State, c: nat)
    requires Inv(cfg, s) && OnlyMoves(s, s', c) && OwnSlot(s, s', c)
    requires CallOk(cfg, s', s'.calls[c])
    requires s.calls[c].Wanted().Some? && s.calls[c].Wanted().value in cfg ==>
               SlotOk(cfg, s', s.calls[c].Wanted().value)
    requires forall d :: |s.calls| <= d < |s'.calls| ==>
               CallOk(cfg, s', s'.calls[d]) && s'.calls[d].phase.Fresh?
    requires StartedOnce(s')
    ensures Inv(cfg, s')
  {
    forall d | 0 <= d < |s'.calls| ensures CallOk(cfg, s', s'.calls[d]) {
      if d < |s.calls| && d != c {
        CallFrame(cfg, s, s', c, d);
      }
    }
    forall k | k in cfg ensures SlotOk(cfg, s', k) {
      if s.calls[c].Wanted() != Some(k) {
        SlotFrame(cfg, s, s', c, k);
      }
    }
  }

  lemma QuietSlot(cfg: Config, s: State, c: nat, p: Phase, k: Key)
    requires c < |s.calls| && k in cfg && k in s.slots && SlotOk(cfg, s, k)
    requires s.calls[c].phase.Fresh? || s.calls[c].phase.Waiting?
    ensures SlotOk(cfg, SetPhase(s, c, p), k)
  {
    var s' := SetPhase(s, c, p);
    match s.slots[k] {
      case InProgress(None) =>
        var d: nat :| IsBuilder(s, d, k);
        assert IsBuilder(s', d, k);
      case InProgress(Some(r)) =>
        if r.Ok? { assert s'.calls[r.service] == s.calls[r.service]; }
      case _ =>
    }
  }

  /** A step that leaves the slots alone and answers or blocks its own call. */
  lemma QuietInv(cfg: Config, s: State, c: nat, p: Phase)
    requires Inv(cfg, s) && c < |s.calls|
    requires s.calls[c].phase.Fresh? || s.calls[c].phase.Waiting?
    requires p.Waiting? || p.Returned?
    requires CallOk(cfg, s, s.calls[c].(phase := p))
    ensures Inv(cfg, SetPhase(s, c, p)) && OnlyMoves(s, SetPhase(s, c, p), c)
  {
    var s' := SetPhase(s, c, p);
    if s.calls[c].Wanted().Some? && s.calls[c].Wanted().value in cfg {
      QuietSlot(cfg, s, c, p, s.calls[c].Wanted().value);
    }
    assert CallOk(cfg, s', s'.calls[c]);
    StepFrame(cfg, s, s', c);
  }

  lemma PendingNotStarted(cfg: Config, s: State, k: Key, c: nat)
    requires Inv(cfg, s) && k in cfg && s.slots[k].Pending? && c < |s.calls|
    ensures !s.calls[c].Started(k)
  {
    assert CallOk(cfg, s, s.calls[c]);
  }

  /** Taking the configuration out of its slot. */
  lemma TakeInv(cfg: Config, s: State, c: nat, k: Key)
    requires Inv(cfg, s) && c < |s.calls| && s.calls[c].phase.Fresh?
    requires s.calls[c].Wanted() == Some(k) && k !in s.calls[c].stack
    requires k in cfg && s.slots[k].Pending?
    ensures var s' := SetPhase(s.(slots := s.slots[k := InProgress(None)]), c, Building(s.slots[k].builder, []));
            Inv(cfg, s') && OnlyMoves(s, s', c)
  {
    var s' := SetPhase(s.(slots := s.slots[k := InProgress(None)]), c, Building(s.slots[k].builder, []));
    assert SlotOk(cfg, s, k);
    assert CallOk(cfg, s, s.calls[c]);
    assert IsBuilder(s', c, k);
    forall d | 0 <= d < |s.calls| ensures !s.calls[d].Started(k) {
      PendingNotStarted(cfg, s, k, d);
    }
    StepFrame(cfg, s, s', c);
  }

  lemma StartInv(cfg: Config, s: State, c: nat)
    requires Inv(cfg, s) && Enabled(s, Start(c))
    ensures Inv(cfg, ApplyStart(s, c)) && OnlyMoves(s, ApplyStart(s, c), c)
  {
    var call := s.calls[c];
    assert CallOk(cfg, s, call);
    if call.Wanted().Some? && call.Wanted().value in cfg && call.Wanted().value !in call.stack {
      var k := call.Wanted().value;
      assert SlotOk(cfg, s, k);
      if s.slots[k].Pending? {
        TakeInv(cfg, s, c, k);
      } else {
        QuietInv(cfg, s, c, Waiting);
      }
    } else {
      QuietInv(cfg, s, c, ApplyStart(s, c).calls[c].phase);
    }
  }

  lemma WakeInv(cfg: Config, s: State, c: nat)
    requires Inv(cfg, s) && Enabled(s, Wake(c))
    ensures Inv(cfg, Apply(s, Wake(c))) && OnlyMoves(s, Apply(s, Wake(c)), c)
  {
    assert CallOk(cfg, s, s.calls[c]);
    QuietInv(cfg, s, c, Returned(s.slots[s.calls[c].Wanted().value].published.value));
  }

  /** The stack of a spawned call is a path of references. */
  lemma GrowPath(cfg: Config, s: State, call: Call, k: Key)
    requires CallOk(cfg, s, call) && call.Wanted() == Some(k)
    ensures Path(cfg, call.stack + [k])
  {
    if call.stack != [] {
      var last := call.stack[|call.stack| - 1];
      var i :| 0 <= i < |cfg[last].refs| && cfg[last].refs[i] == call.request.ref;
      assert Edge(cfg, last, k);
    }
    PathSnoc(cfg, call.stack, k);
  }

  lemma SpawnInv(cfg: Config, s: State, c: nat)
    requires Inv(cfg, s) && Enabled(s, Spawn(c))
    ensures Inv(cfg, ApplySpawn(s, c)) && OnlyMoves(s, ApplySpawn(s, c), c)
  {
    var s' := ApplySpawn(s, c);
    var call, call' := s.calls[c], s'.calls[c];
    var k, b, kids := call.Wanted().value, call.phase.builder, call.phase.kids;
    assert CallOk(cfg, s, call);
    assert IsBuilder(s', c, k);
    GrowPath(cfg, s, call, k);
    assert b.refs[|kids|] in b.refs;
    assert CallOk(cfg, s', call') by {
      forall i | 0 <= i < |call'.phase.kids| ensures KidOk(s', call', k, b, i, call'.phase.kids[i]) {
        if i < |kids| {
          assert KidOk(s, call, k, b, i, kids[i]);
        }
      }
    }
    assert StartedOnce(s') by {
      forall d, j | 0 <= d < |s'.calls| && s'.calls[d].Started(j)
        ensures d < |s.calls| && s.calls[d].Started(j)
      {
      }
    }
    StepFrame(cfg, s, s', c);
  }

  /** The kid at `i` failed with that outcome, and all before it succeeded. */
  ghost predicate FirstFailure(s: State, kids: seq<nat>, i: nat, r: Result)
    requires forall i :: 0 <= i < |kids| ==> kids[i] < |s.calls| && s.calls[kids[i]].Finished()
  {
    && i < |kids| && r.Err? && s.calls[kids[i]].Outcome() == r
    && forall j :: 0 <= j < i ==> s.calls[kids[j]].Outcome().Ok?
  }

  /** The joined outcome is the first failure among the kids, else the builder's own. */
  lemma {:induction false} JoinOutcomeIs(s: State, kids: seq<nat>, own: Result)
    requires forall i :: 0 <= i < |kids| ==> kids[i] < |s.calls| && s.calls[kids[i]].Finished()
    ensures || (&& JoinOutcome(s, kids, own) == own
                && forall i :: 0 <= i < |kids| ==> s.calls[kids[i]].Outcome().Ok?)
            || exists i: nat :: FirstFailure(s, kids, i, JoinOutcome(s, kids, own))
    decreases |kids|
  {
    if kids != [] {
      if s.calls[kids[0]].Outcome().Err? {
        assert FirstFailure(s, kids, 0, JoinOutcome(s, kids, own));
      } else {
        var rest := kids[1..];
        assert forall i :: 0 <= i < |rest| ==> rest[i] == kids[i + 1];
        JoinOutcomeIs(s, rest, own);
        if i: nat :| FirstFailure(s, rest, i, JoinOutcome(s, rest, own)) {
          forall j | 0 <= j < i + 1 ensures s.calls[kids[j]].Outcome().Ok? {
            if j > 0 { assert rest[j - 1] == kids[j]; }
          }
          assert FirstFailure(s, kids, i + 1, JoinOutcome(s, kids, own));
        } else {
          forall i | 0 <= i < |kids| ensures s.calls[kids[i]].Outcome().Ok? {
            if i > 0 { assert rest[i - 1] == kids[i]; }
          }
        }
      }
    }
  }

  /** A finished call for a reference either succeeded, with a good target, or
      explains why the referring store cannot be built. */
  lemma KidVerdict(cfg: Config, s: State, c: nat, i: nat)
    requires Inv(cfg, s) && c < |s.calls| && s.calls[c].phase.Building? && s.calls[c].Wanted().Some?
    requires i < |s.calls[c].phase.kids|
    requires s.calls[c].phase.kids[i] < |s.calls| && s.calls[s.calls[c].phase.kids[i]].Finished()
    ensures var out := s.calls[s.calls[c].phase.kids[i]].Outcome();
            var k := s.calls[c].Wanted().value;
            && k in cfg && i < |cfg[k].refs|
            && (out.Ok? ==> Target(cfg[k].refs[i]).Some? && Good(cfg, Target(cfg[k].refs[i]).value))
            && (out.Err? ==> Explains(cfg, k, out.error))
  {
    var call := s.calls[c];
    assert CallOk(cfg, s, call);
    var k, kid := call.Wanted().value, s.calls[call.phase.kids[i]];
    assert KidOk(s, call, k, cfg[k], i, call.phase.kids[i]);
    assert CallOk(cfg, s, kid);
    match kid.Wanted() {
      case None =>
        assert PathFrom(cfg, k, [k]) && Blames(cfg, [k], kid.Outcome().error);
      case Some(t) =>
        assert Edge(cfg, k, t);
        if t in kid.stack {
          StackCycle(cfg, kid.stack, t);
        } else if t in cfg {
          assert SlotOk(cfg, s, t);
          if kid.Outcome().Err? { ExplainsUp(cfg, k, t, kid.Outcome().error); }
        } else {
          assert PathFrom(cfg, k, [k, t]) && Blames(cfg, [k, t], kid.Outcome().error);
        }
    }
  }

  lemma FinishVerdict(cfg: Config, s: State, c: nat)
    requires Inv(cfg, s) && Enabled(s, Finish(c))
    ensures var k := s.calls[c].Wanted().value;
            var own := if s.calls[c].phase.builder.fails then Err(Failed(k.name)) else Ok(c);
            var r := JoinOutcome(s, s.calls[c].phase.kids, own);
            && (r.Ok? ==> Good(cfg, k) && r == Ok(c))
            && (r.Err? ==> Explains(cfg, k, r.error))
  {
    var call := s.calls[c];
    assert CallOk(cfg, s, call);
    var k, kids := call.Wanted().value, call.phase.kids;
    var own := if call.phase.builder.fails then Err(Failed(k.name)) else Ok(c);
    forall i | 0 <= i < |kids|
      ensures var out := s.calls[kids[i]].Outcome();
              && (out.Ok? ==> Target(cfg[k].refs[i]).Some? && Good(cfg, Target(cfg[k].refs[i]).value))
              && (out.Err? ==> Explains(cfg, k, out.error))
    {
      KidVerdict(cfg, s, c, i);
    }
    JoinOutcomeIs(s, kids, own);
    if !cfg[k].fails && forall i :: 0 <= i < |kids| ==> s.calls[kids[i]].Outcome().Ok? {
      GoodFromRefs(cfg, k);
    }
    if cfg[k].fails {
      assert PathFrom(cfg, k, [k]) && Blames(cfg, [k], Failed(k.name));
    }
  }

  lemma FinishInv(cfg: Config, s: State, c: nat)
    requires Inv(cfg, s) && Enabled(s, Finish(c))
    ensures Inv(cfg, ApplyFinish(s, c)) && OnlyMoves(s, ApplyFinish(s, c), c)
  {
    var s' := ApplyFinish(s, c);
    assert CallOk(cfg, s, s.calls[c]);
    FinishVerdict(cfg, s, c);
    assert s.calls[c].Started(s.calls[c].Wanted().value);
    StepFrame(cfg, s, s', c);
  }

  /** Every atomic step of every task keeps the invariant. */
  lemma StepInv(cfg: Config, s: State, st: Step)
    requires Inv(cfg, s) && Enabled(s, st)
    ensures Inv(cfg, Apply(s, st)) && OnlyMoves(s, Apply(s, st), st.c)
  {
    match st
    case Start(c) => StartInv(cfg, s, c);
    case Spawn(c) => SpawnInv(cfg, s, c);
    case Finish(c) => FinishInv(cfg, s, c);
    case Wake(c) => WakeInv(cfg, s, c);
  }

  // ------------------------------------------------------- safety of whole runs

  lemma {:induction false} RunInv(cfg: Config, s: State, steps: seq<Step>)
    requires Inv(cfg, s) && IsRun(s, steps)
    ensures Inv(cfg, After(s, steps))
    decreases |steps|
  {
    if steps != [] {
      StepInv(cfg, s, steps[0]);
      RunInv(cfg, Apply(s, steps[0]), steps[1..]);
    }
  }

  /** In every interleaving each builder is started at most once, the placeholder
      put into a slot under the mutex is never observed, and nothing fails with it. */
  lemma ReachableInv(cfg: Config, tops: seq<Key>, s: State)
    requires Reachable(cfg, tops, s)
    ensures Inv(cfg, s)
    ensures forall c, d, k | 0 <= c < |s.calls| && 0 <= d < |s.calls| ::
              s.calls[c].Started(k) && s.calls[d].Started(k) ==> c == d
    ensures forall k :: k in s.slots ==> !s.slots[k].Done?
  {
    InitInv(cfg, tops);
    var steps :| IsRun(Init(cfg, tops), steps) && After(Init(cfg, tops), steps) == s;
    RunInv(cfg, Init(cfg, tops), steps);
    forall k | k in s.slots ensures !s.slots[k].Done? {
      assert SlotOk(cfg, s, k);
    }
  }

  /** Published results, requests and outcomes of finished calls are the same in `s'`. */
  ghost predicate Preserved(s: State, s': State) {
    && |s.calls| <= |s'.calls|
    && (forall k :: k in s.slots && s.slots[k].InProgress? && s.slots[k].published.Some? ==>
          k in s'.slots && s'.slots[k] == s.slots[k])
    && (forall c :: 0 <= c < |s.calls| ==> s'.calls[c].request == s.calls[c].request)
    && (forall c :: 0 <= c < |s.calls| && s.calls[c].Finished() ==> s'.calls[c] == s.calls[c])
  }

  lemma StepPreserves(cfg: Config, s: State, st: Step)
    requires Inv(cfg, s) && Enabled(s, st) && OnlyMoves(s, Apply(s, st), st.c)
    ensures Preserved(s, Apply(s, st))
  {
    var s' := Apply(s, st);
    forall c | 0 <= c < |s.calls|
      ensures s'.calls[c].request == s.calls[c].request
      ensures s.calls[c].Finished() ==> s'.calls[c] == s.calls[c]
    {
      if c != st.c { assert s'.calls[c] == s.calls[c]; }
    }
    forall k | k in s.slots && s.slots[k].InProgress? && s.slots[k].published.Some?
      ensures k in s'.slots && s'.slots[k] == s.slots[k]
    {
      assert SlotStep(s.slots[k], s'.slots[k]);
    }
  }

  lemma PreservedThen(a: State, b: State, c: State)
    requires Preserved(a, b) && Preserved(b, c)
    ensures Preserved(a, c)
  {
    forall d | 0 <= d < |a.calls|
      ensures c.calls[d].request == a.calls[d].request
      ensures a.calls[d].Finished() ==> c.calls[d] == a.calls[d]
    {
      assert b.calls[d].request == a.calls[d].request;
    }
  }

  /** Whatever is published stays published, and a finished call keeps its outcome. */
  lemma {:induction false} ResultsAreFinal(cfg: Config, s: State, steps: seq<Step>)
    requires Inv(cfg, s) && IsRun(s, steps)
    ensures Preserved(s, After(s, steps))
    decreases |steps|
  {
    if steps != [] {
      var s1 := Apply(s, steps[0]);
      StepInv(cfg, s, steps[0]);
      StepPreserves(cfg, s, steps[0]);
      ResultsAreFinal(cfg, s1, steps[1..]);
      PreservedThen(s, s1, After(s1, steps[1..]));
    }
  }

  lemma TopRequest(cfg: Config, tops: seq<Key>, s: State, i: nat)
    requires Reachable(cfg, tops, s) && i < |tops|
    ensures i < |s.calls| && s.calls[i].request == Direct(tops[i])
  {
    InitInv(cfg, tops);
    var s0 := Init(cfg, tops);
    var steps :| IsRun(s0, steps) && After(s0, steps) == s;
    ResultsAreFinal(cfg, s0, steps);
    assert s0.calls[i].request == Direct(tops[i]);
  }

  // ------------------------------------------------- which failure is reported

  /** The reference is malformed, or its store cannot be built. */
  ghost predicate BadRef(cfg: Config, r: Ref) {
    Target(r).None? || !Good(cfg, Target(r).value)
  }

  ghost predicate FirstBad(cfg: Config, refs: seq<Ref>, i: nat) {
    i < |refs| && BadRef(cfg, refs[i]) && forall j :: 0 <= j < i ==> !BadRef(cfg, refs[j])
  }

  ghost predicate HasResult(slot: Slot, r: Result) {
    slot == InProgress(Some(r)) || slot == Done(r)
  }

  /** The error the reference gives to a builder that runs on the stack `inner`, its own
      store included. */
  ghost predicate Gives(cfg: Config, slots: map<Key, Slot>, inner: seq<Key>, r: Ref, e: Error) {
    match Target(r)
    case None => e == InvalidReference(r.text)
    case Some(t) =>
      if t in inner then
        e.Recursion? && |e.stack| == |inner| && forall i :: 0 <= i < |inner| ==> e.stack[i] == inner[i].name
      else if t !in cfg then e == NotFound(t.name)
      else t in slots && HasResult(slots[t], Err(e))
  }

  /** The error of a store is what its first bad reference gives, or its own if it has none. */
  ghost predicate Decides(cfg: Config, slots: map<Key, Slot>, inner: seq<Key>, k: Key, e: Error)
    requires k in cfg
  {
    || (exists i: nat :: FirstBad(cfg, cfg[k].refs, i) && Gives(cfg, slots, inner, cfg[k].refs[i], e))
    || (&& (forall i :: 0 <= i < |cfg[k].refs| ==> !BadRef(cfg, cfg[k].refs[i]))
        && cfg[k].fails && e == Failed(k.name))
  }

  lemma DecidesStays(cfg: Config, slots: map<Key, Slot>, slots': map<Key, Slot>, inner: seq<Key>, k: Key, e: Error)
    requires k in cfg && Decides(cfg, slots, inner, k, e)
    requires forall t, r :: t in slots && HasResult(slots[t], r) ==> t in slots' && HasResult(slots'[t], r)
    ensures Decides(cfg, slots', inner, k, e)
  {
    if i: nat :| FirstBad(cfg, cfg[k].refs, i) && Gives(cfg, slots, inner, cfg[k].refs[i], e) {
      assert Gives(cfg, slots', inner, cfg[k].refs[i], e);
    }
  }

  /** A store on the stack of one that refers to it cannot be built. */
  lemma StackNotGood(cfg: Config, inner: seq<Key>, t: Key)
    requires inner != [] && Path(cfg, inner) && t in inner && Edge(cfg, inner[|inner| - 1], t)
    ensures !Good(cfg, t)
  {
    var m :| 0 <= m < |inner| && inner[m] == t;
    SubPath(cfg, inner, m, |inner|);
    PathSnoc(cfg, inner[m..|inner|], t);
    var p := inner[m..|inner|] + [t];
    forall n: nat ensures !GoodWithin(cfg, t, n) { CycleNotWithin(cfg, p, n); }
  }

  /** What the finished call for the reference at `i` says about it. */
  lemma KidGives(cfg: Config, s: State, c: nat, i: nat)
    requires Inv(cfg, s) && c < |s.calls| && s.calls[c].phase.Building? && s.calls[c].Wanted().Some?
    requires i < |s.calls[c].phase.kids|
    requires s.calls[c].phase.kids[i] < |s.calls| && s.calls[s.calls[c].phase.kids[i]].Finished()
    ensures var k, out := s.calls[c].Wanted().value, s.calls[s.calls[c].phase.kids[i]].Outcome();
            && k in cfg && i < |cfg[k].refs|
            && (out.Ok? ==> !BadRef(cfg, cfg[k].refs[i]))
            && (out.Err? ==> BadRef(cfg, cfg[k].refs[i])
                             && Gives(cfg, s.slots, s.calls[c].stack + [k], cfg[k].refs[i], out.error))
  {
    var call := s.calls[c];
    KidVerdict(cfg, s, c, i);
    assert CallOk(cfg, s, call);
    var k, kid := call.Wanted().value, s.calls[call.phase.kids[i]];
    assert KidOk(s, call, k, cfg[k], i, call.phase.kids[i]);
    assert CallOk(cfg, s, kid);
    if kid.Outcome().Err? && kid.Wanted().Some? {
      var t := kid.Wanted().value;
      assert Edge(cfg, k, t);
      if t in kid.stack {
        StackNotGood(cfg, kid.stack, t);
      } else if t in cfg {
        assert SlotOk(cfg, s, t);
        ExplainsNotGood(cfg, t, kid.Outcome().error);
      }
    }
  }

  lemma FinishDecides(cfg: Config, s: State, c: nat)
    requires Inv(cfg, s) && Enabled(s, Finish(c))
    ensures var k := s.calls[c].Wanted().value;
            var own := if s.calls[c].phase.builder.fails then Err(Failed(k.name)) else Ok(c);
            var r := JoinOutcome(s, s.calls[c].phase.kids, own);
            k in cfg && (r.Err? ==> Decides(cfg, s.slots, s.calls[c].stack + [k], k, r.error))
  {
    var call := s.calls[c];
    assert CallOk(cfg, s, call);
    var k, kids := call.Wanted().value, call.phase.kids;
    var own := if call.phase.builder.fails then Err(Failed(k.name)) else Ok(c);
    JoinOutcomeIs(s, kids, own);
    var r := JoinOutcome(s, kids, own);
    if i: nat :| FirstFailure(s, kids, i, r) {
      forall j | 0 <= j <= i ensures j < i ==> !BadRef(cfg, cfg[k].refs[j]) { KidGives(cfg, s, c, j); }
      KidGives(cfg, s, c, i);
      assert FirstBad(cfg, cfg[k].refs, i);
    } else {
      forall j | 0 <= j < |kids| ensures !BadRef(cfg, cfg[k].refs[j]) { KidGives(cfg, s, c, j); }
    }
  }

  /** The call built `k` with the given error, which is the one its references decide. */
  ghost predicate DecidedBy(cfg: Config, s: State, c: nat, k: Key, e: Error) {
    && c < |s.calls| && s.calls[c].Wanted() == Some(k) && s.calls[c].phase == Built(Err(e))
    && k in cfg && Decides(cfg, s.slots, s.calls[c].stack + [k], k, e)
  }

  ghost predicate Decided(cfg: Config, s: State, k: Key, e: Error) {
    exists c: nat :: DecidedBy(cfg, s, c, k, e)
  }

  ghost predicate AllDecided(cfg: Config, s: State) {
    forall k, e {:trigger Decided(cfg, s, k, e)} ::
      k in s.slots && s.slots[k] == InProgress(Some(Err(e))) ==> Decided(cfg, s, k, e)
  }

  lemma DecidedStays(cfg: Config, s: State, s': State, k: Key, e: Error)
    requires Preserved(s, s') && Decided(cfg, s, k, e) && forall t :: t in s.slots ==> !s.slots[t].Done?
    ensures Decided(cfg, s', k, e)
  {
    var c: nat :| DecidedBy(cfg, s, c, k, e);
    DecidesStays(cfg, s.slots, s'.slots, s.calls[c].stack + [k], k, e);
    assert DecidedBy(cfg, s', c, k, e);
  }

  lemma DecidedStep(cfg: Config, s: State, st: Step)
    requires Inv(cfg, s) && AllDecided(cfg, s) && Enabled(s, st)
    ensures AllDecided(cfg, Apply(s, st))
  {
    var s' := Apply(s, st);
    StepInv(cfg, s, st);
    StepPreserves(cfg, s, st);
    forall t | t in s.slots ensures !s.slots[t].Done? { assert SlotOk(cfg, s, t); }
    forall k, e | k in s'.slots && s'.slots[k] == InProgress(Some(Err(e))) ensures Decided(cfg, s', k, e) {
      if s.slots[k] == s'.slots[k] {
        DecidedStays(cfg, s, s', k, e);
      } else {
        FinishedSlot(cfg, s, st, k, Err(e));
        FinishDecides(cfg, s, st.c);
        DecidesStays(cfg, s.slots, s'.slots, s.calls[st.c].stack + [k], k, e);
        assert DecidedBy(cfg, s', st.c, k, e);
      }
    }
  }

  /** Only the end of its builder publishes a store. */
  lemma FinishedSlot(cfg: Config, s: State, st: Step, k: Key, r: Result)
    requires Inv(cfg, s) && Enabled(s, st) && OnlyMoves(s, Apply(s, st), st.c)
    requires k in s.slots && s.slots[k] != Apply(s, st).slots[k] && Apply(s, st).slots[k] == InProgress(Some(r))
    ensures st.Finish? && s.calls[st.c].Wanted() == Some(k) && Apply(s, st).calls[st.c].phase == Built(r)
    ensures var own := if s.calls[st.c].phase.builder.fails then Err(Failed(k.name)) else Ok(st.c);
            r == JoinOutcome(s, s.calls[st.c].phase.kids, own)
  {
    assert CallOk(cfg, s, s.calls[st.c]);
  }

  lemma {:induction false} DecidedRun(cfg: Config, s: State, steps: seq<Step>)
    requires Inv(cfg, s) && AllDecided(cfg, s) && IsRun(s, steps)
    ensures AllDecided(cfg, After(s, steps))
    decreases |steps|
  {
    if steps != [] {
      StepInv(cfg, s, steps[0]);
      DecidedStep(cfg, s, steps[0]);
      DecidedRun(cfg, Apply(s, steps[0]), steps[1..]);
    }
  }

  /** In every interleaving the error of a store is what its first bad reference gives. */
  lemma ErrorDecided(cfg: Config, tops: seq<Key>, s: State, k: Key, e: Error)
    requires Reachable(cfg, tops, s) && k in s.slots && s.slots[k] == InProgress(Some(Err(e)))
    ensures Decided(cfg, s, k, e)
  {
    InitInv(cfg, tops);
    var s0 := Init(cfg, tops);
    var steps :| IsRun(s0, steps) && After(s0, steps) == s;
    DecidedRun(cfg, s0, steps);
  }

  /** The outcome of a build does not depend on the schedule: whatever else runs
      concurrently, a finished build succeeded exactly when its store is good. An error is
      explained by a path of references, and it is the one that the first bad reference of the
      store gives. */
  lemma BuildVerdict(cfg: Config, tops: seq<Key>, s: State, i: nat)
    requires Reachable(cfg, tops, s) && i < |tops|
    requires i < |s.calls| && s.calls[i].Finished()
    ensures s.calls[i].Outcome().Ok? <==> Good(cfg, tops[i])
    ensures s.calls[i].Outcome().Err? ==> Explains(cfg, tops[i], s.calls[i].Outcome().error)
    ensures s.calls[i].Outcome().Err? ==>
              if tops[i] in cfg then Decided(cfg, s, tops[i], s.calls[i].Outcome().error)
              else s.calls[i].Outcome().error == NotFound(tops[i].name)
  {
    ReachableInv(cfg, tops, s);
    TopRequest(cfg, tops, s, i);
    assert CallOk(cfg, s, s.calls[i]);
    if tops[i] in cfg {
      assert SlotOk(cfg, s, tops[i]);
      if s.calls[i].Outcome().Err? { ErrorDecided(cfg, tops, s, tops[i], s.calls[i].Outcome().error); }
    } else {
      assert PathFrom(cfg, tops[i], [tops[i]]) && Blames(cfg, [tops[i]], NotFound(tops[i].name));
    }
    if s.calls[i].Outcome().Err? {
      ExplainsNotGood(cfg, tops[i], s.calls[i].Outcome().error);
    }
  }

  /** Two finished builds of the same store return the very same instance or error. */
  lemma BuildsAgree(cfg: Config, tops: seq<Key>, s: State, i: nat, j: nat)
    requires Reachable(cfg, tops, s) && i < |tops| && j < |tops| && tops[i] == tops[j]
    requires i < |s.calls| && s.calls[i].Finished() && j < |s.calls| && s.calls[j].Finished()
    ensures s.calls[i].Outcome() == s.calls[j].Outcome()
  {
    ReachableInv(cfg, tops, s);
    TopRequest(cfg, tops, s, i);
    TopRequest(cfg, tops, s, j);
    assert CallOk(cfg, s, s.calls[i]) && CallOk(cfg, s, s.calls[j]);
  }

  // ---------------------------------------------------------------- termination

  function Potential(call: Call): nat {
    match call.phase
    case Fresh => 3
    case Waiting => 1
    case Building(b, kids) => if |kids| < |b.refs| then 1 + 5 * (|b.refs| - |kids|) else 1
    case Built(_) => 0
    case Returned(_) => 0
  }

  ghost function Total(calls: seq<Call>): nat {
    if calls == [] then 0 else Total(calls[..|calls| - 1]) + Potential(calls[|calls| - 1])
  }

  lemma {:induction false} TotalUpdate(calls: seq<Call>, c: nat, x: Call)
    requires c < |calls|
    ensures Total(calls[c := x]) + Potential(calls[c]) == Total(calls) + Potential(x)
    decreases |calls|
  {
    var n := |calls| - 1;
    if c == n {
      assert calls[c := x][..n] == calls[..n];
    } else {
      assert calls[c := x][..n] == calls[..n][c := x];
      TotalUpdate(calls[..n], c, x);
    }
  }

  ghost function PendingKeys(s: State): set<Key> {
    set k | k in s.slots && s.slots[k].Pending?
  }

  /** Work left, when no builder has more than `width` references. */
  ghost function Measure(s: State, width: nat): nat {
    |PendingKeys(s)| * (5 * width) + Total(s.calls)
  }

  ghost predicate Width(cfg: Config, width: nat) {
    forall k :: k in cfg ==> |cfg[k].refs| <= width
  }

  lemma TakenKey(s: State, s': State, k: Key)
    requires k in s.slots && s.slots[k].Pending? && s'.slots == s.slots[k := InProgress(None)]
    ensures |PendingKeys(s)| == |PendingKeys(s')| + 1
  {
    assert PendingKeys(s) == PendingKeys(s') + {k};
  }

  lemma MulStep(n: nat, m: nat)
    ensures (n + 1) * m == n * m + m
  {
  }

  lemma TakeDecreases(cfg: Config, s: State, c: nat, k: Key, width: nat)
    requires Inv(cfg, s) && Enabled(s, Start(c)) && Width(cfg, width)
    requires s.calls[c].Wanted() == Some(k) && k in s.slots && s.slots[k].Pending?
    requires ApplyStart(s, c).calls[c].phase.Building?
    ensures Measure(ApplyStart(s, c), width) < Measure(s, width)
  {
    var s' := ApplyStart(s, c);
    assert s'.calls == s.calls[c := s'.calls[c]];
    TotalUpdate(s.calls, c, s'.calls[c]);
    assert Potential(s'.calls[c]) <= 1 + 5 * width by {
      assert SlotOk(cfg, s, k);
    }
    TakenKey(s, s', k);
    MulStep(|PendingKeys(s')|, 5 * width);
  }

  lemma SpawnDecreases(s: State, c: nat, width: nat)
    requires Enabled(s, Spawn(c))
    ensures Measure(ApplySpawn(s, c), width) < Measure(s, width)
  {
    var s' := ApplySpawn(s, c);
    TotalUpdate(s.calls, c, s'.calls[c]);
    assert s'.calls[..|s.calls|] == s.calls[c := s'.calls[c]];
    assert PendingKeys(s) == PendingKeys(s');
  }

  lemma QuietDecreases(s: State, s': State, c: nat, width: nat)
    requires c < |s.calls| == |s'.calls| && s'.calls == s.calls[c := s'.calls[c]]
    requires Potential(s'.calls[c]) < Potential(s.calls[c])
    requires PendingKeys(s) == PendingKeys(s')
    ensures Measure(s', width) < Measure(s, width)
  {
    TotalUpdate(s.calls, c, s'.calls[c]);
  }

  lemma StepDecreases(cfg: Config, s: State, st: Step, width: nat)
    requires Inv(cfg, s) && Enabled(s, st) && Width(cfg, width)
    ensures Measure(Apply(s, st), width) < Measure(s, width)
  {
    var s' := Apply(s, st);
    var call := s.calls[st.c];
    assert CallOk(cfg, s, call);
    if st.Spawn? {
      SpawnDecreases(s, st.c, width);
    } else if st.Start? && s'.calls[st.c].phase.Building? {
      TakeDecreases(cfg, s, st.c, call.Wanted().value, width);
    } else {
      if st.Start? && call.Wanted().Some? && call.Wanted().value in cfg {
        assert SlotOk(cfg, s, call.Wanted().value);
      }
      assert PendingKeys(s) == PendingKeys(s');
      QuietDecreases(s, s', st.c, width);
    }
  }

  lemma {:induction false} RunBound(cfg: Config, s: State, steps: seq<Step>, width: nat)
    requires Inv(cfg, s) && IsRun(s, steps) && Width(cfg, width)
    ensures |steps| <= Measure(s, width)
    decreases |steps|
  {
    if steps != [] {
      StepInv(cfg, s, steps[0]);
      StepDecreases(cfg, s, steps[0], width);
      RunBound(cfg, Apply(s, steps[0]), steps[1..], width);
    }
  }

  lemma {:induction false} FreshTotal(calls: seq<Call>)
    requires forall i :: 0 <= i < |calls| ==> calls[i].phase.Fresh?
    ensures Total(calls) == 3 * |calls|
  {
    if calls != [] { FreshTotal(calls[..|calls| - 1]); }
  }

  /** Every run is finite, on any reference graph: so many atomic steps at most. */
  lemma RunsTerminate(cfg: Config, tops: seq<Key>, steps: seq<Step>, width: nat)
    requires Width(cfg, width) && IsRun(Init(cfg, tops), steps)
    ensures |steps| <= |cfg| * (5 * width) + 3 * |tops|
  {
    var s := Init(cfg, tops);
    InitInv(cfg, tops);
    RunBound(cfg, s, steps, width);
    FreshTotal(s.calls);
    assert PendingKeys(s) == cfg.Keys;
  }

  // ------------------------------------------------------------------- deadlock

  ghost predicate Quiescent(s: State) {
    forall st :: !Enabled(s, st)
  }

  /** Nothing can move although some build has not returned. */
  ghost predicate Stuck(s: State) {
    Quiescent(s) && exists c :: 0 <= c < |s.calls| && !s.calls[c].Finished()
  }

  /** Configured stores each of which refers to another one among them. */
  ghost predicate Knot(cfg: Config, C: set<Key>) {
    && C != {}
    && C <= cfg.Keys
    && forall k {:trigger LinksWithin(cfg, C, k)} :: k in C ==> LinksWithin(cfg, C, k)
  }

  ghost predicate LinksWithin(cfg: Config, C: set<Key>, k: Key) {
    exists t :: t in C && t != k && Edge(cfg, k, t)
  }

  ghost function Unpublished(s: State): set<Key> {
    set k | k in s.slots && s.slots[k] == InProgress(None)
  }

  /** The call that runs the builder of a store under construction. */
  ghost function BuilderOf(cfg: Config, s: State, k: Key): (c: nat)
    requires Inv(cfg, s) && k in Unpublished(s)
    ensures IsBuilder(s, c, k)
  {
    assert SlotOk(cfg, s, k);
    var c: nat :| IsBuilder(s, c, k); c
  }

  lemma OnlyBuilder(cfg: Config, s: State, k: Key, c: nat)
    requires Inv(cfg, s) && IsBuilder(s, c, k)
    ensures k in Unpublished(s) && BuilderOf(cfg, s, k) == c
  {
    assert CallOk(cfg, s, s.calls[c]);
    assert s.calls[c].Started(k) && s.calls[BuilderOf(cfg, s, k)].Started(k);
  }

  /** When nothing can move, an unfinished call wants a store under construction. */
  lemma StuckCall(cfg: Config, s: State, c: nat)
    requires Inv(cfg, s) && Quiescent(s) && c < |s.calls| && !s.calls[c].Finished()
    ensures s.calls[c].Wanted().Some?
    ensures s.calls[c].Wanted().value in Unpublished(s)
    ensures s.calls[c].Wanted().value !in s.calls[c].stack
  {
    assert CallOk(cfg, s, s.calls[c]);
    assert !Enabled(s, Start(c));
    assert !Enabled(s, Wake(c));
  }

  lemma StuckStore(cfg: Config, s: State, k: Key) returns (t: Key)
    requires Inv(cfg, s) && Quiescent(s) && k in Unpublished(s)
    ensures t in Unpublished(s) && t != k && Edge(cfg, k, t)
    ensures t !in s.calls[BuilderOf(cfg, s, k)].stack
  {
    var c := BuilderOf(cfg, s, k);
    var call := s.calls[c];
    assert CallOk(cfg, s, call);
    var kids := call.phase.kids;
    assert !Enabled(s, Spawn(c));
    assert !Enabled(s, Finish(c));
    forall j | 0 <= j < |kids| ensures kids[j] < |s.calls| {
      assert KidOk(s, call, k, cfg[k], j, kids[j]);
    }
    var i :| 0 <= i < |kids| && !s.calls[kids[i]].Finished();
    assert KidOk(s, call, k, cfg[k], i, kids[i]);
    StuckCall(cfg, s, kids[i]);
    t := s.calls[kids[i]].Wanted().value;
    assert Target(cfg[k].refs[i]) == Some(t);
  }

  /** A stuck state has a knot in its configuration. */
  lemma StuckMakesKnot(cfg: Config, s: State)
    requires Inv(cfg, s) && Stuck(s)
    ensures Knot(cfg, Unpublished(s))
  {
    var c :| 0 <= c < |s.calls| && !s.calls[c].Finished();
    StuckCall(cfg, s, c);
    forall k | k in Unpublished(s) ensures LinksWithin(cfg, Unpublished(s), k) {
      var t := StuckStore(cfg, s, k);
    }
  }

  lemma {:induction false} RunAppend(s: State, a: seq<Step>, b: seq<Step>)
    requires IsRun(s, a) && IsRun(After(s, a), b)
    ensures IsRun(s, a + b) && After(s, a + b) == After(After(s, a), b)
    decreases |a|
  {
    if a == [] {
      assert a + b == b;
    } else {
      RunAppend(Apply(s, a[0]), a[1..], b);
      assert (a + b)[0] == a[0] && (a + b)[1..] == a[1..] + b;
    }
  }

  /** Every run can be extended until nothing moves. */
  lemma {:induction false} MaximalRun(cfg: Config, s: State, width: nat) returns (steps: seq<Step>)
    requires Inv(cfg, s) && Width(cfg, width)
    ensures IsRun(s, steps) && Quiescent(After(s, steps))
    decreases Measure(s, width)
  {
    if st :| Enabled(s, st) {
      StepInv(cfg, s, st);
      StepDecreases(cfg, s, st, width);
      var rest := MaximalRun(cfg, Apply(s, st), width);
      steps := [st] + rest;
      assert steps[1..] == rest;
    } else {
      steps := [];
    }
  }

  lemma {:induction false} WidthExists(cfg: Config) returns (width: nat)
    ensures Width(cfg, width)
    decreases |cfg|
  {
    if cfg == map[] {
      width := 0;
    } else {
      var k :| k in cfg;
      var rest := map j | j in cfg && j != k :: cfg[j];
      assert rest.Keys == cfg.Keys - {k};
      var w := WidthExists(rest);
      width := if w < |cfg[k].refs| then |cfg[k].refs| else w;
      assert forall j :: j in cfg && j != k ==> j in rest && cfg[j] == rest[j];
    }
  }

  // ------------------------------------------------- deadlock of given builds

  /** One store of a tangle: `p` leads to it, continuing the path of the store before it
      or starting at a top-level build, and it refers to a store of the tangle off `p`. */
  ghost predicate Tangled(cfg: Config, tops: seq<Key>, path: map<Key, seq<Key>>, k: Key)
    requires k in path
  {
    var p := path[k];
    && k in cfg && p != [] && p[|p| - 1] == k && NoRepeat(p)
    && (if |p| == 1 then k in tops else
          var parent := p[|p| - 2];
          parent in path && path[parent] == p[..|p| - 1] && Edge(cfg, parent, k))
    && LinksOff(cfg, path, k)
  }

  ghost predicate LinksOff(cfg: Config, path: map<Key, seq<Key>>, k: Key)
    requires k in path
  {
    exists t :: t in path && t !in path[k] && Edge(cfg, k, t)
  }

  /** Stores that the given builds can reach along paths of references, one path for each,
      such that each refers to another of them that is not on its own path. */
  ghost predicate Tangle(cfg: Config, tops: seq<Key>, path: map<Key, seq<Key>>) {
    && path != map[]
    && forall k {:trigger Tangled(cfg, tops, path, k)} :: k in path ==> Tangled(cfg, tops, path, k)
  }

  ghost predicate NoRepeat(p: seq<Key>) {
    forall i, j :: 0 <= i < j < |p| ==> p[i] != p[j]
  }

  // ........ from a stuck state to a tangle

  /** Call `c` runs the builder that asked for call `d`. */
  ghost predicate ParentOf(s: State, c: nat, d: nat) {
    && c < |s.calls| && d < |s.calls|
    && s.calls[c].phase.Building? && d in s.calls[c].phase.kids
    && var stack := s.calls[d].stack;
       stack != [] && s.calls[c].Wanted() == Some(stack[|stack| - 1]) && s.calls[c].stack == stack[..|stack| - 1]
  }

  /** A call descends from a top-level build; until it has finished, the builder that asked
      for it has not. */
  ghost predicate LineOk(tops: seq<Key>, s: State, d: nat)
    requires d < |s.calls|
  {
    && NoRepeat(s.calls[d].stack)
    && if s.calls[d].stack == [] then s.calls[d].request.Direct? && s.calls[d].request.key in tops
       else s.calls[d].Finished() || exists c: nat :: ParentOf(s, c, d)
  }

  ghost predicate Lineage(tops: seq<Key>, s: State) {
    forall d: nat {:trigger LineOk(tops, s, d)} :: d < |s.calls| ==> LineOk(tops, s, d)
  }

  lemma LineKept(cfg: Config, tops: seq<Key>, s: State, st: Step, d: nat)
    requires Inv(cfg, s) && Enabled(s, st) && OnlyMoves(s, Apply(s, st), st.c)
    requires d < |s.calls| && LineOk(tops, s, d)
    ensures LineOk(tops, Apply(s, st), d)
  {
    var s' := Apply(s, st);
    assert s'.calls[d].stack == s.calls[d].stack && s'.calls[d].request == s.calls[d].request;
    if s.calls[d].stack != [] && !s.calls[d].Finished() {
      var c: nat :| ParentOf(s, c, d);
      if st != Finish(c) {
        assert ParentOf(s', c, d);
      }
    }
  }

  lemma LineSpawned(cfg: Config, tops: seq<Key>, s: State, c: nat)
    requires Inv(cfg, s) && Enabled(s, Spawn(c)) && LineOk(tops, s, c)
    ensures |ApplySpawn(s, c).calls| == |s.calls| + 1 && LineOk(tops, ApplySpawn(s, c), |s.calls|)
  {
    var s' := ApplySpawn(s, c);
    assert CallOk(cfg, s, s.calls[c]);
    assert ParentOf(s', c, |s.calls|);
  }

  lemma CallCount(s: State, st: Step)
    requires Enabled(s, st)
    ensures |Apply(s, st).calls| == |s.calls| + if st.Spawn? then 1 else 0
  {
  }

  lemma LineStep(cfg: Config, tops: seq<Key>, s: State, st: Step)
    requires Inv(cfg, s) && Lineage(tops, s) && Enabled(s, st) && OnlyMoves(s, Apply(s, st), st.c)
    ensures Lineage(tops, Apply(s, st))
  {
    var s' := Apply(s, st);
    assert LineOk(tops, s, st.c);
    CallCount(s, st);
    if st.Spawn? { LineSpawned(cfg, tops, s, st.c); }
    forall d: nat | d < |s'.calls| ensures LineOk(tops, s', d) {
      if d < |s.calls| {
        assert LineOk(tops, s, d);
        LineKept(cfg, tops, s, st, d);
      }
    }
  }

  lemma {:induction false} LineRun(cfg: Config, tops: seq<Key>, s: State, steps: seq<Step>)
    requires Inv(cfg, s) && Lineage(tops, s) && IsRun(s, steps)
    ensures Lineage(tops, After(s, steps))
    decreases |steps|
  {
    if steps != [] {
      StepInv(cfg, s, steps[0]);
      LineStep(cfg, tops, s, steps[0]);
      LineRun(cfg, tops, Apply(s, steps[0]), steps[1..]);
    }
  }

  lemma ReachableLineage(cfg: Config, tops: seq<Key>, s: State)
    requires Reachable(cfg, tops, s)
    ensures Lineage(tops, s)
  {
    var s0 := Init(cfg, tops);
    var steps :| IsRun(s0, steps) && After(s0, steps) == s;
    InitInv(cfg, tops);
    forall d: nat | d < |s0.calls| ensures LineOk(tops, s0, d) {
      assert s0.calls[d] == Call(Direct(tops[d]), [], Fresh);
    }
    LineRun(cfg, tops, s0, steps);
  }

  /** Each store under construction, with the stack its builder runs on. */
  ghost function BuildPaths(cfg: Config, s: State): map<Key, seq<Key>>
    requires Inv(cfg, s)
  {
    map k | k in Unpublished(s) :: s.calls[BuilderOf(cfg, s, k)].stack + [k]
  }

  lemma StuckParent(cfg: Config, tops: seq<Key>, s: State, k: Key)
    requires Inv(cfg, s) && Lineage(tops, s) && k in Unpublished(s) && s.calls[BuilderOf(cfg, s, k)].stack != []
    ensures var stack := s.calls[BuilderOf(cfg, s, k)].stack;
            var parent := stack[|stack| - 1];
            parent in BuildPaths(cfg, s) && BuildPaths(cfg, s)[parent] == stack && Edge(cfg, parent, k)
  {
    var c := BuilderOf(cfg, s, k);
    var call := s.calls[c];
    assert LineOk(tops, s, c) && CallOk(cfg, s, call);
    var d: nat :| ParentOf(s, d, c);
    OnlyBuilder(cfg, s, call.stack[|call.stack| - 1], d);
    GrowPath(cfg, s, call, k);
    var p := call.stack + [k];
    assert EdgeAt(cfg, p, |p| - 1);
  }

  lemma StuckTangled(cfg: Config, tops: seq<Key>, s: State, k: Key)
    requires Inv(cfg, s) && Lineage(tops, s) && Quiescent(s) && k in Unpublished(s)
    ensures Tangled(cfg, tops, BuildPaths(cfg, s), k)
  {
    var path, c := BuildPaths(cfg, s), BuilderOf(cfg, s, k);
    var stack := s.calls[c].stack;
    assert LineOk(tops, s, c) && CallOk(cfg, s, s.calls[c]);
    var t := StuckStore(cfg, s, k);
    assert t in path && t !in path[k] && Edge(cfg, k, t);
    if stack != [] {
      StuckParent(cfg, tops, s, k);
      assert (stack + [k])[..|stack|] == stack;
    }
  }

  /** A state in which the given builds are stuck has a tangle of the stores under construction. */
  lemma StuckMakesTangle(cfg: Config, tops: seq<Key>, s: State)
    requires Reachable(cfg, tops, s) && Stuck(s)
    ensures Inv(cfg, s) && Tangle(cfg, tops, BuildPaths(cfg, s))
  {
    ReachableInv(cfg, tops, s);
    ReachableLineage(cfg, tops, s);
    var c :| 0 <= c < |s.calls| && !s.calls[c].Finished();
    StuckCall(cfg, s, c);
    assert s.calls[c].Wanted().value in BuildPaths(cfg, s);
    forall k | k in BuildPaths(cfg, s) ensures Tangled(cfg, tops, BuildPaths(cfg, s), k) {
      StuckTangled(cfg, tops, s, k);
    }
  }

  // ........ from a tangle to a stuck state

  /** The call asks a store of the tangle, from its path, for one off that path. */
  ghost predicate Linked(path: map<Key, seq<Key>>, call: Call) {
    && call.stack != [] && call.stack[|call.stack| - 1] in path && path[call.stack[|call.stack| - 1]] == call.stack
    && call.Wanted().Some? && call.Wanted().value in path && call.Wanted().value !in call.stack
  }

  /** All stores of the tangle are under construction along their paths, and no call from
      one of them for one off its path has been answered. */
  ghost predicate Held(path: map<Key, seq<Key>>, s: State) {
    && path.Keys <= s.slots.Keys
    && (forall k :: k in path ==> s.slots[k] == InProgress(None))
    && (forall c: nat, k :: k in path && IsBuilder(s, c, k) ==> s.calls[c].stack + [k] == path[k])
    && (forall c {:trigger Linked(path, s.calls[c])} :: 0 <= c < |s.calls| && Linked(path, s.calls[c]) ==>
          !s.calls[c].Finished())
  }

  lemma HeldBlocksFinish(cfg: Config, tops: seq<Key>, path: map<Key, seq<Key>>, s: State, c: nat, k: Key)
    requires Inv(cfg, s) && Tangle(cfg, tops, path) && Held(path, s) && k in path && IsBuilder(s, c, k)
    ensures !Enabled(s, Finish(c))
  {
    var call := s.calls[c];
    assert CallOk(cfg, s, call) && Tangled(cfg, tops, path, k);
    var t :| t in path && t !in path[k] && Edge(cfg, k, t);
    var i :| 0 <= i < |cfg[k].refs| && Target(cfg[k].refs[i]) == Some(t);
    if |call.phase.kids| == |cfg[k].refs| {
      assert KidOk(s, call, k, cfg[k], i, call.phase.kids[i]);
      assert Linked(path, s.calls[call.phase.kids[i]]);
    }
  }

  lemma HeldSlot(cfg: Config, tops: seq<Key>, path: map<Key, seq<Key>>, s: State, st: Step, k: Key)
    requires Inv(cfg, s) && Tangle(cfg, tops, path) && Held(path, s) && Enabled(s, st) && k in path
    requires OnlyMoves(s, Apply(s, st), st.c)
    ensures k in Apply(s, st).slots && Apply(s, st).slots[k] == InProgress(None)
  {
    if st.Finish? && s.calls[st.c].Wanted() == Some(k) {
      HeldBlocksFinish(cfg, tops, path, s, st.c, k);
    }
  }

  lemma HeldMover(cfg: Config, tops: seq<Key>, path: map<Key, seq<Key>>, s: State, st: Step)
    requires Inv(cfg, s) && Tangle(cfg, tops, path) && Held(path, s) && Enabled(s, st)
    requires OnlyMoves(s, Apply(s, st), st.c)
    ensures var call := Apply(s, st).calls[st.c];
            && (Linked(path, call) ==> !call.Finished())
            && (call.phase.Building? && call.Wanted().Some? && call.Wanted().value in path ==>
                  call.stack + [call.Wanted().value] == path[call.Wanted().value])
  {
    var call := s.calls[st.c];
    assert CallOk(cfg, s, call);
    if call.Wanted().Some? && call.Wanted().value in path {
      var k := call.Wanted().value;
      if call.phase.Building? {
        assert IsBuilder(s, st.c, k);
        HeldBlocksFinish(cfg, tops, path, s, st.c, k);
      } else {
        assert s.slots[k] == InProgress(None);
      }
    }
  }

  lemma HeldStep(cfg: Config, tops: seq<Key>, path: map<Key, seq<Key>>, s: State, st: Step)
    requires Inv(cfg, s) && Tangle(cfg, tops, path) && Held(path, s) && Enabled(s, st)
    requires OnlyMoves(s, Apply(s, st), st.c)
    ensures Held(path, Apply(s, st))
  {
    var s' := Apply(s, st);
    forall k | k in path ensures k in s'.slots && s'.slots[k] == InProgress(None) {
      HeldSlot(cfg, tops, path, s, st, k);
    }
    HeldMover(cfg, tops, path, s, st);
    forall c: nat, k | k in path && IsBuilder(s', c, k) ensures s'.calls[c].stack + [k] == path[k] {
      if c != st.c { assert IsBuilder(s, c, k); }
    }
    forall c: nat | c < |s'.calls| && Linked(path, s'.calls[c]) ensures !s'.calls[c].Finished() {
      if c < |s.calls| && c != st.c { assert Linked(path, s.calls[c]); }
    }
  }

  lemma {:induction false} HeldRun(cfg: Config, tops: seq<Key>, path: map<Key, seq<Key>>, s: State, steps: seq<Step>)
    requires Inv(cfg, s) && Tangle(cfg, tops, path) && Held(path, s) && IsRun(s, steps)
    ensures Inv(cfg, After(s, steps)) && Held(path, After(s, steps))
    decreases |steps|
  {
    if steps != [] {
      StepInv(cfg, s, steps[0]);
      HeldStep(cfg, tops, path, s, steps[0]);
      HeldRun(cfg, tops, path, Apply(s, steps[0]), steps[1..]);
    }
  }

  /** The call runs its builder along the path of its store, all references asked for. */
  ghost predicate Standing(path: map<Key, seq<Key>>, W: set<Key>, call: Call) {
    && call.phase.Building? && |call.phase.kids| == |call.phase.builder.refs|
    && call.Wanted().Some? && call.Wanted().value in W && call.Wanted().value in path
    && call.stack + [call.Wanted().value] == path[call.Wanted().value]
  }

  /** Exactly the stores of `W` are under construction, each along its path; all other calls
      are fresh. */
  ghost predicate Planted(cfg: Config, tops: seq<Key>, path: map<Key, seq<Key>>, W: set<Key>, s: State) {
    && Inv(cfg, s)
    && (forall k :: k in cfg ==> s.slots[k] == if k in W then InProgress(None) else Pending(cfg[k]))
    && |tops| <= |s.calls| && (forall i :: 0 <= i < |tops| ==> s.calls[i].request == Direct(tops[i]))
    && forall c {:trigger s.calls[c]} :: 0 <= c < |s.calls| ==> s.calls[c].phase.Fresh? || Standing(path, W, s.calls[c])
  }

  lemma OneStep(s: State, st: Step)
    requires Enabled(s, st)
    ensures IsRun(s, [st]) && After(s, [st]) == Apply(s, st)
  {
    assert [st][1..] == [];
  }

  /** The fresh call that can take the next store along its path. */
  lemma NextCall(cfg: Config, tops: seq<Key>, path: map<Key, seq<Key>>, W: set<Key>, s: State, k: Key) returns (c: nat)
    requires Tangle(cfg, tops, path) && Planted(cfg, tops, path, W, s) && k in path && k !in W
    requires |path[k]| > 1 ==> path[k][|path[k]| - 2] in W
    ensures c < |s.calls| && s.calls[c].phase.Fresh? && s.calls[c].Wanted() == Some(k)
    ensures s.calls[c].stack + [k] == path[k] && k !in s.calls[c].stack
  {
    var p := path[k];
    assert Tangled(cfg, tops, path, k);
    if |p| == 1 {
      c :| 0 <= c < |tops| && tops[c] == k;
      assert CallOk(cfg, s, s.calls[c]);
    } else {
      var parent := p[|p| - 2];
      assert SlotOk(cfg, s, parent);
      var d: nat :| IsBuilder(s, d, parent);
      var call := s.calls[d];
      assert CallOk(cfg, s, call) && Standing(path, W, call);
      var i :| 0 <= i < |cfg[parent].refs| && Target(cfg[parent].refs[i]) == Some(k);
      c := call.phase.kids[i];
      assert KidOk(s, call, parent, cfg[parent], i, c);
    }
  }

  /** The call at `c` has asked for some of its references; everything else is planted. */
  ghost predicate Planting(cfg: Config, tops: seq<Key>, path: map<Key, seq<Key>>, W: set<Key>, s: State, c: nat, k: Key)
  {
    && Inv(cfg, s) && k in W && k in path && IsBuilder(s, c, k) && s.calls[c].stack + [k] == path[k]
    && (forall k :: k in cfg ==> s.slots[k] == if k in W then InProgress(None) else Pending(cfg[k]))
    && |tops| <= |s.calls| && (forall i :: 0 <= i < |tops| ==> s.calls[i].request == Direct(tops[i]))
    && forall d {:trigger s.calls[d]} :: 0 <= d < |s.calls| && d != c ==>
         s.calls[d].phase.Fresh? || Standing(path, W, s.calls[d])
  }

  lemma PlantingSpawn(cfg: Config, tops: seq<Key>, path: map<Key, seq<Key>>, W: set<Key>, s: State, c: nat, k: Key)
    requires Planting(cfg, tops, path, W, s, c, k) && Enabled(s, Spawn(c))
    ensures Planting(cfg, tops, path, W, Apply(s, Spawn(c)), c, k)
    ensures var phase, phase' := s.calls[c].phase, Apply(s, Spawn(c)).calls[c].phase;
            phase'.Building? && phase'.builder == phase.builder && |phase'.kids| == |phase.kids| + 1
  {
    SpawnInv(cfg, s, c);
    var s' := Apply(s, Spawn(c));
    forall d | 0 <= d < |s'.calls| && d != c ensures s'.calls[d].phase.Fresh? || Standing(path, W, s'.calls[d]) {
      if d < |s.calls| { assert s'.calls[d] == s.calls[d]; }
    }
  }

  /** Asks for all references of the builder at `c`. */
  lemma {:induction false} SpawnAll(cfg: Config, tops: seq<Key>, path: map<Key, seq<Key>>, W: set<Key>, s: State,
                                    c: nat, k: Key)
    returns (steps: seq<Step>)
    requires Planting(cfg, tops, path, W, s, c, k) && |s.calls[c].phase.kids| <= |s.calls[c].phase.builder.refs|
    ensures IsRun(s, steps) && Planted(cfg, tops, path, W, After(s, steps))
    decreases |s.calls[c].phase.builder.refs| - |s.calls[c].phase.kids|
  {
    if |s.calls[c].phase.kids| == |s.calls[c].phase.builder.refs| {
      steps := [];
      assert Standing(path, W, s.calls[c]);
    } else {
      PlantingSpawn(cfg, tops, path, W, s, c, k);
      var rest := SpawnAll(cfg, tops, path, W, Apply(s, Spawn(c)), c, k);
      steps := [Spawn(c)] + rest;
      assert steps[1..] == rest;
    }
  }

  lemma TakeNext(cfg: Config, tops: seq<Key>, path: map<Key, seq<Key>>, W: set<Key>, s: State, k: Key, c: nat)
    requires Planted(cfg, tops, path, W, s) && k in path && k in cfg && k !in W
    requires c < |s.calls| && s.calls[c].phase.Fresh? && s.calls[c].Wanted() == Some(k)
    requires s.calls[c].stack + [k] == path[k] && k !in s.calls[c].stack
    ensures Enabled(s, Start(c)) && Planting(cfg, tops, path, W + {k}, Apply(s, Start(c)), c, k)
    ensures Apply(s, Start(c)).calls[c].phase == Building(cfg[k], [])
  {
    StartInv(cfg, s, c);
    var s' := Apply(s, Start(c));
    assert s'.calls[c].phase == Building(cfg[k], []);
    assert IsBuilder(s', c, k);
    forall d | 0 <= d < |s'.calls| && d != c ensures s'.calls[d].phase.Fresh? || Standing(path, W + {k}, s'.calls[d]) {
      assert s'.calls[d] == s.calls[d];
    }
  }

  lemma {:induction false} LongestPath(path: map<Key, seq<Key>>, W: set<Key>) returns (k: Key)
    requires W != {} && W <= path.Keys
    ensures k in W && forall t :: t in W ==> |path[t]| <= |path[k]|
    decreases |W|
  {
    var x :| x in W;
    if W == {x} {
      k := x;
    } else {
      assert W == W - {x} + {x};
      var y := LongestPath(path, W - {x});
      k := if |path[x]| >= |path[y]| then x else y;
    }
  }

  /** The stores before those of `W` on their paths are in `W` too. */
  ghost predicate Rooted(path: map<Key, seq<Key>>, W: set<Key>) {
    W <= path.Keys && forall k :: k in W && |path[k]| > 1 ==> path[k][|path[k]| - 2] in W
  }

  lemma RootedWithout(cfg: Config, tops: seq<Key>, path: map<Key, seq<Key>>, W: set<Key>, k: Key)
    requires Tangle(cfg, tops, path) && Rooted(path, W) && k in W && forall t :: t in W ==> |path[t]| <= |path[k]|
    ensures Rooted(path, W - {k})
    ensures |path[k]| > 1 ==> path[k][|path[k]| - 2] in W - {k}
  {
    assert Tangled(cfg, tops, path, k);
    forall t | t in W && |path[t]| > 1 ensures path[t][|path[t]| - 2] in W - {k} {
      assert Tangled(cfg, tops, path, t);
    }
  }

  /** A schedule that puts the stores of `W` under construction along their paths. */
  lemma {:induction false} Plant(cfg: Config, tops: seq<Key>, path: map<Key, seq<Key>>, W: set<Key>)
    returns (steps: seq<Step>)
    requires Tangle(cfg, tops, path) && Rooted(path, W)
    ensures IsRun(Init(cfg, tops), steps) && Planted(cfg, tops, path, W, After(Init(cfg, tops), steps))
    decreases |W|
  {
    var s0 := Init(cfg, tops);
    if W == {} {
      InitInv(cfg, tops);
      steps := [];
    } else {
      var k := LongestPath(path, W);
      RootedWithout(cfg, tops, path, W, k);
      var before := Plant(cfg, tops, path, W - {k});
      var s := After(s0, before);
      assert Tangled(cfg, tops, path, k);
      var c := NextCall(cfg, tops, path, W - {k}, s, k);
      TakeNext(cfg, tops, path, W - {k}, s, k, c);
      assert W - {k} + {k} == W;
      OneStep(s, Start(c));
      var spawns := SpawnAll(cfg, tops, path, W, Apply(s, Start(c)), c, k);
      RunAppend(s0, before, [Start(c)]);
      RunAppend(s0, before + [Start(c)], spawns);
      steps := before + [Start(c)] + spawns;
    }
  }

  lemma PlantedHeld(cfg: Config, tops: seq<Key>, path: map<Key, seq<Key>>, s: State)
    requires Tangle(cfg, tops, path) && Planted(cfg, tops, path, path.Keys, s)
    ensures Held(path, s)
  {
    forall k | k in path ensures k in s.slots && s.slots[k] == InProgress(None) {
      assert Tangled(cfg, tops, path, k);
    }
    forall c: nat, k | k in path && IsBuilder(s, c, k) ensures s.calls[c].stack + [k] == path[k] {
      assert Standing(path, path.Keys, s.calls[c]);
    }
  }

  lemma HeldUnfinished(cfg: Config, path: map<Key, seq<Key>>, s: State)
    requires Inv(cfg, s) && path != map[] && path.Keys <= cfg.Keys && Held(path, s)
    ensures exists c :: 0 <= c < |s.calls| && !s.calls[c].Finished()
  {
    var k :| k in path;
    assert SlotOk(cfg, s, k);
    var c: nat :| IsBuilder(s, c, k);
    assert !s.calls[c].Finished();
  }

  /** A tangle of the given builds can be run into a deadlock, by a schedule that suspends
      builders before they ask for their references. */
  lemma TangleDeadlocks(cfg: Config, tops: seq<Key>, path: map<Key, seq<Key>>) returns (s: State)
    requires Tangle(cfg, tops, path)
    ensures Reachable(cfg, tops, s) && Stuck(s)
  {
    forall k | k in path ensures k in cfg && (|path[k]| > 1 ==> path[k][|path[k]| - 2] in path) {
      assert Tangled(cfg, tops, path, k);
    }
    var s0 := Init(cfg, tops);
    var first := Plant(cfg, tops, path, path.Keys);
    var s1 := After(s0, first);
    PlantedHeld(cfg, tops, path, s1);
    var width := WidthExists(cfg);
    var second := MaximalRun(cfg, s1, width);
    HeldRun(cfg, tops, path, s1, second);
    RunAppend(s0, first, second);
    s := After(s1, second);
    HeldUnfinished(cfg, path, s);
  }

  /** The given builds can deadlock, under some schedule, exactly when they have a tangle.
      Schedules may suspend a builder before any of its requests: between builds that run on
      different threads this can always happen, within one build only if its builders wait
      for something before they ask for their references. */
  lemma DeadlockIffTangle(cfg: Config, tops: seq<Key>)
    ensures (exists s :: Reachable(cfg, tops, s) && Stuck(s)) <==> (exists path :: Tangle(cfg, tops, path))
  {
    if s :| Reachable(cfg, tops, s) && Stuck(s) {
      StuckMakesTangle(cfg, tops, s);
    }
    if path :| Tangle(cfg, tops, path) {
      var s := TangleDeadlocks(cfg, tops, path);
    }
  }

  // ------------------------------------------------- deadlock of some builds

  lemma {:induction false} Enumerate(C: set<Key>) returns (xs: seq<Key>)
    ensures forall k :: k in C <==> k in xs
    ensures NoRepeat(xs)
    decreases |C|
  {
    if C == {} {
      xs := [];
    } else {
      var k :| k in C;
      var rest := Enumerate(C - {k});
      xs := [k] + rest;
    }
  }

  lemma KnotTangled(cfg: Config, C: set<Key>, tops: seq<Key>, path: map<Key, seq<Key>>, k: Key)
    requires Knot(cfg, C) && k in C && k in tops && path.Keys == C && path[k] == [k]
    ensures Tangled(cfg, tops, path, k)
  {
    assert LinksWithin(cfg, C, k);
    var t :| t in C && t != k && Edge(cfg, k, t);
    assert t in path && t !in path[k];
  }

  /** With a build for each of its stores, a knot is a tangle of trivial paths. */
  lemma KnotTangle(cfg: Config, C: set<Key>, tops: seq<Key>) returns (path: map<Key, seq<Key>>)
    requires Knot(cfg, C) && forall k :: k in C ==> k in tops
    ensures Tangle(cfg, tops, path) && path.Keys == C && forall k :: k in C ==> path[k] == [k]
  {
    path := map k | k in C :: [k];
    forall k | k in path ensures Tangled(cfg, tops, path, k) {
      KnotTangled(cfg, C, tops, path, k);
    }
    var k :| k in C;
    assert k in path;
  }

  /** One concurrent build per store of a knot can deadlock. */
  lemma KnotDeadlocks(cfg: Config, C: set<Key>) returns (tops: seq<Key>, s: State)
    requires Knot(cfg, C)
    ensures Reachable(cfg, tops, s) && Stuck(s)
  {
    tops := Enumerate(C);
    var path := KnotTangle(cfg, C, tops);
    s := TangleDeadlocks(cfg, tops, path);
  }

  /** Deadlock is possible, for some choice of concurrent builds and some
      schedule, exactly when the configuration contains a knot. */
  lemma DeadlockIffKnot(cfg: Config)
    ensures (exists tops, s :: Reachable(cfg, tops, s) && Stuck(s)) <==> (exists C :: Knot(cfg, C))
  {
    if tops, s :| Reachable(cfg, tops, s) && Stuck(s) {
      ReachableInv(cfg, tops, s);
      StuckMakesKnot(cfg, s);
    }
    if C :| Knot(cfg, C) {
      var tops, s := KnotDeadlocks(cfg, C);
    }
  }

  lemma {:induction false} LowestRanked(C: set<Key>, rank: map<Key, nat>) returns (k: Key)
    requires C != {} && C <= rank.Keys
    ensures k in C && forall t :: t in C ==> rank[k] <= rank[t]
    decreases |C|
  {
    var x :| x in C;
    if C == {x} {
      k := x;
    } else {
      assert C == C - {x} + {x};
      var y := LowestRanked(C - {x}, rank);
      k := if rank[x] <= rank[y] then x else y;
    }
  }

  lemma LowestLinks(cfg: Config, C: set<Key>, rank: map<Key, nat>) returns (k: Key, t: Key)
    requires Knot(cfg, C) && rank.Keys == cfg.Keys
    ensures k in C && t in C && t != k && Edge(cfg, k, t) && rank[k] <= rank[t]
  {
    k := LowestRanked(C, rank);
    assert LinksWithin(cfg, C, k);
    t :| t in C && t != k && Edge(cfg, k, t);
  }

  /** With references that only go down in rank (a store referring to itself is
      refused by the stack check), every maximal run of any set of concurrent
      builds finishes all of them. */
  lemma RankedBuildsFinish(cfg: Config, rank: map<Key, nat>, tops: seq<Key>, s: State, i: nat)
    requires rank.Keys == cfg.Keys
    requires forall k, t :: k in cfg && t in cfg && t != k && Edge(cfg, k, t) ==> rank[t] < rank[k]
    requires Reachable(cfg, tops, s) && Quiescent(s) && i < |tops|
    ensures i < |s.calls| && s.calls[i].Finished()
    ensures s.calls[i].Outcome().Ok? <==> Good(cfg, tops[i])
  {
    TopRequest(cfg, tops, s, i);
    ReachableInv(cfg, tops, s);
    if Stuck(s) {
      StuckMakesKnot(cfg, s);
      var k, t := LowestLinks(cfg, Unpublished(s), rank);
    } else {
      BuildVerdict(cfg, tops, s, i);
    }
  }
}
