/** Builds whose builders ask for their references before they wait for anything, like those
    that come with snix. The requests of each build are then made depth first, since `join!`
    polls a reference until it has asked for all it needs before it polls the next one.
    Several builds run at once in any interleaving, and when builders that have asked for
    everything finish, and when waiting calls wake up, is left open. */
module DepthFirstBuilds {
  import opened Wrappers
  import opened Composition

  /** The call has been started and has asked for all its references. */
  predicate Asked(call: Call) {
    !call.phase.Fresh? && (call.phase.Building? ==> |call.phase.kids| >= |call.phase.builder.refs|)
  }

  /** The stores from the build down to that of the call. */
  function Route(call: Call): seq<Key> {
    call.stack + if call.Wanted().Some? then [call.Wanted().value] else []
  }

  /** The call was made on the way down from a top-level build of `root`. */
  predicate From(root: Key, call: Call) {
    call.stack != [] && call.stack[0] == root
  }

  /** Both calls belong to one build, the second not as its top. */
  predicate Together(a: Call, b: Call) {
    Route(a) != [] && From(Route(a)[0], b)
  }

  /** A request is made only when all calls of its build after the requesting one have made
      theirs; a build may begin at any time. */
  ghost predicate DepthFirst(s: State, st: Step) {
    st.c < |s.calls| && (st.Spawn? || (st.Start? && s.calls[st.c].stack != [])) ==>
      forall d :: st.c < d < |s.calls| && Together(s.calls[st.c], s.calls[d]) ==> Asked(s.calls[d])
  }

  ghost predicate IsOrderedRun(s: State, steps: seq<Step>): (r: bool)
    ensures r ==> IsRun(s, steps)
    decreases |steps|
  {
    steps == [] || (Enabled(s, steps[0]) && DepthFirst(s, steps[0]) && IsOrderedRun(Apply(s, steps[0]), steps[1..]))
  }

  /** A state that the given builds can get into. */
  ghost predicate OrderedReachable(cfg: Config, tops: seq<Key>, s: State) {
    exists steps :: IsOrderedRun(Init(cfg, tops), steps) && After(Init(cfg, tops), steps) == s
  }

  // --------------------------------------------------------------------- invariant

  /** The call still has requests to make for a store it is building. */
  predicate Asking(call: Call) {
    call.phase.Building? && !Asked(call)
  }

  /** Of the calls made in a build the last is the only one that may not have been started. */
  ghost predicate FreshLast(s: State) {
    forall c, d {:trigger s.calls[c], s.calls[d]} ::
      0 <= c < d < |s.calls| && s.calls[c].stack != [] && Together(s.calls[c], s.calls[d]) ==>
        !s.calls[c].phase.Fresh?
  }

  /** Calls of a build that are still asking lie on one line. */
  ghost predicate OneLine(s: State) {
    forall c, d {:trigger s.calls[c], s.calls[d]} ::
      0 <= c < d < |s.calls| && Together(s.calls[c], s.calls[d]) && Asking(s.calls[c]) && !Asked(s.calls[d]) ==>
        Route(s.calls[c]) <= s.calls[d].stack
  }

  ghost predicate KidsLater(s: State) {
    forall c, i :: 0 <= c < |s.calls| && s.calls[c].phase.Building? && 0 <= i < |s.calls[c].phase.kids| ==>
      c < s.calls[c].phase.kids[i]
  }

  /** Top-level calls come first. */
  ghost predicate TopsFirst(tops: seq<Key>, s: State) {
    && |tops| <= |s.calls|
    && forall c :: 0 <= c < |s.calls| ==> (s.calls[c].stack == [] <==> c < |tops|)
  }

  /** All calls in its own build for the store that `w` waits for, directly or not, were made
      before it, and no more of them will be. */
  ghost predicate AllBefore(s: State, w: nat)
    requires w < |s.calls| && s.calls[w].Wanted().Some? && s.calls[w].stack != []
  {
    var k, root := s.calls[w].Wanted().value, s.calls[w].stack[0];
    && (forall d :: 0 <= d < |s.calls| && From(root, s.calls[d]) && k in s.calls[d].stack ==> d < w)
    && (forall d :: 0 <= d < |s.calls| && From(root, s.calls[d]) && Asking(s.calls[d]) ==> k !in Route(s.calls[d]))
    && (forall d :: 0 <= d < |s.calls| && From(root, s.calls[d]) && s.calls[d].phase.Fresh? ==> k !in s.calls[d].stack)
  }

  ghost predicate WaitsInside(s: State, w: nat) {
    w < |s.calls| && s.calls[w].phase.Waiting? && s.calls[w].Wanted().Some? && s.calls[w].stack != []
  }

  ghost predicate WaitsBehind(s: State) {
    forall w: nat {:trigger AllBefore(s, w)} :: WaitsInside(s, w) ==> AllBefore(s, w)
  }

  ghost predicate OrderInv(tops: seq<Key>, s: State) {
    TopsFirst(tops, s) && FreshLast(s) && OneLine(s) && KidsLater(s) && WaitsBehind(s)
  }

  lemma InitOrder(cfg: Config, tops: seq<Key>)
    ensures OrderInv(tops, Init(cfg, tops))
  {
  }

  /** A call that is started inside a build is the last one made there. */
  lemma StartLine(tops: seq<Key>, s: State, c: nat)
    requires OrderInv(tops, s) && Enabled(s, Start(c)) && OnlyMoves(s, Apply(s, Start(c)), c)
    ensures var s' := Apply(s, Start(c));
            |s'.calls| == |s.calls| && TopsFirst(tops, s') && FreshLast(s') && KidsLater(s')
  {
  }

  lemma StartOneLine(tops: seq<Key>, s: State, c: nat)
    requires OrderInv(tops, s) && Enabled(s, Start(c)) && OnlyMoves(s, Apply(s, Start(c)), c)
    ensures OneLine(Apply(s, Start(c)))
  {
    var s' := Apply(s, Start(c));
    forall a, b | 0 <= a < b < |s'.calls| && Together(s'.calls[a], s'.calls[b])
                  && Asking(s'.calls[a]) && !Asked(s'.calls[b])
      ensures Route(s'.calls[a]) <= s'.calls[b].stack
    {
      if a == c && s.calls[c].stack != [] { assert Together(s.calls[a], s.calls[b]); }
    }
  }

  /** What the started call waits for was asked for before it. */
  lemma StartedBehind(cfg: Config, tops: seq<Key>, s: State, c: nat)
    requires Inv(cfg, s) && OrderInv(tops, s) && Enabled(s, Start(c)) && OnlyMoves(s, Apply(s, Start(c)), c)
    requires WaitsInside(Apply(s, Start(c)), c)
    ensures AllBefore(Apply(s, Start(c)), c)
  {
    var s' := Apply(s, Start(c));
    var call := s.calls[c];
    assert CallOk(cfg, s, call);
    var k, root := call.Wanted().value, call.stack[0];
    assert call.request.Resolve? && k !in call.stack;
    forall d | 0 <= d < |s.calls| && From(root, s.calls[d])
      ensures d <= c && (Asking(s.calls[d]) ==> k !in Route(s.calls[d])) && (s.calls[d].phase.Fresh? ==> d == c)
    {
      assert Together(call, s.calls[d]) && Together(s.calls[d], call);
    }
  }

  /** A store somebody waits for is not taken again. */
  lemma StillBehind(cfg: Config, s: State, c: nat, w: nat)
    requires Inv(cfg, s) && WaitsBehind(s) && Enabled(s, Start(c)) && OnlyMoves(s, Apply(s, Start(c)), c)
    requires WaitsInside(s, w) && w != c
    ensures AllBefore(Apply(s, Start(c)), w)
  {
    assert AllBefore(s, w);
    assert CallOk(cfg, s, s.calls[w]) && CallOk(cfg, s, s.calls[c]);
  }

  lemma StartWaits(cfg: Config, tops: seq<Key>, s: State, c: nat)
    requires Inv(cfg, s) && OrderInv(tops, s) && Enabled(s, Start(c)) && OnlyMoves(s, Apply(s, Start(c)), c)
    ensures WaitsBehind(Apply(s, Start(c)))
  {
    var s' := Apply(s, Start(c));
    forall w: nat | WaitsInside(s', w) ensures AllBefore(s', w) {
      if w == c { StartedBehind(cfg, tops, s, c); } else { StillBehind(cfg, s, c, w); }
    }
  }

  /** The new call comes after all others of its build, and below those that are asking. */
  lemma SpawnedAfter(tops: seq<Key>, s: State, c: nat, d: nat)
    requires OrderInv(tops, s) && Enabled(s, Spawn(c)) && DepthFirst(s, Spawn(c))
    requires d < |s.calls| && Route(s.calls[d]) != [] && Route(s.calls[d])[0] == Route(s.calls[c])[0]
    ensures s.calls[d].stack != [] ==> !s.calls[d].phase.Fresh?
    ensures Asking(s.calls[d]) ==> Route(s.calls[d]) <= Route(s.calls[c])
  {
    if d < c && s.calls[c].stack != [] { assert Together(s.calls[d], s.calls[c]); }
    if d > c { assert s.calls[d].stack != [] ==> Together(s.calls[c], s.calls[d]); }
  }

  lemma SpawnLine(tops: seq<Key>, s: State, c: nat)
    requires OrderInv(tops, s) && Enabled(s, Spawn(c)) && DepthFirst(s, Spawn(c)) && OnlyMoves(s, Apply(s, Spawn(c)), c)
    ensures var s' := Apply(s, Spawn(c)); TopsFirst(tops, s') && FreshLast(s') && KidsLater(s')
  {
    var s', n := Apply(s, Spawn(c)), |s.calls|;
    assert s'.calls[n].stack == Route(s.calls[c]);
    forall a, b | 0 <= a < b < |s'.calls| && s'.calls[a].stack != [] && Together(s'.calls[a], s'.calls[b])
      ensures !s'.calls[a].phase.Fresh?
    {
      if b == n { SpawnedAfter(tops, s, c, a); } else { assert Together(s.calls[a], s.calls[b]); }
    }
  }

  lemma SpawnOneLine(tops: seq<Key>, s: State, c: nat)
    requires OrderInv(tops, s) && Enabled(s, Spawn(c)) && DepthFirst(s, Spawn(c)) && OnlyMoves(s, Apply(s, Spawn(c)), c)
    ensures OneLine(Apply(s, Spawn(c)))
  {
    var s', n := Apply(s, Spawn(c)), |s.calls|;
    assert s'.calls[n].stack == Route(s.calls[c]);
    forall a, b | 0 <= a < b < |s'.calls| && Together(s'.calls[a], s'.calls[b])
                  && Asking(s'.calls[a]) && !Asked(s'.calls[b])
      ensures Route(s'.calls[a]) <= s'.calls[b].stack
    {
      if b == n { SpawnedAfter(tops, s, c, a); } else { assert Together(s.calls[a], s.calls[b]); }
    }
  }

  lemma SpawnWaits(cfg: Config, tops: seq<Key>, s: State, c: nat)
    requires Inv(cfg, s) && OrderInv(tops, s) && Enabled(s, Spawn(c)) && OnlyMoves(s, Apply(s, Spawn(c)), c)
    ensures WaitsBehind(Apply(s, Spawn(c)))
  {
    var s', n := Apply(s, Spawn(c)), |s.calls|;
    assert s'.calls[n].stack == Route(s.calls[c]);
    forall w: nat | WaitsInside(s', w) ensures AllBefore(s', w) {
      assert AllBefore(s, w);
      assert CallOk(cfg, s, s.calls[w]);
    }
  }

  /** Calls that finish neither ask nor wait any more. */
  lemma EndOrder(tops: seq<Key>, s: State, s': State, c: nat)
    requires OrderInv(tops, s) && OnlyMoves(s, s', c) && |s'.calls| == |s.calls| && s'.calls[c].Finished()
    ensures OrderInv(tops, s')
  {
    EndWaits(s, s', c);
  }

  lemma EndWaits(s: State, s': State, c: nat)
    requires WaitsBehind(s) && OnlyMoves(s, s', c) && |s'.calls| == |s.calls| && s'.calls[c].Finished()
    ensures WaitsBehind(s')
  {
    forall w: nat | WaitsInside(s', w) ensures AllBefore(s', w) {
      assert AllBefore(s, w);
    }
  }

  /** Every step in depth-first order keeps the invariant. */
  lemma OrderStep(cfg: Config, tops: seq<Key>, s: State, st: Step)
    requires Inv(cfg, s) && OrderInv(tops, s) && Enabled(s, st) && DepthFirst(s, st)
    ensures Inv(cfg, Apply(s, st)) && OrderInv(tops, Apply(s, st))
  {
    StepInv(cfg, s, st);
    match st
    case Start(c) =>
      StartLine(tops, s, c);
      StartOneLine(tops, s, c);
      StartWaits(cfg, tops, s, c);
    case Spawn(c) =>
      SpawnLine(tops, s, c);
      SpawnOneLine(tops, s, c);
      SpawnWaits(cfg, tops, s, c);
    case _ => EndOrder(tops, s, Apply(s, st), st.c);
  }

  lemma {:induction false} OrderRun(cfg: Config, tops: seq<Key>, s: State, steps: seq<Step>)
    requires Inv(cfg, s) && OrderInv(tops, s) && IsOrderedRun(s, steps)
    ensures Inv(cfg, After(s, steps)) && OrderInv(tops, After(s, steps))
    decreases |steps|
  {
    if steps != [] {
      OrderStep(cfg, tops, s, steps[0]);
      OrderRun(cfg, tops, Apply(s, steps[0]), steps[1..]);
    }
  }

  lemma OrderedInv(cfg: Config, tops: seq<Key>, s: State)
    requires OrderedReachable(cfg, tops, s)
    ensures Reachable(cfg, tops, s) && Inv(cfg, s) && OrderInv(tops, s) && Lineage(tops, s)
  {
    var s0 := Init(cfg, tops);
    var steps :| IsOrderedRun(s0, steps) && After(s0, steps) == s;
    InitInv(cfg, tops);
    InitOrder(cfg, tops);
    OrderRun(cfg, tops, s0, steps);
    ReachableLineage(cfg, tops, s);
  }

  // ---------------------------------------------------------------------- progress

  /** The last call with requests to make can make the next one. */
  lemma {:induction false} NextRequest(cfg: Config, s: State, n: nat) returns (st: Step)
    requires Inv(cfg, s) && n <= |s.calls| && forall d :: n <= d < |s.calls| ==> Asked(s.calls[d])
    requires exists c :: 0 <= c < |s.calls| && !Asked(s.calls[c])
    ensures Enabled(s, st) && DepthFirst(s, st)
  {
    var c := n - 1;
    if Asked(s.calls[c]) {
      st := NextRequest(cfg, s, c);
    } else {
      assert CallOk(cfg, s, s.calls[c]);
      st := if s.calls[c].phase.Fresh? then Start(c) else Spawn(c);
    }
  }

  /** What can move at all can move in depth-first order. */
  lemma CanMove(cfg: Config, s: State)
    requires Inv(cfg, s)
    ensures Quiescent(s) || exists st :: Enabled(s, st) && DepthFirst(s, st)
    ensures Quiescent(s) ==> forall c :: 0 <= c < |s.calls| ==> Asked(s.calls[c])
  {
    if c :| 0 <= c < |s.calls| && !Asked(s.calls[c]) {
      var st := NextRequest(cfg, s, |s.calls|);
    } else if st :| Enabled(s, st) {
      assert Asked(s.calls[st.c]);
      assert DepthFirst(s, st);
    }
  }

  /** A builder that cannot finish has a call that has not. */
  lemma IdleBuilder(cfg: Config, s: State, c: nat) returns (kid: nat)
    requires Inv(cfg, s) && KidsLater(s) && Quiescent(s) && c < |s.calls| && s.calls[c].phase.Building?
    ensures c < kid < |s.calls| && !s.calls[kid].Finished() && s.calls[kid].stack == Route(s.calls[c])
  {
    var call := s.calls[c];
    assert CallOk(cfg, s, call) && !Enabled(s, Finish(c)) && !Enabled(s, Spawn(c));
    var i :| 0 <= i < |call.phase.kids| && !(call.phase.kids[i] < |s.calls| && s.calls[call.phase.kids[i]].Finished());
    kid := call.phase.kids[i];
    assert KidOk(s, call, call.Wanted().value, call.phase.builder, i, kid);
  }

  /** Below a builder that cannot finish a call is waiting. */
  lemma {:induction false} WaitingBelow(cfg: Config, s: State, c: nat) returns (w: nat)
    requires Inv(cfg, s) && KidsLater(s) && Quiescent(s) && c < |s.calls| && s.calls[c].phase.Building?
    ensures w < |s.calls| && s.calls[w].phase.Waiting? && Route(s.calls[c]) <= s.calls[w].stack
    decreases |s.calls| - c
  {
    w := IdleBuilder(cfg, s, c);
    assert !Enabled(s, Start(w));
    if s.calls[w].phase.Building? {
      w := WaitingBelow(cfg, s, w);
    }
  }

  /** The store a waiting call waits for is under construction. */
  lemma AwaitedBuilder(cfg: Config, s: State, w: nat) returns (b: nat)
    requires Inv(cfg, s) && Quiescent(s) && w < |s.calls| && s.calls[w].phase.Waiting?
    ensures s.calls[w].Wanted().Some? && IsBuilder(s, b, s.calls[w].Wanted().value)
  {
    StuckCall(cfg, s, w);
    b := BuilderOf(cfg, s, s.calls[w].Wanted().value);
  }

  /** The call belongs to the build of `root`. */
  predicate Within(root: Key, call: Call) {
    Route(call) != [] && Route(call)[0] == root
  }

  /** Where nothing can move, a build in which a call waits has one that waits for a store
      outside: a wait inside leads to an earlier one. */
  lemma {:induction false} WaitsAbroad(cfg: Config, tops: seq<Key>, s: State, root: Key, w: nat)
    returns (v: nat, b: nat)
    requires Inv(cfg, s) && OrderInv(tops, s) && Quiescent(s)
    requires w < |s.calls| && s.calls[w].phase.Waiting? && From(root, s.calls[w])
    ensures v < |s.calls| && s.calls[v].phase.Waiting? && From(root, s.calls[v])
    ensures s.calls[v].Wanted().Some? && IsBuilder(s, b, s.calls[v].Wanted().value) && !Within(root, s.calls[b])
  {
    v := w;
    b := AwaitedBuilder(cfg, s, w);
    if Within(root, s.calls[b]) {
      var k := s.calls[w].Wanted().value;
      assert AllBefore(s, w);
      var u := WaitingBelow(cfg, s, b);
      assert Route(s.calls[b])[|s.calls[b].stack|] == k && Route(s.calls[b])[0] == root;
      assert k in s.calls[u].stack && From(root, s.calls[u]);
      v, b := WaitsAbroad(cfg, tops, s, root, u);
    }
  }

  /** An unfinished call belongs to a build whose top is unfinished too. */
  lemma {:induction false} TopOf(cfg: Config, tops: seq<Key>, s: State, c: nat) returns (j: nat)
    requires Inv(cfg, s) && OrderInv(tops, s) && Lineage(tops, s) && c < |s.calls| && !s.calls[c].Finished()
    ensures j < |tops| && !s.calls[j].Finished()
    ensures if s.calls[c].stack == [] then j == c
            else s.calls[j].phase.Building? && Together(s.calls[j], s.calls[c])
    decreases |s.calls[c].stack|
  {
    j := c;
    assert LineOk(tops, s, c);
    if s.calls[c].stack != [] {
      var d: nat :| ParentOf(s, d, c);
      assert CallOk(cfg, s, s.calls[d]);
      j := TopOf(cfg, tops, s, d);
    }
  }

  /** The build at `i` has a call waiting for a store that the build at `j` constructs. */
  ghost predicate WaitsFor(tops: seq<Key>, s: State, i: nat, j: nat) {
    && i < |tops| <= |s.calls| && j < |tops| && i != j && s.calls[j].phase.Building?
    && exists w: nat, b: nat :: Awaits(tops, s, i, j, w, b)
  }

  ghost predicate Awaits(tops: seq<Key>, s: State, i: nat, j: nat, w: nat, b: nat)
    requires i < |tops| && j < |tops|
  {
    && w < |s.calls| && s.calls[w].phase.Waiting? && (w == i || From(tops[i], s.calls[w]))
    && s.calls[w].Wanted().Some? && IsBuilder(s, b, s.calls[w].Wanted().value)
    && (b == j || From(tops[j], s.calls[b]))
  }

  /** Where nothing can move, every unfinished build waits for another unfinished one: no
      deadlock is confined to one build. */
  lemma StuckBuildsWait(cfg: Config, tops: seq<Key>, s: State, i: nat)
    requires OrderedReachable(cfg, tops, s) && Quiescent(s) && i < |tops| <= |s.calls| && !s.calls[i].Finished()
    ensures exists j: nat :: WaitsFor(tops, s, i, j)
  {
    OrderedInv(cfg, tops, s);
    TopRequest(cfg, tops, s, i);
    var w, b := i, 0;
    assert !Enabled(s, Start(i));
    if s.calls[i].phase.Waiting? {
      b := AwaitedBuilder(cfg, s, i);
    } else {
      w := WaitingBelow(cfg, s, i);
      assert Route(s.calls[i])[0] == tops[i];
      w, b := WaitsAbroad(cfg, tops, s, tops[i], w);
    }
    var j := TopOf(cfg, tops, s, b);
    TopRequest(cfg, tops, s, j);
    assert j != i by { assert s.calls[i].phase.Building? ==> Route(s.calls[i])[0] == tops[i]; }
    assert Awaits(tops, s, i, j, w, b);
    assert WaitsFor(tops, s, i, j);
  }

  /** One build on its own is never stuck, on any graph and however long its builders take once
      they have asked for their references: it can always go on depth first, or has finished
      with the right verdict. */
  lemma LoneBuildGoesOn(cfg: Config, k: Key, s: State)
    requires OrderedReachable(cfg, [k], s)
    ensures !Stuck(s)
    ensures |s.calls| > 0 && (s.calls[0].Finished() || exists st :: Enabled(s, st) && DepthFirst(s, st))
    ensures s.calls[0].Finished() ==> (s.calls[0].Outcome().Ok? <==> Good(cfg, k))
  {
    OrderedInv(cfg, [k], s);
    CanMove(cfg, s);
    if Quiescent(s) {
      forall c | 0 <= c < |s.calls| ensures s.calls[c].Finished() {
        if !s.calls[c].Finished() {
          var i := TopOf(cfg, [k], s, c);
          StuckBuildsWait(cfg, [k], s, i);
        }
      }
    }
    if s.calls[0].Finished() { BuildVerdict(cfg, [k], s, 0); }
  }

  // ---------------------------------------------------------------------- deadlock

  /** The first `n` builds have taken their stores, and nothing else has happened. */
  function Begun(cfg: Config, tops: seq<Key>, n: nat): State
    requires n <= |tops| && forall k :: k in tops ==> k in cfg
  {
    State(map k | k in cfg :: if k in tops[..n] then InProgress(None) else Pending(cfg[k]),
          seq(|tops|, i requires 0 <= i < |tops| =>
            Call(Direct(tops[i]), [], if i < n then Building(cfg[tops[i]], []) else Fresh)))
  }

  lemma BegunNone(cfg: Config, tops: seq<Key>)
    requires forall k :: k in tops ==> k in cfg
    ensures Begun(cfg, tops, 0) == Init(cfg, tops)
  {
    assert tops[..0] == [];
  }

  lemma BeginNext(cfg: Config, tops: seq<Key>, n: nat)
    requires n < |tops| && (forall k :: k in tops ==> k in cfg) && NoRepeat(tops)
    ensures Enabled(Begun(cfg, tops, n), Start(n)) && DepthFirst(Begun(cfg, tops, n), Start(n))
    ensures Apply(Begun(cfg, tops, n), Start(n)) == Begun(cfg, tops, n + 1)
  {
    var s, s' := Begun(cfg, tops, n), Begun(cfg, tops, n + 1);
    assert tops[..n + 1] == tops[..n] + [tops[n]];
    assert tops[n] !in tops[..n];
    assert Apply(s, Start(n)).slots == s'.slots;
    assert Apply(s, Start(n)).calls == s'.calls;
  }

  lemma OrderedCons(s: State, st: Step, s': State, steps: seq<Step>)
    requires Enabled(s, st) && DepthFirst(s, st) && Apply(s, st) == s' && IsOrderedRun(s', steps)
    ensures IsOrderedRun(s, [st] + steps) && After(s, [st] + steps) == After(s', steps)
  {
    assert ([st] + steps)[1..] == steps;
  }

  /** All builds begin, and then the run goes on. */
  lemma {:induction false} BeginAll(cfg: Config, tops: seq<Key>, n: nat, rest: seq<Step>) returns (steps: seq<Step>)
    requires n <= |tops| && (forall k :: k in tops ==> k in cfg) && NoRepeat(tops)
    requires IsOrderedRun(Begun(cfg, tops, |tops|), rest)
    ensures IsOrderedRun(Begun(cfg, tops, n), steps)
    ensures After(Begun(cfg, tops, n), steps) == After(Begun(cfg, tops, |tops|), rest)
    decreases |tops| - n
  {
    steps := rest;
    if n < |tops| {
      var more := BeginAll(cfg, tops, n + 1, rest);
      BeginNext(cfg, tops, n);
      OrderedCons(Begun(cfg, tops, n), Start(n), Begun(cfg, tops, n + 1), more);
      steps := [Start(n)] + more;
    }
  }

  /** Every run can be extended in depth-first order until nothing moves. */
  lemma {:induction false} MaximalOrdered(cfg: Config, s: State, width: nat) returns (steps: seq<Step>)
    requires Inv(cfg, s) && Width(cfg, width)
    ensures IsOrderedRun(s, steps) && Quiescent(After(s, steps))
    decreases Measure(s, width)
  {
    steps := [];
    CanMove(cfg, s);
    if !Quiescent(s) {
      var st :| Enabled(s, st) && DepthFirst(s, st);
      StepInv(cfg, s, st);
      StepDecreases(cfg, s, st, width);
      var rest := MaximalOrdered(cfg, Apply(s, st), width);
      OrderedCons(s, st, Apply(s, st), rest);
      steps := [st] + rest;
    }
  }

  lemma BegunInv(cfg: Config, tops: seq<Key>)
    requires (forall k :: k in tops ==> k in cfg) && NoRepeat(tops)
    ensures Inv(cfg, Begun(cfg, tops, |tops|))
  {
    var steps := BeginAll(cfg, tops, 0, []);
    BegunNone(cfg, tops);
    InitInv(cfg, tops);
    RunInv(cfg, Init(cfg, tops), steps);
  }

  lemma BegunHeld(cfg: Config, C: set<Key>, tops: seq<Key>, path: map<Key, seq<Key>>)
    requires (forall k :: k in tops ==> k in cfg) && path.Keys == C
    requires forall k :: k in C ==> k in tops && path[k] == [k]
    ensures Held(path, Begun(cfg, tops, |tops|))
  {
    var s := Begun(cfg, tops, |tops|);
    assert tops[..|tops|] == tops;
    forall c: nat, k | k in path && IsBuilder(s, c, k) ensures s.calls[c].stack + [k] == path[k] {
      assert s.calls[c].stack == [];
    }
  }

  /** Once all builds have begun, a knot among their stores stays unpublished to the end. */
  lemma BegunDeadlocks(cfg: Config, C: set<Key>, tops: seq<Key>) returns (rest: seq<Step>)
    requires Knot(cfg, C) && NoRepeat(tops) && forall k :: k in C <==> k in tops
    ensures IsOrderedRun(Begun(cfg, tops, |tops|), rest) && Stuck(After(Begun(cfg, tops, |tops|), rest))
  {
    var s := Begun(cfg, tops, |tops|);
    var path := KnotTangle(cfg, C, tops);
    BegunInv(cfg, tops);
    BegunHeld(cfg, C, tops, path);
    var width := WidthExists(cfg);
    rest := MaximalOrdered(cfg, s, width);
    HeldRun(cfg, tops, path, s, rest);
    HeldUnfinished(cfg, path, After(s, rest));
  }

  /** One build per store of a knot can deadlock, all requests being made depth first. */
  lemma KnotDeadlocksOrdered(cfg: Config, C: set<Key>) returns (tops: seq<Key>, s: State)
    requires Knot(cfg, C)
    ensures OrderedReachable(cfg, tops, s) && Stuck(s)
  {
    tops := Enumerate(C);
    var rest := BegunDeadlocks(cfg, C, tops);
    var steps := BeginAll(cfg, tops, 0, rest);
    BegunNone(cfg, tops);
    s := After(Init(cfg, tops), steps);
  }

  /** Deadlock of some builds is possible exactly when the configuration contains a knot, also
      if every build makes its requests depth first. */
  lemma OrderedDeadlockIffKnot(cfg: Config)
    ensures (exists tops, s :: OrderedReachable(cfg, tops, s) && Stuck(s)) <==> (exists C :: Knot(cfg, C))
  {
    if tops, s :| OrderedReachable(cfg, tops, s) && Stuck(s) {
      OrderedInv(cfg, tops, s);
      StuckMakesKnot(cfg, s);
    }
    if C :| Knot(cfg, C) {
      var tops, s := KnotDeadlocksOrdered(cfg, C);
    }
  }

  // ----------------------------------------------------------------------- waiting

  const TOP := Key(0, "top")
  const LEAF := Key(0, "leaf")

  /** A cache that refers to one store twice. */
  function Doubled(): Config {
    map[TOP := Builder([Ref(0, "&leaf"), Ref(0, "&leaf")], false), LEAF := Builder([], false)]
  }

  /** The state with the given stores under construction, and the given calls. */
  function Under(taken: set<Key>, calls: seq<Call>): State {
    State(map k | k in Doubled() :: if k in taken then InProgress(None) else Pending(Doubled()[k]), calls)
  }

  function TopCall(kids: seq<nat>): Call {
    Call(Direct(TOP), [], Building(Doubled()[TOP], kids))
  }

  function LeafCall(phase: Phase): Call {
    Call(Resolve(Ref(0, "&leaf")), [TOP], phase)
  }

  lemma LeafKnown()
    ensures TOP != LEAF && Target(Ref(0, "&leaf")) == Some(LEAF)
  {
    assert TOP.name[0] == 't' && LEAF.name[0] == 'l';
  }

  lemma TopStarts()
    ensures var s0 := Init(Doubled(), [TOP]);
            Enabled(s0, Start(0)) && Apply(s0, Start(0)) == Under({TOP}, [TopCall([])])
  {
  }

  /** The top cache asks for the leaf once more. */
  lemma TopAsks(taken: set<Key>, calls: seq<Call>, kids: seq<nat>)
    requires |kids| < 2 && calls != [] && calls[0] == TopCall(kids)
    ensures var s := Under(taken, calls);
            && Enabled(s, Spawn(0))
            && Apply(s, Spawn(0)) == Under(taken, calls[0 := TopCall(kids + [|calls|])] + [LeafCall(Fresh)])
  {
    assert [] + [TOP] == [TOP];
    assert Doubled()[TOP].refs[|kids|] == Ref(0, "&leaf");
  }

  lemma LeafStarts(kids: seq<nat>)
    ensures var s := Under({TOP}, [TopCall(kids), LeafCall(Fresh)]);
            && Enabled(s, Start(1))
            && Apply(s, Start(1)) == Under({TOP, LEAF}, [TopCall(kids), LeafCall(Building(Doubled()[LEAF], []))])
  {
    LeafKnown();
  }

  lemma LeafWaits(calls: seq<Call>)
    requires calls != [] && calls[|calls| - 1] == LeafCall(Fresh)
    ensures var s, c := Under({TOP, LEAF}, calls), |calls| - 1;
            Enabled(s, Start(c)) && Apply(s, Start(c)) == Under({TOP, LEAF}, calls[c := LeafCall(Waiting)])
  {
    LeafKnown();
  }

  /** The leaf has asked for everything, which is nothing, and takes its time. */
  function Busy(): Call {
    LeafCall(Building(Doubled()[LEAF], []))
  }

  lemma UntilBusy(rest: seq<Step>) returns (steps: seq<Step>)
    requires IsOrderedRun(Under({TOP, LEAF}, [TopCall([1]), Busy()]), rest)
    ensures IsOrderedRun(Init(Doubled(), [TOP]), steps)
    ensures After(Init(Doubled(), [TOP]), steps) == After(Under({TOP, LEAF}, [TopCall([1]), Busy()]), rest)
  {
    var s1 := Under({TOP}, [TopCall([])]);
    var s2 := Under({TOP}, [TopCall([1]), LeafCall(Fresh)]);
    var s3 := Under({TOP, LEAF}, [TopCall([1]), Busy()]);
    LeafStarts([1]);
    OrderedCons(s2, Start(1), s3, rest);
    TopAsks({TOP}, s1.calls, []);
    assert [] + [1] == [1];
    assert s1.calls[0 := TopCall([1])] + [LeafCall(Fresh)] == s2.calls;
    OrderedCons(s1, Spawn(0), s2, [Start(1)] + rest);
    TopStarts();
    OrderedCons(Init(Doubled(), [TOP]), Start(0), s1, [Spawn(0)] + ([Start(1)] + rest));
    steps := [Start(0)] + ([Spawn(0)] + ([Start(1)] + rest));
  }

  lemma ThenWaiting() returns (steps: seq<Step>, s: State)
    ensures var s3 := Under({TOP, LEAF}, [TopCall([1]), Busy()]); IsOrderedRun(s3, steps) && After(s3, steps) == s
    ensures |s.calls| == 3 && s.calls[2].phase.Waiting?
  {
    var s3 := Under({TOP, LEAF}, [TopCall([1]), Busy()]);
    var s4 := Under({TOP, LEAF}, [TopCall([1, 2]), Busy(), LeafCall(Fresh)]);
    s := Under({TOP, LEAF}, [TopCall([1, 2]), Busy(), LeafCall(Waiting)]);
    LeafWaits(s4.calls);
    assert s4.calls[2 := LeafCall(Waiting)] == s.calls;
    OrderedCons(s4, Start(2), s, []);
    TopAsks({TOP, LEAF}, s3.calls, [1]);
    assert [1] + [2] == [1, 2];
    assert s3.calls[0 := TopCall([1, 2])] + [LeafCall(Fresh)] == s4.calls;
    OrderedCons(s3, Spawn(0), s4, [Start(2)] + []);
    steps := [Spawn(0)] + ([Start(2)] + []);
  }

  /** One build may have to wait: the first store it asks for takes its time, and the second
      call for that store waits. */
  lemma LoneBuildWaits() returns (s: State)
    ensures OrderedReachable(Doubled(), [TOP], s) && exists w :: 0 <= w < |s.calls| && s.calls[w].phase.Waiting?
  {
    var rest;
    rest, s := ThenWaiting();
    var steps := UntilBusy(rest);
    assert s.calls[2].phase.Waiting?;
  }
}
