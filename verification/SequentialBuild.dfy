/** One build at a time whose builders never suspend: the depth-first execution of a
    composition, on any reference graph. The stack check then suffices: no wait ever blocks. */
module SequentialBuild {
  import opened Wrappers
  import opened Composition

  ghost function Elements(s: seq<Key>): set<Key> {
    set k | k in s
  }

  ghost function OpenSlots(slots: map<Key, Slot>): set<Key> {
    set k | k in slots && slots[k] == InProgress(None)
  }

  ghost function PendingSlots(slots: map<Key, Slot>): set<Key> {
    set k | k in slots && slots[k].Pending?
  }

  /** The result is right about `k`. */
  ghost predicate Verdict(cfg: Config, k: Key, r: Result) {
    (r.Ok? ==> Good(cfg, k)) && (r.Err? ==> Explains(cfg, k, r.error))
  }

  ghost predicate SlotRight(cfg: Config, k: Key, slot: Slot)
    requires k in cfg
  {
    match slot
    case Pending(b) => b == cfg[k]
    case InProgress(None) => true
    case InProgress(Some(r)) => Verdict(cfg, k, r)
    case Done(r) => Verdict(cfg, k, r)
  }

  ghost predicate Settled(slot: Slot) {
    slot.Done? || (slot.InProgress? && slot.published.Some?)
  }

  /** Later slots agree with earlier ones wherever a result was known. */
  ghost predicate Grown(before: map<Key, Slot>, after: map<Key, Slot>) {
    && before.Keys == after.Keys
    && (forall k :: k in before && Settled(before[k]) ==> after[k] == before[k])
    && PendingSlots(after) <= PendingSlots(before)
  }

  /** The error was decided by the references of `k` on some stack that leads to it. */
  ghost predicate DecidedOn(cfg: Config, slots: map<Key, Slot>, inner: seq<Key>, k: Key, e: Error) {
    k in cfg && Path(cfg, inner) && inner != [] && inner[|inner| - 1] == k && Decides(cfg, slots, inner, k, e)
  }

  ghost predicate DecidedHere(cfg: Config, slots: map<Key, Slot>, k: Key, e: Error) {
    exists inner :: DecidedOn(cfg, slots, inner, k, e)
  }

  /** Every error known is the one that the references of its store decide. */
  ghost predicate ErrorsRight(cfg: Config, slots: map<Key, Slot>) {
    forall k, e {:trigger DecidedHere(cfg, slots, k, e)} ::
      k in slots && HasResult(slots[k], Err(e)) ==> DecidedHere(cfg, slots, k, e)
  }

  lemma GrownDecides(cfg: Config, before: map<Key, Slot>, after: map<Key, Slot>, inner: seq<Key>, k: Key, e: Error)
    requires Grown(before, after) && DecidedOn(cfg, before, inner, k, e)
    ensures DecidedOn(cfg, after, inner, k, e)
  {
    DecidesStays(cfg, before, after, inner, k, e);
  }

  /** An error stays right, and so does a new one that its references decide. */
  lemma GrownRight(cfg: Config, before: map<Key, Slot>, after: map<Key, Slot>, k: Key, inner: seq<Key>)
    requires ErrorsRight(cfg, before) && Grown(before, after)
    requires forall t, e :: t in after && t != k && HasResult(after[t], Err(e)) ==> HasResult(before[t], Err(e))
    requires forall e :: k in after && HasResult(after[k], Err(e)) ==>
               HasResult(before[k], Err(e)) || DecidedOn(cfg, before, inner, k, e)
    ensures ErrorsRight(cfg, after)
  {
    forall t, e | t in after && HasResult(after[t], Err(e)) ensures DecidedHere(cfg, after, t, e) {
      if HasResult(before[t], Err(e)) {
        assert DecidedHere(cfg, before, t, e);
        var i :| DecidedOn(cfg, before, i, t, e);
        GrownDecides(cfg, before, after, i, t, e);
      } else {
        GrownDecides(cfg, before, after, inner, t, e);
      }
    }
  }

  lemma OpenedSlots(before: map<Key, Slot>, k: Key)
    requires k in before && before[k].Pending?
    ensures OpenSlots(before[k := InProgress(None)]) == OpenSlots(before) + {k}
  {
  }

  lemma OpenedPending(before: map<Key, Slot>, k: Key)
    requires k in before && before[k].Pending?
    ensures PendingSlots(before[k := InProgress(None)]) == PendingSlots(before) - {k}
  {
  }

  lemma Opened(before: map<Key, Slot>, k: Key)
    requires k in before && before[k].Pending?
    ensures var after := before[k := InProgress(None)];
            && OpenSlots(after) == OpenSlots(before) + {k}
            && PendingSlots(after) < PendingSlots(before)
            && |PendingSlots(after)| < |PendingSlots(before)|
  {
    OpenedSlots(before, k);
    OpenedPending(before, k);
    assert k in PendingSlots(before);
  }

  ghost predicate SlotsRight(cfg: Config, slots: map<Key, Slot>) {
    slots.Keys == cfg.Keys && forall k :: k in slots ==> SlotRight(cfg, k, slots[k])
  }

  /** Publishing the result of a store closes its slot and changes no other. */
  lemma Published(cfg: Config, before: map<Key, Slot>, slots: map<Key, Slot>, k: Key, res: Result, stack: seq<Key>)
    requires SlotsRight(cfg, slots) && OpenSlots(slots) == Elements(stack) + {k} && k !in stack
    requires Grown(before, slots) && k in before && before[k] == InProgress(None) && Verdict(cfg, k, res)
    ensures var slots' := slots[k := InProgress(Some(res))];
            && SlotsRight(cfg, slots') && OpenSlots(slots') == Elements(stack)
            && Grown(before, slots') && Grown(slots, slots')
  {
    var slots' := slots[k := InProgress(Some(res))];
    assert k in OpenSlots(slots);
    assert OpenSlots(slots') == OpenSlots(slots) - {k};
    assert PendingSlots(slots') == PendingSlots(slots);
  }

  class Stores {
    ghost const cfg: Config
    var slots: map<Key, Slot>
    var services: nat

    ghost predicate Valid()
      reads this
    {
      SlotsRight(cfg, slots) && ErrorsRight(cfg, slots)
    }

    constructor (configs: Config)
      ensures Valid() && cfg == configs && OpenSlots(slots) == {}
    {
      cfg := configs;
      slots := map k | k in configs :: Pending(configs[k]);
      services := 0;
    }

    /** `Composition::build`. */
    method Build(k: Key) returns (res: Result)
      requires Valid() && OpenSlots(slots) == {}
      modifies this
      ensures Valid() && OpenSlots(slots) == {} && Grown(old(slots), slots)
      ensures res.Ok? <==> Good(cfg, k)
      ensures res.Err? ==> Explains(cfg, k, res.error)
      ensures k in cfg ==> slots[k] in {InProgress(Some(res)), Done(res)}
      ensures res.Err? ==>
                if k in cfg then DecidedHere(cfg, slots, k, res.error) else res.error == NotFound(k.name)
      ensures res.Err? && k in cfg && old(slots)[k].Pending? ==> Decides(cfg, slots, [k], k, res.error)
    {
      res := BuildInternal(k, []);
      if res.Err? {
        ExplainsNotGood(cfg, k, res.error);
      }
    }

    /** `CompositionContext::resolve`. */
    method Resolve(r: Ref, stack: seq<Key>) returns (res: Result)
      requires Valid() && OpenSlots(slots) == Elements(stack)
      requires stack != [] && Path(cfg, stack)
      requires stack[|stack| - 1] in cfg && r in cfg[stack[|stack| - 1]].refs
      modifies this
      ensures Valid() && OpenSlots(slots) == Elements(stack) && Grown(old(slots), slots)
      ensures res.Ok? ==> Target(r).Some? && Good(cfg, Target(r).value)
      ensures res.Err? ==> Explains(cfg, stack[|stack| - 1], res.error)
      ensures res.Ok? ==> !BadRef(cfg, r)
      ensures res.Err? ==> BadRef(cfg, r) && Gives(cfg, slots, stack, r, res.error)
      decreases |PendingSlots(slots)|, 1
    {
      ghost var last := stack[|stack| - 1];
      match Target(r)
      case None =>
        res := Err(InvalidReference(r.text));
        assert PathFrom(cfg, last, [last]) && Blames(cfg, [last], res.error);
      case Some(k) =>
        assert Edge(cfg, last, k);
        if k in stack {
          res := Err(Recursion(Names(stack)));
          StackCycle(cfg, stack, k);
          StackNotGood(cfg, stack, k);
        } else {
          PathSnoc(cfg, stack, k);
          res := BuildInternal(k, stack);
          if res.Err? {
            ExplainsNotGood(cfg, k, res.error);
            ExplainsUp(cfg, last, k, res.error);
          }
        }
    }

    /** `CompositionContext::build_internal`. */
    method BuildInternal(k: Key, stack: seq<Key>) returns (res: Result)
      requires Valid() && OpenSlots(slots) == Elements(stack)
      requires k !in stack && Path(cfg, stack + [k])
      modifies this
      ensures Valid() && OpenSlots(slots) == Elements(stack) && Grown(old(slots), slots)
      ensures Verdict(cfg, k, res)
      ensures k in cfg ==> slots[k] in {InProgress(Some(res)), Done(res)}
      ensures res.Err? && k !in cfg ==> res.error == NotFound(k.name)
      ensures res.Err? && k in cfg && old(slots)[k].Pending? ==> Decides(cfg, slots, stack + [k], k, res.error)
      decreases |PendingSlots(slots)|, 0
    {
      if k !in slots {
        res := Err(NotFound(k.name));
        assert PathFrom(cfg, k, [k]) && Blames(cfg, [k], res.error);
        return;
      }
      ghost var before := slots;
      var prev := slots[k];
      slots := slots[k := Done(Err(Poisoned(k.name)))];
      match prev
      case Done(r) =>
        slots := slots[k := Done(r)];
        assert slots == before;
        res := r;
      case InProgress(channel) =>
        slots := slots[k := InProgress(channel)];
        assert slots == before;
        // a value is in the channel: only stores on the stack are unpublished
        assert k !in OpenSlots(slots);
        res := channel.value;
      case Pending(b) =>
        slots := slots[k := InProgress(None)];
        assert slots == before[k := InProgress(None)];
        Opened(before, k);
        GrownRight(cfg, before, slots, k, stack + [k]);
        res := Construct(k, b, stack);
    }

    /** The future of a builder: resolve everything, then publish the outcome. */
    method Construct(k: Key, b: Builder, stack: seq<Key>) returns (res: Result)
      requires Valid() && k in cfg && b == cfg[k] && k !in stack && Path(cfg, stack + [k])
      requires slots[k] == InProgress(None) && OpenSlots(slots) == Elements(stack) + {k}
      modifies this
      ensures Valid() && OpenSlots(slots) == Elements(stack) && Grown(old(slots), slots)
      ensures Verdict(cfg, k, res) && slots[k] == InProgress(Some(res))
      ensures res.Err? ==> Decides(cfg, slots, stack + [k], k, res.error)
      decreases |PendingSlots(slots)|, 3
    {
      var inner := stack + [k];
      assert Elements(inner) == Elements(stack) + {k};
      var failure := ResolveAll(k, b.refs, inner);
      if failure.Some? {
        res := Err(failure.value);
      } else if b.fails {
        res := Err(Failed(k.name));
        assert PathFrom(cfg, k, [k]) && Blames(cfg, [k], res.error);
      } else {
        res := Ok(services);
        services := services + 1;
        GoodFromRefs(cfg, k);
      }
      Published(cfg, old(slots), slots, k, res, stack);
      ghost var before := slots;
      slots := slots[k := InProgress(Some(res))];
      GrownRight(cfg, before, slots, k, inner);
      if res.Err? { GrownDecides(cfg, before, slots, inner, k, res.error); }
    }

    /** Resolves all references of a builder, and returns the first failure. */
    method ResolveAll(k: Key, refs: seq<Ref>, inner: seq<Key>) returns (failure: Option<Error>)
      requires Valid() && k in cfg && refs == cfg[k].refs && Path(cfg, inner)
      requires inner != [] && inner[|inner| - 1] == k && OpenSlots(slots) == Elements(inner)
      modifies this
      ensures Valid() && OpenSlots(slots) == Elements(inner) && Grown(old(slots), slots)
      ensures failure.None? ==> forall j :: 0 <= j < |refs| ==> !BadRef(cfg, refs[j])
      ensures failure.Some? ==> Explains(cfg, k, failure.value) && Decides(cfg, slots, inner, k, failure.value)
      decreases |PendingSlots(slots)|, 2
    {
      failure := None;
      for i := 0 to |refs|
        invariant Valid() && OpenSlots(slots) == Elements(inner) && Grown(old(slots), slots)
        invariant failure.None? ==> forall j :: 0 <= j < i ==> !BadRef(cfg, refs[j])
        invariant failure.Some? ==> Explains(cfg, k, failure.value) && Decides(cfg, slots, inner, k, failure.value)
      {
        FewerPending(old(slots), slots);
        ghost var before := slots;
        var r := Resolve(refs[i], inner);
        if failure.None? {
          if r.Err? {
            assert FirstBad(cfg, refs, i);
            failure := Some(r.error);
          }
        } else {
          DecidesStays(cfg, before, slots, inner, k, failure.value);
        }
      }
    }
  }

  lemma FewerPending(before: map<Key, Slot>, after: map<Key, Slot>)
    requires Grown(before, after)
    ensures |PendingSlots(after)| <= |PendingSlots(before)|
  {
    assert PendingSlots(before) == PendingSlots(after) + (PendingSlots(before) - PendingSlots(after));
  }

  const ROOT := Key(0, "root")
  const OTHER := Key(0, "other")

  /** Two caches that refer to each other, near and far. */
  function Caches(): Config {
    map[ROOT := Builder([Ref(0, "&other"), Ref(0, "&other")], false),
        OTHER := Builder([Ref(0, "&root"), Ref(0, "&root")], false)]
  }

  lemma CacheEdges(k: Key, t: Key)
    ensures Edge(Caches(), k, t) <==> (k == ROOT && t == OTHER) || (k == OTHER && t == ROOT)
  {
    assert Target(Ref(0, "&other")) == Some(OTHER) && Target(Ref(0, "&root")) == Some(ROOT);
    assert Caches()[ROOT].refs[0] == Ref(0, "&other") && Caches()[OTHER].refs[0] == Ref(0, "&root");
  }

  /** Neither of the two can be built, and together they are a knot. */
  lemma RejectsRecursion()
    ensures !Good(Caches(), ROOT) && !Good(Caches(), OTHER) && Knot(Caches(), {ROOT, OTHER})
  {
    CacheEdges(ROOT, OTHER);
    CacheEdges(OTHER, ROOT);
    RepeatExplains(Caches(), [ROOT, OTHER, ROOT], 0, 2);
    RepeatExplains(Caches(), [OTHER, ROOT, OTHER], 0, 2);
    ExplainsNotGood(Caches(), ROOT, Recursion(Names([ROOT, OTHER, ROOT][0..2])));
    ExplainsNotGood(Caches(), OTHER, Recursion(Names([OTHER, ROOT, OTHER][0..2])));
    assert LinksWithin(Caches(), {ROOT, OTHER}, ROOT) && LinksWithin(Caches(), {ROOT, OTHER}, OTHER);
  }

  /** Alone, a build of one of the two never gets stuck; a build of each can deadlock. */
  lemma OneAloneTwoTogether()
    ensures !exists s :: Reachable(Caches(), [ROOT], s) && Stuck(s)
    ensures exists s :: Reachable(Caches(), [ROOT, OTHER], s) && Stuck(s)
  {
    DeadlockIffTangle(Caches(), [ROOT]);
    forall path ensures !Tangle(Caches(), [ROOT], path) {
      NoTangleAlone(path);
    }
    RejectsRecursion();
    var path := KnotTangle(Caches(), {ROOT, OTHER}, [ROOT, OTHER]);
    var s := TangleDeadlocks(Caches(), [ROOT, OTHER], path);
  }

  /** The second cache is reached through the first only, and both are then on its path. */
  lemma OtherNotTangled(path: map<Key, seq<Key>>)
    requires OTHER in path
    ensures !Tangled(Caches(), [ROOT], path, OTHER) || (ROOT in path && !Tangled(Caches(), [ROOT], path, ROOT))
  {
    forall k, t ensures Edge(Caches(), k, t) <==> (k == ROOT && t == OTHER) || (k == OTHER && t == ROOT) {
      CacheEdges(k, t);
    }
  }

  lemma NoneOtherTangled(path: map<Key, seq<Key>>, k: Key)
    requires k in path && OTHER !in path
    ensures !Tangled(Caches(), [ROOT], path, k)
  {
    forall k, t ensures Edge(Caches(), k, t) <==> (k == ROOT && t == OTHER) || (k == OTHER && t == ROOT) {
      CacheEdges(k, t);
    }
  }

  lemma NoTangleAlone(path: map<Key, seq<Key>>)
    ensures !Tangle(Caches(), [ROOT], path)
  {
    if OTHER in path {
      OtherNotTangled(path);
    } else if path != map[] {
      var k :| k in path;
      NoneOtherTangled(path, k);
    }
  }

  // ----------------------------------------------- one build, followed or suspended

  const FORK := Key(0, "fork")
  const LEFT := Key(0, "left")
  const RIGHT := Key(0, "right")

  /** A cache of two caches that refer to each other. */
  function Forked(): Config {
    map[FORK := Builder([Ref(0, "&left"), Ref(0, "&right")], false),
        LEFT := Builder([Ref(0, "&right")], false),
        RIGHT := Builder([Ref(0, "&left")], false)]
  }

  lemma ForkedEdges()
    ensures Edge(Forked(), FORK, LEFT) && Edge(Forked(), FORK, RIGHT)
    ensures Edge(Forked(), LEFT, RIGHT) && Edge(Forked(), RIGHT, LEFT)
  {
    assert Target(Ref(0, "&left")) == Some(LEFT) && Target(Ref(0, "&right")) == Some(RIGHT);
    assert Target(Forked()[FORK].refs[0]) == Some(LEFT) && Target(Forked()[FORK].refs[1]) == Some(RIGHT);
    assert Target(Forked()[LEFT].refs[0]) == Some(RIGHT) && Target(Forked()[RIGHT].refs[0]) == Some(LEFT);
  }

  function ForkedPaths(): map<Key, seq<Key>> {
    map[FORK := [FORK], LEFT := [FORK, LEFT], RIGHT := [FORK, RIGHT]]
  }

  lemma ThreeKeys()
    ensures FORK != LEFT && FORK != RIGHT && LEFT != RIGHT
  {
    assert FORK.name[0] == 'f' && LEFT.name[0] == 'l' && RIGHT.name[0] == 'r';
  }

  lemma ForkTangled()
    ensures Tangled(Forked(), [FORK], ForkedPaths(), FORK)
  {
    ThreeKeys();
    ForkedEdges();
    assert LEFT in ForkedPaths() && LEFT !in ForkedPaths()[FORK];
  }

  lemma SideTangled(k: Key, t: Key)
    requires (k == LEFT && t == RIGHT) || (k == RIGHT && t == LEFT)
    ensures Tangled(Forked(), [FORK], ForkedPaths(), k)
  {
    ThreeKeys();
    ForkedEdges();
    assert ForkedPaths()[k] == [FORK, k] && [FORK, k][..1] == [FORK];
    assert t in ForkedPaths() && t !in ForkedPaths()[k] && Edge(Forked(), k, t);
  }

  /** If builders may be suspended before they ask for their references, a single build of the
      fork can get stuck: both sides are taken before either asks for the other. */
  lemma ForkSuspended() returns (s: State)
    ensures Reachable(Forked(), [FORK], s) && Stuck(s)
  {
    ForkTangled();
    SideTangled(LEFT, RIGHT);
    SideTangled(RIGHT, LEFT);
    s := TangleDeadlocks(Forked(), [FORK], ForkedPaths());
  }

  /** Every reference leads to a configured store and no builder fails by itself. */
  ghost predicate Sane(cfg: Config) {
    forall k :: k in cfg ==> !cfg[k].fails && LeadsInto(cfg, cfg[k].refs)
  }

  ghost predicate LeadsInto(cfg: Config, refs: seq<Ref>) {
    forall i :: 0 <= i < |refs| ==> Target(refs[i]).Some? && Target(refs[i]).value in cfg
  }

  /** Then cycles are the only reason to fail. */
  lemma OnlyRecursion(cfg: Config, k: Key, e: Error)
    requires Sane(cfg) && k in cfg && Explains(cfg, k, e)
    ensures e.Recursion?
  {
    var p :| PathFrom(cfg, k, p) && Blames(cfg, p, e);
    if |p| > 1 { assert EdgeAt(cfg, p, |p| - 1); }
  }

  lemma ForkedSane()
    ensures Sane(Forked())
  {
    assert Target(Ref(0, "&left")) == Some(LEFT) && Target(Ref(0, "&right")) == Some(RIGHT);
  }

  lemma ForkNotGood()
    ensures !Good(Forked(), FORK)
  {
    ForkedEdges();
    var p := [FORK, LEFT, RIGHT, LEFT];
    RepeatExplains(Forked(), p, 1, 3);
    ExplainsNotGood(Forked(), FORK, Recursion(Names(p[1..3])));
  }

  /** Followed to its end, request after request, that build fails with the cycle instead. */
  method ForkFollowed() returns (res: Result)
    ensures res.Err? && res.error.Recursion?
  {
    ForkNotGood();
    ForkedSane();
    var cfg := Forked();
    var stores := new Stores(cfg);
    res := stores.Build(FORK);
    OnlyRecursion(cfg, FORK, res.error);
  }
}
