/**
 * The hook's pickup latch and rope-chain growth as a state machine on values.
 *
 * Segments are identified by their index in the chain (0 is the segment
 * nearest the yarn). A segment is represented by the position it was placed
 * at; the hinge wiring is a map from segment id to the body its joint is
 * connected to. The class Hook.Gancho keeps exactly this state in its fields
 * and its methods are proved to follow Pickup and Spawn below.
 */
module Rope {
  import opened Geometry

  /** A rigid body a hinge joint can be connected to: the yarn, or the segment with the given id. */
  datatype Body = Yarn | SegmentBody(id: nat)

  /**
   * What the hook's own hinge is connected to: the body configured in the
   * scene before the script wires anything (SceneDefault), or a body the
   * script connected it to.
   */
  datatype HookLink = SceneDefault | LinkedTo(body: Body)

  /** The inspector settings: the length of one segment and the largest hook-to-yarn distance that still grows the rope. */
  datatype Config = Config(segmentLength: real, maxRadius: real)

  /** The inspector defaults. */
  const DefaultConfig := Config(1.0, 10.0)

  /**
   * The observable state of the component: the pickup latch, the spawn position
   * of every segment (index = segment id), each segment joint's connected body,
   * the hook hinge's connected body and the point where the next segment will
   * be placed.
   */
  datatype State = State(
    hasPickedYarn: bool,
    segments: seq<Vec3>,
    connectedBody: map<nat, Body>,
    hookConnected: HookLink,
    lastYarnSegmentPosition: Vec3)

  /** One pointer event: MoveCursor then SpawnYarn, in the order both handlers are registered. */
  datatype PointerEvent = PointerEvent(overlapping: bool, hookPosition: Vec3, distanceToYarn: real)

  /** The state once Start has run: nothing picked, no segments, next segment at the yarn. */
  function Initial(yarnPosition: Vec3): (r: State)
    ensures !r.hasPickedYarn && r.segments == [] && r.lastYarnSegmentPosition == yarnPosition
    ensures forall cfg :: Invariant(cfg, r)
  {
    State(false, [], map[], SceneDefault, yarnPosition)
  }

  /** The body segment `id` must hang from in a well-formed chain. */
  function Predecessor(id: nat): Body
  {
    if id == 0 then Yarn else SegmentBody(id - 1)
  }

  /** Every segment joint is wired, and only segment joints are: segment 0 to the yarn, segment i to segment i - 1. */
  ghost predicate Chained(segments: seq<Vec3>, connectedBody: map<nat, Body>)
  {
    (forall id :: id in connectedBody ==> id < |segments|) &&
    (forall id :: 0 <= id < |segments| ==> id in connectedBody && connectedBody[id] == Predecessor(id))
  }

  /** The hook hangs from the newest segment once there is one. */
  ghost predicate HookAtEnd(s: State)
  {
    s.hookConnected == if s.segments == [] then SceneDefault else LinkedTo(SegmentBody(|s.segments| - 1))
  }

  /** The last segment was spawned within the maximum radius, past the rope that existed then. */
  ghost predicate WithinRadius(cfg: Config, s: State)
  {
    s.segments != [] ==> (|s.segments| - 1) as real * cfg.segmentLength < cfg.maxRadius
  }

  /** What holds in every reachable state. */
  ghost predicate Invariant(cfg: Config, s: State)
  {
    Chained(s.segments, s.connectedBody) &&
    HookAtEnd(s) &&
    (s.segments != [] ==> s.hasPickedYarn) &&
    WithinRadius(cfg, s)
  }

  /**
   * The latch of MoveCursor: the yarn becomes picked when the hook and yarn
   * rectangles overlap, and is never dropped. Nothing else changes.
   */
  function Pickup(s: State, overlapping: bool): (r: State)
    ensures r.hasPickedYarn <==> s.hasPickedYarn || overlapping
    ensures r.(hasPickedYarn := s.hasPickedYarn) == s
  {
    if !s.hasPickedYarn && overlapping then s.(hasPickedYarn := true) else s
  }

  /** The three guards of SpawnYarn all pass. */
  predicate CanSpawn(cfg: Config, s: State, distanceToYarn: real)
  {
    s.hasPickedYarn &&
    |s.segments| as real * cfg.segmentLength < distanceToYarn &&
    distanceToYarn <= cfg.maxRadius
  }

  /**
   * SpawnYarn: when the yarn is picked and the hook is farther from it than the
   * current rope is long but within the maximum radius, one segment is placed
   * at the remembered spawn point, hinged to the previous segment (or to the
   * yarn if it is the first), the hook is re-hinged to it and the spawn point
   * moves to the hook. Otherwise nothing changes.
   */
  function Spawn(cfg: Config, s: State, hookPosition: Vec3, distanceToYarn: real): (r: State)
    ensures !s.hasPickedYarn ==> r == s
    ensures distanceToYarn <= |s.segments| as real * cfg.segmentLength ==> r == s
    ensures distanceToYarn > cfg.maxRadius ==> r == s
    ensures CanSpawn(cfg, s, distanceToYarn) ==>
      r.hasPickedYarn == s.hasPickedYarn &&
      r.segments == s.segments + [s.lastYarnSegmentPosition] &&
      r.connectedBody == s.connectedBody[|s.segments| := Predecessor(|s.segments|)] &&
      r.hookConnected == LinkedTo(SegmentBody(|s.segments|)) &&
      r.lastYarnSegmentPosition == hookPosition
  {
    if !s.hasPickedYarn then s
    else
      var currentThreadLength := |s.segments| as real * cfg.segmentLength;
      if distanceToYarn <= currentThreadLength then s
      else if distanceToYarn > cfg.maxRadius then s
      else
        var id := |s.segments|;
        var segments := s.segments + [s.lastYarnSegmentPosition];
        var joint := if |segments| > 1 then SegmentBody(|segments| - 2) else Yarn;
        State(s.hasPickedYarn, segments, s.connectedBody[id := joint], LinkedTo(SegmentBody(id)), hookPosition)
  }

  /** One pointer event: both handlers in turn. */
  function Step(cfg: Config, s: State, e: PointerEvent): (r: State)
    ensures r.hasPickedYarn <==> s.hasPickedYarn || e.overlapping
    ensures s.segments <= r.segments && |r.segments| <= |s.segments| + 1
  {
    Spawn(cfg, Pickup(s, e.overlapping), e.hookPosition, e.distanceToYarn)
  }

  /** The event spawns a segment. */
  predicate SpawnsSegment(cfg: Config, s: State, e: PointerEvent)
  {
    CanSpawn(cfg, Pickup(s, e.overlapping), e.distanceToYarn)
  }

  /** A sequence of pointer events, in order. */
  function Run(cfg: Config, s: State, events: seq<PointerEvent>): (r: State)
    ensures s.hasPickedYarn ==> r.hasPickedYarn
    ensures s.segments <= r.segments && |r.segments| <= |s.segments| + |events|
    decreases |events|
  {
    if events == [] then s else Run(cfg, Step(cfg, s, events[0]), events[1..])
  }

  /** The hook positions of the events of a run that spawned a segment, in order. */
  function SpawnPositions(cfg: Config, s: State, events: seq<PointerEvent>): seq<Vec3>
    decreases |events|
  {
    if events == [] then []
    else
      (if SpawnsSegment(cfg, s, events[0]) then [events[0].hookPosition] else []) +
      SpawnPositions(cfg, Step(cfg, s, events[0]), events[1..])
  }

  // ---------------------------------------------------------------------------
  // The chain invariant

  lemma InitialInvariant(cfg: Config, yarnPosition: Vec3)
    ensures Invariant(cfg, Initial(yarnPosition))
    ensures !Initial(yarnPosition).hasPickedYarn
  {
  }

  lemma PickupPreservesInvariant(cfg: Config, s: State, overlapping: bool)
    requires Invariant(cfg, s)
    ensures Invariant(cfg, Pickup(s, overlapping))
  {
  }

  /** A spawn keeps the chain wired yarn-to-hook and keeps the radius bound. */
  lemma SpawnPreservesInvariant(cfg: Config, s: State, hookPosition: Vec3, distanceToYarn: real)
    requires Invariant(cfg, s)
    ensures Invariant(cfg, Spawn(cfg, s, hookPosition, distanceToYarn))
  {
  }

  lemma StepPreservesInvariant(cfg: Config, s: State, e: PointerEvent)
    requires Invariant(cfg, s)
    ensures Invariant(cfg, Step(cfg, s, e))
  {
    PickupPreservesInvariant(cfg, s, e.overlapping);
    SpawnPreservesInvariant(cfg, Pickup(s, e.overlapping), e.hookPosition, e.distanceToYarn);
  }

  lemma {:induction false} RunPreservesInvariant(cfg: Config, s: State, events: seq<PointerEvent>)
    requires Invariant(cfg, s)
    ensures Invariant(cfg, Run(cfg, s, events))
    decreases |events|
  {
    if events != [] {
      StepPreservesInvariant(cfg, s, events[0]);
      RunPreservesInvariant(cfg, Step(cfg, s, events[0]), events[1..]);
    }
  }

  /**
   * Every state the component reaches from Start is a chain: segment 0 hangs
   * from the yarn, segment i from segment i - 1, the hook from the newest
   * segment, segments exist only once the yarn is picked, and the newest
   * segment was spawned within the maximum radius.
   */
  lemma ReachableIsChain(cfg: Config, yarnPosition: Vec3, events: seq<PointerEvent>)
    ensures Invariant(cfg, Run(cfg, Initial(yarnPosition), events))
  {
    InitialInvariant(cfg, yarnPosition);
    RunPreservesInvariant(cfg, Initial(yarnPosition), events);
  }

  // ---------------------------------------------------------------------------
  // Growth: append-only, at most one segment per event, the latch only sets

  /**
   * Over any run the latch never resets, the chain only grows at its end by at
   * most one segment per event, and the placement and wiring of existing
   * segments never change.
   */
  lemma {:induction false} RunOnlyAppends(cfg: Config, s: State, events: seq<PointerEvent>)
    requires Invariant(cfg, s)
    ensures var t := Run(cfg, s, events);
      (s.hasPickedYarn ==> t.hasPickedYarn) &&
      s.segments <= t.segments &&
      |t.segments| <= |s.segments| + |events| &&
      (forall id :: id in s.connectedBody ==> id in t.connectedBody && t.connectedBody[id] == s.connectedBody[id])
    decreases |events|
  {
    if events != [] {
      var s1 := Step(cfg, s, events[0]);
      StepPreservesInvariant(cfg, s, events[0]);
      RunOnlyAppends(cfg, s1, events[1..]);
      forall id | id in s.connectedBody
        ensures id in s1.connectedBody && s1.connectedBody[id] == s.connectedBody[id]
      {
        assert id < |s.segments|;
      }
    }
  }

  /** The latch is set at the end of a run only if it was set before or some event saw the rectangles overlap. */
  lemma {:induction false} PickupNeedsOverlap(cfg: Config, s: State, events: seq<PointerEvent>)
    ensures Run(cfg, s, events).hasPickedYarn ==>
      s.hasPickedYarn || exists i :: 0 <= i < |events| && events[i].overlapping
    decreases |events|
  {
    if events != [] {
      var s1 := Step(cfg, s, events[0]);
      PickupNeedsOverlap(cfg, s1, events[1..]);
      if Run(cfg, s, events).hasPickedYarn && !s.hasPickedYarn && !events[0].overlapping {
        var i :| 0 <= i < |events[1..]| && events[1..][i].overlapping;
        assert events[i + 1].overlapping;
      }
    }
  }

  /** Until the yarn is picked, pointer events that never overlap it change nothing at all. */
  lemma {:induction false} NoOverlapNoChange(cfg: Config, s: State, events: seq<PointerEvent>)
    requires !s.hasPickedYarn
    requires forall i :: 0 <= i < |events| ==> !events[i].overlapping
    ensures Run(cfg, s, events) == s
    decreases |events|
  {
    if events != [] {
      assert Step(cfg, s, events[0]) == s;
      NoOverlapNoChange(cfg, s, events[1..]);
    }
  }

  // ---------------------------------------------------------------------------
  // Where segments are placed

  /**
   * Each segment is placed where the hook was when the previous segment was
   * spawned (the first one at the remembered spawn point), and afterwards the
   * spawn point is where the hook was at the last spawn.
   */
  lemma {:induction false} RunTrail(cfg: Config, s: State, events: seq<PointerEvent>)
    ensures var t := Run(cfg, s, events);
      var trail := [s.lastYarnSegmentPosition] + SpawnPositions(cfg, s, events);
      t.segments == s.segments + trail[..|trail| - 1] &&
      t.lastYarnSegmentPosition == trail[|trail| - 1]
    decreases |events|
  {
    if events != [] {
      var e := events[0];
      var s1 := Step(cfg, s, e);
      RunTrail(cfg, s1, events[1..]);
      var rest := SpawnPositions(cfg, s1, events[1..]);
      var trail1 := [s1.lastYarnSegmentPosition] + rest;
      var trail := [s.lastYarnSegmentPosition] + SpawnPositions(cfg, s, events);
      if SpawnsSegment(cfg, s, e) {
        assert s1.segments == s.segments + [s.lastYarnSegmentPosition];
        assert trail == [s.lastYarnSegmentPosition] + trail1;
        assert trail[..|trail| - 1] == [s.lastYarnSegmentPosition] + trail1[..|trail1| - 1];
      } else {
        assert s1.segments == s.segments && s1.lastYarnSegmentPosition == s.lastYarnSegmentPosition;
        assert trail == trail1;
      }
    }
  }

  /** From Start, segment 0 sits at the yarn and segment i + 1 where the hook was when segment i was spawned. */
  lemma ReachableTrail(cfg: Config, yarnPosition: Vec3, events: seq<PointerEvent>)
    ensures var t := Run(cfg, Initial(yarnPosition), events);
      var spawned := SpawnPositions(cfg, Initial(yarnPosition), events);
      |t.segments| == |spawned| &&
      (t.segments != [] ==> t.segments[0] == yarnPosition) &&
      (forall i :: 0 < i < |t.segments| ==> t.segments[i] == spawned[i - 1])
  {
    RunTrail(cfg, Initial(yarnPosition), events);
  }

  // ---------------------------------------------------------------------------
  // How long the rope can grow

  /**
   * With a positive segment length the chain is bounded: a non-empty chain
   * has fewer than maxRadius / segmentLength + 1 segments.
   */
  lemma SegmentCountBounded(cfg: Config, s: State)
    requires Invariant(cfg, s)
    requires cfg.segmentLength > 0.0
    ensures s.segments != [] ==> (|s.segments| as real) < cfg.maxRadius / cfg.segmentLength + 1.0
  {
    if s.segments != [] {
      var m := (|s.segments| - 1) as real;
      var q := cfg.maxRadius / cfg.segmentLength;
      assert q * cfg.segmentLength == cfg.maxRadius;
      if m >= q {
        assert false;
      }
    }
  }

  /** With the inspector defaults (length 1, radius 10) the rope has at most ten segments. */
  lemma DefaultChainAtMostTen(s: State)
    requires Invariant(DefaultConfig, s)
    ensures |s.segments| <= 10
  {
    SegmentCountBounded(DefaultConfig, s);
  }

  /**
   * The source never requires a positive segment length. With a length of zero
   * or less, a picked-up yarn and the hook anywhere within the radius (but not
   * on the yarn), every pointer event adds a segment: the chain grows without
   * bound.
   */
  lemma {:induction false} NonPositiveLengthGrowsEveryEvent(cfg: Config, s: State, events: seq<PointerEvent>)
    requires cfg.segmentLength <= 0.0
    requires s.hasPickedYarn
    requires forall i :: 0 <= i < |events| ==> 0.0 < events[i].distanceToYarn <= cfg.maxRadius
    ensures |Run(cfg, s, events).segments| == |s.segments| + |events|
    decreases |events|
  {
    if events != [] {
      var e := events[0];
      assert |s.segments| as real * cfg.segmentLength <= 0.0;
      var s1 := Step(cfg, s, e);
      assert |s1.segments| == |s.segments| + 1;
      NonPositiveLengthGrowsEveryEvent(cfg, s1, events[1..]);
    }
  }
}
