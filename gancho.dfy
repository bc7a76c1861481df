/**
 * The hook component itself: the fields MoveCursor and SpawnYarn update in
 * place, and the two handlers as methods proved to follow Rope.Pickup and
 * Rope.Spawn while keeping the chain invariant.
 */
module Hook {
  import opened Geometry
  import opened Rope

  class Gancho {
    /** Inspector settings; the script never writes them. */
    const segmentLength: real
    const maxRadius: real

    var hasPickedYarn: bool
    /** Spawn position of each segment; a segment's id is its index. */
    var segments: seq<Vec3>
    /** The connected body of each segment's hinge joint, by segment id. */
    var connectedBody: map<nat, Body>
    /** The connected body of the hook's own hinge. */
    var hookConnected: HookLink
    var lastYarnSegmentPosition: Vec3

    function Settings(): Config
    {
      Config(segmentLength, maxRadius)
    }

    /** The component's state as a value. */
    function Model(): State
      reads this
    {
      State(hasPickedYarn, segments, connectedBody, hookConnected, lastYarnSegmentPosition)
    }

    ghost predicate Valid()
      reads this
    {
      Invariant(Settings(), Model())
    }

    /**
     * The field initialisers together with Start: nothing picked, no segments,
     * the next segment goes at the yarn's position.
     */
    constructor (yarnPosition: Vec3, segmentLength: real, maxRadius: real)
      ensures Valid()
      ensures Settings() == Config(segmentLength, maxRadius)
      ensures Model() == Initial(yarnPosition)
    {
      this.segmentLength := segmentLength;
      this.maxRadius := maxRadius;
      hasPickedYarn := false;
      segments := [];
      connectedBody := map[];
      hookConnected := SceneDefault;
      lastYarnSegmentPosition := yarnPosition;
    }

    /**
     * The pickup latch of MoveCursor, given the world corners of the yarn and
     * of the hook. Moving the hook's rigidbody is left to the engine.
     */
    method MoveCursor(yarnCorners: seq<Vec3>, hookCorners: seq<Vec3>)
      requires |yarnCorners| == 4 && |hookCorners| == 4
      requires Valid()
      modifies this
      ensures Valid()
      ensures Model() == Pickup(old(Model()), IsOverlapping(yarnCorners, hookCorners))
      ensures old(hasPickedYarn) ==> hasPickedYarn
    {
      if !hasPickedYarn && IsOverlapping(yarnCorners, hookCorners) {
        hasPickedYarn := true;
      }
      PickupPreservesInvariant(Settings(), old(Model()), IsOverlapping(yarnCorners, hookCorners));
    }

    /**
     * SpawnYarn, given the hook's current position and its distance to the
     * yarn: grows the rope by at most one segment, appended at the end.
     */
    method SpawnYarn(hookPosition: Vec3, distanceToYarn: real)
      requires Valid()
      modifies this
      ensures Valid()
      ensures Model() == Spawn(Settings(), old(Model()), hookPosition, distanceToYarn)
      ensures old(segments) <= segments && |segments| <= old(|segments|) + 1
    {
      SpawnPreservesInvariant(Settings(), Model(), hookPosition, distanceToYarn);
      if !hasPickedYarn {
        return;
      }

      var currentThreadLength := |segments| as real * segmentLength;
      if distanceToYarn <= currentThreadLength {
        return;
      }

      if distanceToYarn > maxRadius {
        return;
      }

      var newSegment := |segments|;
      segments := segments + [lastYarnSegmentPosition];

      if |segments| > 1 {
        connectedBody := connectedBody[newSegment := SegmentBody(|segments| - 2)];
      } else {
        connectedBody := connectedBody[newSegment := Yarn];
      }

      hookConnected := LinkedTo(SegmentBody(newSegment));
      lastYarnSegmentPosition := hookPosition;
    }
  }
}
