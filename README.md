# Hook and yarn rope chain

A model of the `Gancho` ("hook") component of a small 2D game. The player moves the hook with the pointer. When the hook first overlaps the yarn, it picks the yarn up. From then on, every pointer event may grow a rope made of hinged segments. A new segment is spawned when the hook is farther from the yarn than the current rope is long (segment count times `segmentLength`), but no farther than `maxRadius`.

The model has three modules:

- `Geometry` (`geometry.dfy`) holds positions and the engine's rectangle value. It models `GetWorldRect`, which turns four world corners into an origin and a size. It also models `IsOverlapping` on top of an assumed rectangle-overlap test.
- `Rope` (`rope.dfy`) holds the component's observable state as a value. That state is the pickup latch, the spawn position of each segment (a segment's id is its index), the map from segment id to the body its hinge joint is connected to, the hook hinge's connection, and the next spawn point. `Pickup` and `Spawn` are the two handlers as functions, and `Run` applies a sequence of pointer events. The lemmas state the chain invariant, append-only growth, the latch, where segments are placed, and how far the rope can grow.
- `Hook` (`gancho.dfy`) holds the class `Gancho`, with the fields the source updates in place. Its `MoveCursor` and `SpawnYarn` methods are proved to follow `Rope.Pickup` and `Rope.Spawn` and to keep `Rope.Invariant`.

Lengths and distances are `real`. The hook's position and its distance to the yarn are inputs to `SpawnYarn`. The overlap result is computed from the corner arrays the engine would fill.

The code does not require `segmentLength > 0`. With a positive length, the chain is bounded (`SegmentCountBounded`; at most ten segments with the defaults 1 and 10). With a length of zero or less, once the yarn is picked, every pointer event at a positive distance within the radius adds a segment (`NonPositiveLengthGrowsEveryEvent`).

## Model

| member | source | states |
|---|---|---|
| `Geometry.GetWorldRect` | Assets/Scripts/Gancho.cs:152-161 | the rectangle's origin is corner 0 and its far edges (origin plus size) are corner 2 |
| `Geometry.CornersOf` | Assets/Scripts/Gancho.cs:154-155 | the assumed engine corner order: four corners, corner 0 at the rectangle's origin and corner 2 at its far edges |
| `Geometry.Overlaps` | Assets/Scripts/Gancho.cs:144 | the assumed engine overlap test; for rectangles of positive size it holds exactly when the intersection of their extents is non-empty on both axes |
| `Geometry.WorldRectOfCorners` | Assets/Scripts/Gancho.cs:154-161 | reading back the four engine-ordered corners of any rectangle gives that rectangle |
| `Geometry.CornersOfWorldRect` | Assets/Scripts/Gancho.cs:154-161 | conversely, four axis-aligned corners are exactly the corners of the rectangle read from them |
| `Geometry.OverlapsIffCommonInteriorPoint` | Assets/Scripts/Gancho.cs:144 | for rectangles of positive size, the assumed overlap test holds exactly when some point lies strictly inside both |
| `Geometry.IsOverlapping` | Assets/Scripts/Gancho.cs:140-145 | two world rectangles overlap exactly when, on both axes, each one's first corner lies strictly before the other's opposite corner |
| `Rope.Pickup` | Assets/Scripts/Gancho.cs:91-94 | after MoveCursor the yarn is picked exactly when it was already picked or the rectangles overlap; nothing else changes |
| `Rope.Spawn` | Assets/Scripts/Gancho.cs:101-132 | nothing changes when the yarn is not picked, when the distance is at most count times segmentLength, or when it exceeds maxRadius; otherwise one segment is appended at the old spawn point, hinged to its predecessor, the hook is hinged to it and the spawn point becomes the hook position |
| `Rope.Initial` | Assets/Scripts/Gancho.cs:35-62 | the state after the field initialisers and Start: latch false, no segments, next spawn point at the yarn, and it satisfies the chain invariant for any settings |
| `Rope.Step` | Assets/Scripts/Gancho.cs:66-67 | one pointer event runs MoveCursor then SpawnYarn: afterwards the yarn is picked exactly when it was before or the rectangles overlap, and the old segments are a prefix of at most one more |
| `Rope.Run` | Assets/Scripts/Gancho.cs:64-132 | a stream of pointer events in order: the latch never resets, and the old segments stay a prefix of at most one more per event |
| `Rope.InitialInvariant` | Assets/Scripts/Gancho.cs:35-62 | the start state (latch false, no segments) satisfies the chain invariant |
| `Rope.PickupPreservesInvariant` | Assets/Scripts/Gancho.cs:91-94 | setting the latch keeps the chain invariant |
| `Rope.SpawnPreservesInvariant` | Assets/Scripts/Gancho.cs:119-131 | a spawn keeps every segment hinged to its predecessor (segment 0 to the yarn), the hook hinged to the newest segment, and the newest segment within the radius bound |
| `Rope.StepPreservesInvariant` | Assets/Scripts/Gancho.cs:66-67 | one pointer event (MoveCursor, then SpawnYarn, in registration order) keeps the chain invariant |
| `Rope.RunPreservesInvariant` | Assets/Scripts/Gancho.cs:82-132 | any sequence of pointer events keeps the chain invariant |
| `Rope.ReachableIsChain` | Assets/Scripts/Gancho.cs:125-130 | every state reached from Start is a chain: segment 0 on the yarn, segment i on segment i-1, the hook on the last segment, segments only once picked, and for a non-empty chain (count-1) times segmentLength below maxRadius |
| `Rope.RunOnlyAppends` | Assets/Scripts/Gancho.cs:119-128 | over any run the latch never resets, the old segments stay a prefix, at most one segment is added per event, and existing joint connections never change |
| `Rope.PickupNeedsOverlap` | Assets/Scripts/Gancho.cs:91-94 | the latch is set after a run only if it was set before or some event overlapped |
| `Rope.NoOverlapNoChange` | Assets/Scripts/Gancho.cs:103-104 | while the yarn is not picked, events that never overlap leave the whole state unchanged |
| `Rope.RunTrail` | Assets/Scripts/Gancho.cs:119-131 | each new segment is placed where the hook was at the previous spawn (the first at the old spawn point), and the spawn point ends at the hook position of the last spawn |
| `Rope.ReachableTrail` | Assets/Scripts/Gancho.cs:61-131 | from Start, segment 0 sits at the yarn's start position and segment i+1 where the hook was when segment i was spawned |
| `Rope.SegmentCountBounded` | Assets/Scripts/Gancho.cs:106-112 | with segmentLength > 0, a non-empty reachable chain has fewer than maxRadius / segmentLength + 1 segments |
| `Rope.DefaultChainAtMostTen` | Assets/Scripts/Gancho.cs:41-46 | with the defaults (length 1, radius 10) the chain has at most ten segments |
| `Rope.NonPositiveLengthGrowsEveryEvent` | Assets/Scripts/Gancho.cs:106-112 | with segmentLength <= 0, once picked, every event at a distance in (0, maxRadius] adds a segment, so the chain is unbounded |
| `Hook.Gancho.constructor` | Assets/Scripts/Gancho.cs:35-62 | field initialisers plus Start: the start state, which satisfies the invariant |
| `Hook.Gancho.MoveCursor` | Assets/Scripts/Gancho.cs:82-95 | the fields follow `Rope.Pickup` on the overlap of the two corner sets; the latch never clears; the invariant is kept |
| `Hook.Gancho.SpawnYarn` | Assets/Scripts/Gancho.cs:101-132 | the fields follow `Rope.Spawn`; the old segments are a prefix of the new ones, at most one is added; the invariant is kept |

## Left out

- Engine lifecycle and input wiring (`Awake`, `Start`'s component lookups, `OnEnable`, `OnDisable`, the input action map). Only the registration order of the two handlers is kept, as `Rope.Step`. `Start`'s effect on `lastYarnSegmentPosition` is folded into the constructor.
- Moving the hook: `Camera.main.ScreenToWorldPoint` and `Rigidbody2D.MovePosition` are engine calls. The hook's position and its distance to the yarn are inputs to `SpawnYarn`, and the overlap is an input to each pointer event of `Rope.Run`. When the physics step applies the move is not modelled.
- The rotation of a new segment (`normalized`, `Mathf.Atan2`, `Quaternion.Euler`) is floating-point trigonometry that only affects rendering.
- `Instantiate`: the prefab, the parenting under the yarn transform, and the segment as a game object. A segment is its id and its spawn position. Its joint's `connectedBody` is written in the same call that creates it, so it is an entry of the `connectedBody` map.
- `Vector3.Distance` is not computed. The distance is a given `real`.
- `Rect.Overlaps` and `RectTransform.GetWorldCorners` are engine code that is not part of this model. `Geometry.Overlaps` assumes the strict interval-intersection test. `Geometry.CornersOf` assumes the corner order bottom-left, top-left, top-right, bottom-right.
- How the 2D physics solver simulates the hinges. Only the wiring is modelled, and the hook hinge's initial connection is an opaque `SceneDefault`.
- Float rounding and 32-bit float range: lengths, distances and `segments.Count * segmentLength` are exact `real` arithmetic.
- Missing engine components are not modelled: the prefab, its `HingeJoint2D`, the hook's `HingeJoint2D` and the yarn's `Rigidbody2D` are assumed present. In the source a missing one makes `SpawnYarn` throw part-way (for example after the segment was appended but before it was wired, which breaks the chain invariant), or wires the first segment to the world instead of the yarn. The design's only error handling is the engine's implicit null-reference behaviour.
- `Hook.Gancho.constructor`: `segmentLength` and `maxRadius` are `const`, fixed for the component's lifetime. In the source they are public inspector fields that can be edited while the game runs. `Rope.WithinRadius`, `Rope.SegmentCountBounded` and `Rope.DefaultChainAtMostTen` hold only for settings that stay fixed: after a change, a reachable chain may break the radius bound for the new settings.
