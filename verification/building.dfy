/**
 The building record: a capacity fixed at creation from the building's
 proportions, a habitation/workplace role, the ordered lists of inhabitants
 and workers, and the row of window lights.
 */
module Buildings {
  import opened Basics
  import Windows

  /** A direction in the scene; only stored and handed back, never computed with. */
  datatype Vec3 = Vec3(x: real, y: real, z: real)

  datatype Building = Building(
    capacity: nat,
    habitation: bool,
    inhabitants: seq<AgentId>,
    workers: seq<AgentId>,
    windows: seq<bool>,
    toRoad: Vec3)

  /** Neither occupant list exceeds the capacity (the condition the assertions of `AddInhabitant` and `AddWorker` guard). */
  ghost predicate Occupancy(b: Building) {
    |b.inhabitants| <= b.capacity && |b.workers| <= b.capacity
  }

  /** One window per unit of capacity, lit windows forming a prefix. */
  ghost predicate WindowsOk(b: Building) {
    |b.windows| == b.capacity && Windows.LitPrefix(b.windows)
  }

  /**
   `Init` on a freshly placed building of the given height and width: the
   capacity is the truncated ratio height/width, there is one dark window per
   unit of capacity, and the role is the field's default, workplace.
   */
  function Init(toRoad: Vec3, height: real, width: real): (b: Building)
    requires 0.0 <= height && 0.0 < width
    ensures b.capacity as real * width <= height < (b.capacity + 1) as real * width
    ensures |b.windows| == b.capacity && forall i :: 0 <= i < |b.windows| ==> !b.windows[i]
    ensures b.inhabitants == [] && b.workers == []
    ensures !b.habitation
    ensures b.toRoad == toRoad
  {
    TruncRatio(height, width);
    var capacity := Trunc(height / width);
    Building(capacity, false, [], [], Windows.Lights(capacity, 0), toRoad)
  }

  /** The truncated ratio of two non-negative reals brackets the numerator between multiples of the denominator. */
  lemma TruncRatio(height: real, width: real)
    requires 0.0 <= height && 0.0 < width
    ensures 0 <= Trunc(height / width)
    ensures Trunc(height / width) as real * width <= height < (Trunc(height / width) + 1) as real * width
  {
    var q := height / width;
    var n := Trunc(q) as real;
    assert q * width == height;
    assert 0.0 <= q by { DivNonNegative(height, width); }
    ScaleMonotone(n, q, width);
    ScaleStrict(q, n + 1.0, width);
    assert (Trunc(q) + 1) as real == n + 1.0;
    assert height < (n + 1.0) * width;
    assert (Trunc(q) + 1) as real * width == (n + 1.0) * width;
  }

  lemma DivNonNegative(a: real, w: real)
    requires 0.0 <= a && 0.0 < w
    ensures 0.0 <= a / w
  {
  }

  lemma ScaleMonotone(a: real, b: real, w: real)
    requires a <= b && 0.0 < w
    ensures a * w <= b * w
  {
  }

  lemma ScaleStrict(a: real, b: real, w: real)
    requires a < b && 0.0 < w
    ensures a * w < b * w
  {
  }

  /** A building straight out of `Init` satisfies the occupancy and window invariants. */
  lemma InitValid(toRoad: Vec3, height: real, width: real)
    requires 0.0 <= height && 0.0 < width
    ensures Occupancy(Init(toRoad, height, width)) && WindowsOk(Init(toRoad, height, width))
  {
    Windows.LightsArePrefix(Init(toRoad, height, width).capacity, 0);
  }

  /** A building exactly twice as tall as it is wide holds two occupants. */
  lemma TwiceAsTallHoldsTwo(toRoad: Vec3, width: real)
    requires 0.0 < width
    ensures Init(toRoad, 2.0 * width, width).capacity == 2
  {
  }

  /** Adds an agent as inhabitant; the assertion of the source becomes the precondition. */
  function AddInhabitant(b: Building, a: AgentId): (r: Building)
    requires |b.inhabitants| < b.capacity
    ensures r.inhabitants == b.inhabitants + [a]
    ensures r.workers == b.workers && r.capacity == b.capacity
    ensures r.habitation == b.habitation && r.toRoad == b.toRoad
    ensures r.windows == Windows.OnAgentEnter(b.windows)
  {
    b.(inhabitants := b.inhabitants + [a], windows := Windows.OnAgentEnter(b.windows))
  }

  /** Adds an agent as worker; unlike `AddInhabitant` no window is lit. */
  function AddWorker(b: Building, a: AgentId): (r: Building)
    requires |b.workers| < b.capacity
    ensures r.workers == b.workers + [a]
    ensures r.inhabitants == b.inhabitants && r.capacity == b.capacity
    ensures r.habitation == b.habitation && r.toRoad == b.toRoad
    ensures r.windows == b.windows
  {
    b.(workers := b.workers + [a])
  }

  /** Full when either list has reached the capacity, whatever the role. */
  predicate IsFull(b: Building) {
    |b.inhabitants| == b.capacity || |b.workers| == b.capacity
  }

  /** Empty when neither list holds anyone. */
  predicate IsEmpty(b: Building) {
    |b.inhabitants| == 0 && |b.workers| == 0
  }

  function SwitchToHabitation(b: Building): (r: Building)
    ensures r.habitation
    ensures r.(habitation := b.habitation) == b
  {
    b.(habitation := true)
  }

  function SwitchToWorkplace(b: Building): (r: Building)
    ensures !r.habitation
    ensures r.(habitation := b.habitation) == b
  {
    b.(habitation := false)
  }

  predicate IsHabitable(b: Building) {
    b.habitation
  }

  /** Adding an inhabitant keeps both invariants and lights exactly one more window when one was dark. */
  lemma AddInhabitantValid(b: Building, a: AgentId)
    requires Occupancy(b) && WindowsOk(b)
    requires |b.inhabitants| < b.capacity
    ensures Occupancy(AddInhabitant(b, a)) && WindowsOk(AddInhabitant(b, a))
    ensures Windows.LitCount(AddInhabitant(b, a).windows)
         == if Windows.LitCount(b.windows) < b.capacity then Windows.LitCount(b.windows) + 1 else b.capacity
  {
    Windows.EnterKeepsPrefix(b.windows);
  }

  /** Adding a worker keeps both invariants. */
  lemma AddWorkerValid(b: Building, a: AgentId)
    requires Occupancy(b) && WindowsOk(b)
    requires |b.workers| < b.capacity
    ensures Occupancy(AddWorker(b, a)) && WindowsOk(AddWorker(b, a))
  {
  }

  /** Under the occupancy invariant, a building that is not full has room in both lists. */
  lemma NotFullHasRoom(b: Building)
    requires Occupancy(b)
    ensures !IsFull(b) <==> |b.inhabitants| < b.capacity && |b.workers| < b.capacity
  {
  }

  /** Fullness does not depend on the role; a building of capacity zero within its capacity is always full. */
  lemma FullIgnoresRole(b: Building, role: bool)
    ensures IsFull(b) == IsFull(b.(habitation := role))
    ensures Occupancy(b) && b.capacity == 0 ==> IsFull(b)
  {
  }

  /** An empty building is full only when it has no capacity at all. */
  lemma EmptyFull(b: Building)
    requires IsEmpty(b)
    ensures IsFull(b) <==> b.capacity == 0
  {
  }

  /** Switching is idempotent, the last switch decides the role, and a new building is a workplace. */
  lemma SwitchLaws(b: Building, toRoad: Vec3, height: real, width: real)
    requires 0.0 <= height && 0.0 < width
    ensures SwitchToHabitation(SwitchToHabitation(b)) == SwitchToHabitation(b)
    ensures SwitchToWorkplace(SwitchToWorkplace(b)) == SwitchToWorkplace(b)
    ensures IsHabitable(SwitchToHabitation(SwitchToWorkplace(b)))
    ensures !IsHabitable(SwitchToWorkplace(SwitchToHabitation(b)))
    ensures !IsHabitable(Init(toRoad, height, width))
  {
  }

  /** Switching the role leaves fullness, emptiness and the occupant lists as they were. */
  lemma SwitchKeepsOccupants(b: Building)
    ensures IsFull(SwitchToHabitation(b)) == IsFull(b) && IsFull(SwitchToWorkplace(b)) == IsFull(b)
    ensures IsEmpty(SwitchToHabitation(b)) == IsEmpty(b) && IsEmpty(SwitchToWorkplace(b)) == IsEmpty(b)
  {
  }
}
