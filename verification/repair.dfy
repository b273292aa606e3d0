/**
 The per-frame repair of the city: agents queued as homeless (workless) are
 given the highest-listed habitation (workplace) that is not full, in
 reverse queue order; an agent for which every candidate is full stays
 queued. Both scans are one operation here, parametrised by the `Side`
 filled: residents go to the habitations from the homeless queue, staff to
 the workplaces from the workless queue.
 */
module Repair {
  import opened Basics
  import opened Buildings
  import opened Cities
  import opened Assignment
  import opened Occupants
  import Inhabitants

  /** The queue of agents waiting for a building of that side. */
  function Queue(c: City, side: Side): seq<AgentId> {
    match side
    case Residents => c.homeless
    case Staff => c.workless
  }

  /** The role list the side draws from. */
  function Candidates(c: City, side: Side): seq<BuildingId> {
    match side
    case Residents => c.habitations
    case Staff => c.workplaces
  }

  /** The agent's reference for that side: its home or its workplace. */
  function Ref(a: Inhabitants.Agent, side: Side): Option<BuildingId> {
    match side
    case Residents => a.home
    case Staff => a.workplace
  }

  function WithQueue(c: City, side: Side, q: seq<AgentId>): (r: City)
    ensures Queue(r, side) == q && Queue(r, Other(side)) == Queue(c, Other(side))
    ensures r.agents == c.agents && r.buildings == c.buildings
    ensures Candidates(r, side) == Candidates(c, side) && r.habitations == c.habitations && r.workplaces == c.workplaces
    ensures r.population == c.population
    ensures r.(homeless := c.homeless, workless := c.workless) == c
  {
    match side
    case Residents => c.(homeless := q)
    case Staff => c.(workless := q)
  }

  /** `SetHome` with `AddInhabitant`, or `SetWorkPlace` with `AddWorker`. */
  function Place(c: City, side: Side, b: BuildingId, a: AgentId): (r: City)
    requires a in c.agents && b in c.buildings && |Members(c.buildings[b], side)| < c.buildings[b].capacity
    ensures r.agents.Keys == c.agents.Keys && r.buildings.Keys == c.buildings.Keys
    ensures Ref(r.agents[a], side) == Some(b)
    ensures forall x :: x in c.agents && x != a ==> r.agents[x] == c.agents[x]
    ensures Members(r.buildings[b], side) == Members(c.buildings[b], side) + [a]
    ensures Members(r.buildings[b], Other(side)) == Members(c.buildings[b], Other(side))
    ensures r.buildings[b].capacity == c.buildings[b].capacity
    ensures forall x :: x in c.buildings && x != b ==> r.buildings[x] == c.buildings[x]
    ensures Queue(r, side) == Queue(c, side) && Queue(r, Other(side)) == Queue(c, Other(side))
    ensures r.habitations == c.habitations && r.workplaces == c.workplaces && r.population == c.population
    ensures r.(agents := c.agents, buildings := c.buildings) == c
  {
    match side
    case Residents => Settle(c, b, a)
    case Staff => Employ(c, b, a)
  }

  lemma PlaceValid(c: City, side: Side, b: BuildingId, a: AgentId)
    requires Valid(c) && a in c.agents && b in c.buildings && |Members(c.buildings[b], side)| < c.buildings[b].capacity
    ensures Valid(Place(c, side, b, a))
  {
    match side
    case Residents => SettleValid(c, b, a);
    case Staff => EmployValid(c, b, a);
  }

  lemma PlaceKeeps(c: City, side: Side, b: BuildingId, a: AgentId)
    requires a in c.agents && b in c.buildings && |Members(c.buildings[b], side)| < c.buildings[b].capacity
    ensures Housed(c) ==> Housed(Place(c, side, b, a))
    ensures Employed(c) ==> Employed(Place(c, side, b, a))
  {
    match side
    case Residents => SettleKeeps(c, b, a);
    case Staff => EmployKeeps(c, b, a);
  }

  /** A building that is not full, within its capacity, has room on either side. */
  lemma RoomIfNotFull(b: Building, side: Side)
    requires Occupancy(b) && !IsFull(b)
    ensures |Members(b, side)| < b.capacity
  {
  }

  /** The building exists and is not full. */
  predicate HasRoom(bs: map<BuildingId, Building>, id: BuildingId) {
    id in bs && !IsFull(bs[id])
  }

  /**
   The candidate a relocation picks: the highest index whose building has
   room, or -1 when none has.
   */
  function HighestRoom(bs: map<BuildingId, Building>, ids: seq<BuildingId>): (j: int)
    ensures -1 <= j < |ids|
    ensures 0 <= j ==> HasRoom(bs, ids[j])
    ensures forall k :: j < k < |ids| ==> !HasRoom(bs, ids[k])
  {
    if |ids| == 0 then -1
    else if HasRoom(bs, ids[|ids| - 1]) then |ids| - 1
    else HighestRoom(bs, ids[..|ids| - 1])
  }

  /** Any index with room above which no index has room is the one `HighestRoom` picks. */
  lemma HighestRoomUnique(bs: map<BuildingId, Building>, ids: seq<BuildingId>, j: int)
    requires -1 <= j < |ids|
    requires 0 <= j ==> HasRoom(bs, ids[j])
    requires forall k :: j < k < |ids| ==> !HasRoom(bs, ids[k])
    ensures j == HighestRoom(bs, ids)
  {
  }

  /**
   The inner scan, from the last candidate down: the highest index whose
   building is not full, or -1 when every listed building is full.
   */
  method LastNotFull(bs: map<BuildingId, Building>, ids: seq<BuildingId>) returns (j: int)
    requires forall k :: 0 <= k < |ids| ==> ids[k] in bs
    ensures -1 <= j < |ids|
    ensures 0 <= j ==> !IsFull(bs[ids[j]])
    ensures forall k :: j < k < |ids| ==> IsFull(bs[ids[k]])
    ensures j == HighestRoom(bs, ids)
  {
    j := |ids| - 1;
    while 0 <= j && IsFull(bs[ids[j]])
      invariant -1 <= j < |ids|
      invariant forall k :: j < k < |ids| ==> IsFull(bs[ids[k]])
    {
      j := j - 1;
    }
    HighestRoomUnique(bs, ids, j);
  }

  /** Every listed building exists and is full. */
  ghost predicate AllFull(bs: map<BuildingId, Building>, ids: seq<BuildingId>) {
    forall k :: 0 <= k < |ids| ==> ids[k] in bs && IsFull(bs[ids[k]])
  }

  /** The agent has a reference of that side to a candidate building that lists it. */
  ghost predicate Placed(c: City, side: Side, a: AgentId) {
    && a in c.agents && Ref(c.agents[a], side).Some?
    && Ref(c.agents[a], side).value in Candidates(c, side)
    && Ref(c.agents[a], side).value in c.buildings
    && a in Members(c.buildings[Ref(c.agents[a], side).value], side)
  }

  /**
   From `c` to `city`, only that side changed: agents only in that
   reference, buildings only by appending to that occupant list (and, for
   residents, the window lights), and the queue of that side.
   */
  ghost predicate Grows(c: City, side: Side, city: City) {
    && city.agents.Keys == c.agents.Keys && city.buildings.Keys == c.buildings.Keys
    && (forall a :: a in c.agents ==> Ref(city.agents[a], Other(side)) == Ref(c.agents[a], Other(side)))
    && (forall b :: b in c.buildings ==>
          && Members(c.buildings[b], side) <= Members(city.buildings[b], side)
          && Members(city.buildings[b], Other(side)) == Members(c.buildings[b], Other(side))
          && city.buildings[b].capacity == c.buildings[b].capacity)
    && Queue(city, Other(side)) == Queue(c, Other(side))
    && city.habitations == c.habitations && city.workplaces == c.workplaces && city.population == c.population
    && city.done == c.done
  }

  /** Every agent taken off the queue (counting copies) is placed. */
  ghost predicate Dequeued(c: City, side: Side, city: City) {
    && multiset(Queue(city, side)) <= multiset(Queue(c, side))
    && forall a :: a in multiset(Queue(c, side)) - multiset(Queue(city, side)) ==> Placed(city, side, a)
  }

  /** The loop state of the relocation with `i` queue positions left to visit. */
  ghost predicate Relocating(c: City, side: Side, city: City, i: nat) {
    && Valid(city) && i <= |Queue(city, side)|
    && Grows(c, side, city) && Dequeued(c, side, city)
    && (|Queue(city, side)| > i ==> AllFull(city.buildings, Candidates(city, side)))
    && (Housed(c) ==> Housed(city)) && (Employed(c) ==> Employed(city))
  }

  lemma RelocatingStart(c: City, side: Side)
    requires Valid(c)
    ensures Relocating(c, side, c, |Queue(c, side)|)
  {
  }

  /** The city after one successful visit: agent `a` placed in `b` and one copy of it dequeued. */
  function Move(city: City, side: Side, b: BuildingId, a: AgentId): (r: City)
    requires a in city.agents && b in city.buildings && |Members(city.buildings[b], side)| < city.buildings[b].capacity
  {
    WithQueue(Place(city, side, b, a), side, RemoveFirst(Queue(city, side), a))
  }

  lemma MoveValid(city: City, side: Side, b: BuildingId, a: AgentId)
    requires Valid(city) && a in city.agents && b in city.buildings && |Members(city.buildings[b], side)| < city.buildings[b].capacity
    ensures Valid(Move(city, side, b, a))
  {
    PlaceValid(city, side, b, a);
    var p := Place(city, side, b, a);
    var q := RemoveFirst(Queue(city, side), a);
    RemoveFirstMultiset(Queue(city, side), a);
    forall k | 0 <= k < |q|
      ensures q[k] in p.agents
    {
      assert q[k] in multiset(q);
      assert q[k] in Queue(city, side);
      assert AgentLists(city);
      match side
      case Residents =>
      case Staff =>
    }
    WithQueueValid(p, side, q);
  }

  lemma MoveGrows(c: City, side: Side, city: City, b: BuildingId, a: AgentId)
    requires Grows(c, side, city)
    requires a in city.agents && b in city.buildings && |Members(city.buildings[b], side)| < city.buildings[b].capacity
    ensures Grows(c, side, Move(city, side, b, a))
  {
    var r := Move(city, side, b, a);
    forall x | x in c.agents
      ensures Ref(r.agents[x], Other(side)) == Ref(c.agents[x], Other(side))
    {
      if x == a {
        match side
        case Residents => assert r.agents[a] == Inhabitants.SetHome(city.agents[a], b);
        case Staff => assert r.agents[a] == Inhabitants.SetWorkPlace(city.agents[a], b);
      }
    }
    forall x | x in c.buildings
      ensures Members(c.buildings[x], side) <= Members(r.buildings[x], side)
    {
      if x == b {
        assert Members(city.buildings[b], side) <= Members(r.buildings[b], side);
      }
    }
  }

  lemma MoveDequeued(c: City, side: Side, city: City, b: BuildingId, a: AgentId, i: nat)
    requires Grows(c, side, city) && Dequeued(c, side, city)
    requires i < |Queue(city, side)| && a == Queue(city, side)[i]
    requires b in Candidates(city, side)
    requires a in city.agents && b in city.buildings && |Members(city.buildings[b], side)| < city.buildings[b].capacity
    ensures Dequeued(c, side, Move(city, side, b, a))
  {
    var r := Move(city, side, b, a);
    var q := Queue(city, side);
    RemoveFirstMultiset(q, a);
    assert a in q;
    assert multiset(Queue(r, side)) == multiset(q) - multiset{a};
    forall y | y in multiset(Queue(c, side)) - multiset(Queue(r, side))
      ensures Placed(r, side, y)
    {
      if y != a {
        assert y in multiset(Queue(c, side)) - multiset(q);
        assert Placed(city, side, y);
        var v := Ref(city.agents[y], side).value;
        assert r.agents[y] == city.agents[y];
        if v == b {
          assert Members(r.buildings[b], side) == Members(city.buildings[b], side) + [a];
        } else {
          assert r.buildings[v] == city.buildings[v];
        }
      }
    }
  }

  /** Replacing a queue by one naming existing agents keeps the city valid. */
  lemma WithQueueValid(c: City, side: Side, q: seq<AgentId>)
    requires Valid(c) && forall k :: 0 <= k < |q| ==> q[k] in c.agents
    ensures Valid(WithQueue(c, side, q))
  {
    match side
    case Residents =>
    case Staff =>
  }

  /** Moving one agent keeps every agent housed (employed) that was, and the moved one is placed. */
  lemma MoveKeeps(city: City, side: Side, b: BuildingId, a: AgentId)
    requires a in city.agents && b in city.buildings && |Members(city.buildings[b], side)| < city.buildings[b].capacity
    requires b in Candidates(city, side)
    ensures Housed(city) ==> Housed(Move(city, side, b, a))
    ensures Employed(city) ==> Employed(Move(city, side, b, a))
  {
    PlaceKeeps(city, side, b, a);
    var p := Place(city, side, b, a);
    var r := Move(city, side, b, a);
    var q := Queue(city, side);
    forall y | y != a
      ensures y in Queue(r, side) <==> y in q
    {
      RemoveFirstMembers(q, a, y);
    }
    match side
    case Residents =>
      assert r.agents[a].home == Some(b) && a in r.buildings[b].inhabitants;
    case Staff =>
      assert r.agents[a].workplace == Some(b) && a in r.buildings[b].workers;
  }

  /** One visit of queue position `i` that finds room in candidate `j`. */
  lemma RelocatingMove(c: City, side: Side, city: City, i: nat, j: nat)
    requires Relocating(c, side, city, i + 1)
    requires j < |Candidates(city, side)| && Candidates(city, side)[j] in city.buildings
    requires !IsFull(city.buildings[Candidates(city, side)[j]])
    ensures Queue(city, side)[i] in city.agents
    ensures |Members(city.buildings[Candidates(city, side)[j]], side)| < city.buildings[Candidates(city, side)[j]].capacity
    ensures Relocating(c, side, Move(city, side, Candidates(city, side)[j], Queue(city, side)[i]), i)
  {
    var a := Queue(city, side)[i];
    var b := Candidates(city, side)[j];
    assert a in city.agents by {
      match side
      case Residents =>
      case Staff =>
    }
    assert BuildingOk(city, city.buildings[b]);
    RoomIfNotFull(city.buildings[b], side);
    MoveValid(city, side, b, a);
    MoveGrows(c, side, city, b, a);
    MoveDequeued(c, side, city, b, a, i);
    MoveKeeps(city, side, b, a);
    RemoveFirstMultiset(Queue(city, side), a);
    assert !AllFull(city.buildings, Candidates(city, side));
  }

  /** One visit of queue position `i` that finds every candidate full: the agent stays queued. */
  lemma RelocatingStay(c: City, side: Side, city: City, i: nat)
    requires Relocating(c, side, city, i + 1)
    requires forall k :: 0 <= k < |Candidates(city, side)| ==> IsFull(city.buildings[Candidates(city, side)[k]])
    ensures Relocating(c, side, city, i)
  {
    assert AllFull(city.buildings, Candidates(city, side)) by {
      assert RoleLists(city);
    }
  }

  /** The candidates of a valid city exist. */
  lemma CandidatesExist(city: City, side: Side)
    requires Valid(city)
    ensures forall k :: 0 <= k < |Candidates(city, side)| ==> Candidates(city, side)[k] in city.buildings
  {
    assert RoleLists(city);
  }

  /**
   From `city` to `r`, agent `a` was placed in `b`: its reference of that
   side is `b`, `b` lists it last, one copy of it left the queue, and no
   other agent or building changed.
   */
  ghost predicate MovedTo(city: City, side: Side, r: City, b: BuildingId, a: AgentId) {
    && b in city.buildings && b in r.buildings && a in r.agents
    && Ref(r.agents[a], side) == Some(b)
    && Members(r.buildings[b], side) == Members(city.buildings[b], side) + [a]
    && Queue(r, side) == RemoveFirst(Queue(city, side), a)
    && (forall x :: x in city.agents && x != a ==> x in r.agents && r.agents[x] == city.agents[x])
    && (forall x :: x in city.buildings && x != b ==> x in r.buildings && r.buildings[x] == city.buildings[x])
  }

  lemma MoveEffect(city: City, side: Side, b: BuildingId, a: AgentId)
    requires a in city.agents && b in city.buildings && |Members(city.buildings[b], side)| < city.buildings[b].capacity
    ensures MovedTo(city, side, Move(city, side, b, a), b, a)
  {
  }

  /**
   One visit of queue position `i`: the agent there goes to the
   highest-index candidate that is not full; when every candidate is full
   nothing changes. The guard on the agent and the room fails only outside
   valid cities (`VisitRoom`), where nothing changes either.
   */
  ghost function Visited(city: City, side: Side, i: nat): City {
    var j := HighestRoom(city.buildings, Candidates(city, side));
    if i < |Queue(city, side)| && 0 <= j && Queue(city, side)[i] in city.agents
       && |Members(city.buildings[Candidates(city, side)[j]], side)| < city.buildings[Candidates(city, side)[j]].capacity
    then Move(city, side, Candidates(city, side)[j], Queue(city, side)[i])
    else city
  }

  /**
   The relocation of one side with queue positions `i - 1` down to 0 left to
   visit, each visit as `Visited` makes it.
   */
  ghost function Relocated(city: City, side: Side, i: nat): City
    decreases i
  {
    if i == 0 then city else Relocated(Visited(city, side, i - 1), side, i - 1)
  }

  /** In a valid city a queued agent exists, and a candidate with room has room on the side filled. */
  lemma VisitRoom(city: City, side: Side, i: nat, j: nat)
    requires Valid(city) && i < |Queue(city, side)|
    requires j < |Candidates(city, side)| && HasRoom(city.buildings, Candidates(city, side)[j])
    ensures Queue(city, side)[i] in city.agents
    ensures |Members(city.buildings[Candidates(city, side)[j]], side)| < city.buildings[Candidates(city, side)[j]].capacity
  {
    assert AgentLists(city);
    match side
    case Residents =>
    case Staff =>
    assert BuildingOk(city, city.buildings[Candidates(city, side)[j]]);
    RoomIfNotFull(city.buildings[Candidates(city, side)[j]], side);
  }

  /**
   The choice a visit makes in a valid city: when every candidate is full
   nothing changes; otherwise the queued agent is moved into the
   highest-index candidate that is not full.
   */
  lemma VisitedChoice(city: City, side: Side, i: nat)
    requires Valid(city) && i < |Queue(city, side)|
    ensures AllFull(city.buildings, Candidates(city, side)) ==> Visited(city, side, i) == city
    ensures !AllFull(city.buildings, Candidates(city, side)) ==>
      && 0 <= HighestRoom(city.buildings, Candidates(city, side))
      && MovedTo(city, side, Visited(city, side, i),
                 Candidates(city, side)[HighestRoom(city.buildings, Candidates(city, side))], Queue(city, side)[i])
  {
    CandidatesExist(city, side);
    var j := HighestRoom(city.buildings, Candidates(city, side));
    if 0 <= j {
      VisitRoom(city, side, i, j);
      MoveEffect(city, side, Candidates(city, side)[j], Queue(city, side)[i]);
    }
  }

  /** A visit keeps the relocation's loop state, with one position fewer left. */
  lemma VisitedRelocating(c: City, side: Side, city: City, i: nat)
    requires Relocating(c, side, city, i + 1)
    ensures Relocating(c, side, Visited(city, side, i), i)
  {
    CandidatesExist(city, side);
    var j := HighestRoom(city.buildings, Candidates(city, side));
    if j < 0 {
      RelocatingStay(c, side, city, i);
    } else {
      VisitRoom(city, side, i, j);
      RelocatingMove(c, side, city, i, j);
    }
  }

  /** Visits queue position `i`: the highest candidate not full takes that agent, if there is one. */
  method Visit(c: City, side: Side, city: City, i: nat) returns (city': City)
    requires Relocating(c, side, city, i + 1)
    ensures Relocating(c, side, city', i)
    ensures AllFull(city.buildings, Candidates(city, side)) ==> city' == city
    ensures !AllFull(city.buildings, Candidates(city, side)) ==>
      && 0 <= HighestRoom(city.buildings, Candidates(city, side))
      && MovedTo(city, side, city', Candidates(city, side)[HighestRoom(city.buildings, Candidates(city, side))],
                 Queue(city, side)[i])
    ensures city' == Visited(city, side, i)
  {
    VisitedChoice(city, side, i);
    CandidatesExist(city, side);
    var j := LastNotFull(city.buildings, Candidates(city, side));
    if j < 0 {
      RelocatingStay(c, side, city, i);
      return city;
    }
    VisitRoom(city, side, i, j);
    RelocatingMove(c, side, city, i, j);
    city' := Move(city, side, Candidates(city, side)[j], Queue(city, side)[i]);
  }

  /**
   `RelocateHomeless` (side `Residents`) and `RelocateWorkless` (side
   `Staff`): the queue is visited from its last position down, each visit
   choosing as `Visited` does. The city stays valid; only that side's
   references, occupant lists and queue change; no agent leaves the queue
   without being placed in a candidate building that lists it; and if any
   agent is still queued, every candidate is full. Housed and employed
   agents stay so.
   */
  method Relocate(c: City, side: Side) returns (r: City)
    requires Valid(c)
    ensures Valid(r) && Grows(c, side, r) && Dequeued(c, side, r)
    ensures |Queue(r, side)| > 0 ==> AllFull(r.buildings, Candidates(r, side))
    ensures (Housed(c) ==> Housed(r)) && (Employed(c) ==> Employed(r))
    ensures r == Relocated(c, side, |Queue(c, side)|)
  {
    RelocatingStart(c, side);
    var city := c;
    var i: nat := |Queue(c, side)|;
    while i > 0
      invariant Relocating(c, side, city, i)
      invariant Relocated(city, side, i) == Relocated(c, side, |Queue(c, side)|)
    {
      city := Visit(c, side, city, i - 1);
      i := i - 1;
    }
    r := city;
  }

  /** Relocating one side leaves the other side's placements and queue as they were. */
  lemma DequeuedAcross(c: City, side: Side, mid: City, r: City)
    requires Dequeued(c, side, mid) && Grows(mid, Other(side), r)
    ensures Dequeued(c, side, r)
  {
    assert Other(Other(side)) == side;
    forall a | a in multiset(Queue(c, side)) - multiset(Queue(r, side))
      ensures Placed(r, side, a)
    {
      assert Placed(mid, side, a);
      var v := Ref(mid.agents[a], side).value;
      assert Members(r.buildings[v], side) == Members(mid.buildings[v], side);
    }
  }

  /** Relocating one side only when its queue is not empty. */
  method RelocateIfQueued(c: City, side: Side) returns (r: City)
    requires Valid(c)
    ensures Valid(r) && Grows(c, side, r) && Dequeued(c, side, r)
    ensures |Queue(c, side)| == 0 ==> r == c
    ensures (Housed(c) ==> Housed(r)) && (Employed(c) ==> Employed(r))
    ensures r == Relocated(c, side, |Queue(c, side)|)
    ensures |Queue(r, side)| > 0 ==> AllFull(r.buildings, Candidates(r, side))
  {
    if |Queue(c, side)| == 0 {
      return c;
    }
    r := Relocate(c, side);
  }

  /** Both relocations of a frame, each only when its queue is not empty. */
  method RelocateBoth(c: City) returns (r: City)
    requires Valid(c)
    ensures Valid(r) && r.done == c.done
    ensures Dequeued(c, Residents, r) && Dequeued(c, Staff, r)
    ensures |c.homeless| == 0 && |c.workless| == 0 ==> r == c
    ensures (Housed(c) ==> Housed(r)) && (Employed(c) ==> Employed(r))
    ensures var m := Relocated(c, Residents, |c.homeless|); r == Relocated(m, Staff, |m.workless|)
  {
    var housed := RelocateIfQueued(c, Residents);
    r := RelocateIfQueued(housed, Staff);
    DequeuedAcross(c, Residents, housed, r);
  }

  /** Setting the latch changes nothing the repair promises. */
  lemma LatchKeeps(c: City, r: City)
    requires Valid(r) && Dequeued(c, Residents, r) && Dequeued(c, Staff, r)
    ensures Valid(r.(done := true))
    ensures Dequeued(c, Residents, r.(done := true)) && Dequeued(c, Staff, r.(done := true))
    ensures Housed(r) ==> Housed(r.(done := true))
    ensures Employed(r) ==> Employed(r.(done := true))
  {
    var d := r.(done := true);
    assert d.agents == r.agents && d.buildings == r.buildings && d.homeless == r.homeless && d.workless == r.workless;
    assert d.habitations == r.habitations && d.workplaces == r.workplaces && d.population == r.population;
  }

  /**
   `Update`: relocate the homeless if any are queued, then the workless if
   any are queued, then latch `done` once both queues are empty.
   */
  method Update(c: City) returns (r: City)
    requires Valid(c)
    ensures Valid(r)
    ensures r.done <==> c.done || (|r.homeless| == 0 && |r.workless| == 0)
    ensures |c.homeless| == 0 && |c.workless| == 0 ==> r == c.(done := true)
    ensures Dequeued(c, Residents, r) && Dequeued(c, Staff, r)
    ensures (Housed(c) ==> Housed(r)) && (Employed(c) ==> Employed(r))
    ensures var m := Relocated(c, Residents, |c.homeless|);
      var b := Relocated(m, Staff, |m.workless|);
      r == if |b.homeless| == 0 && |b.workless| == 0 then b.(done := true) else b
  {
    r := RelocateBoth(c);
    if |r.homeless| == 0 && |r.workless| == 0 {
      LatchKeeps(c, r);
      r := r.(done := true);
    }
  }
}
