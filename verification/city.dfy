/**
 The city: an arena of buildings and agents keyed by identifier, the three
 category lists filled while placing buildings (houses, office buildings,
 skyscrapers), the two role lists (habitations, workplaces), the population,
 and the queues of agents that lost their home or workplace.
 */
module Cities {
  import opened Basics
  import opened Buildings
  import Windows
  import Inhabitants
  import Density

  /** Densities below this give a house. */
  const HOUSE_THRESHOLD: real := 0.90

  /** Densities below this (and not below the house threshold) give an office building. */
  const BUILDING_THRESHOLD: real := 0.95

  /** Footprint side of every building: 0.1 * PLANE_SIZE / 10 with PLANE_SIZE = 20. */
  const BUILDING_SIZE: real := 0.2

  /**
   The horizontal scale of the city object, PLANE_SIZE / 10 in integer
   division; its vertical scale is 1. A building is scaled before it is
   parented to the city, and parenting keeps its world scale, so the local
   scale `Init` reads is the footprint divided by this in width and the
   height unchanged.
   */
  const PLANE_SCALE: real := 2.0

  /** The width `Init` reads: BUILDING_SIZE / PLANE_SCALE. */
  const LOCAL_WIDTH: real := BUILDING_SIZE / PLANE_SCALE

  /** The three kinds of building; `Office` is the source's "Building" prefab. */
  datatype Kind = House | Office | Skyscraper

  datatype City = City(
    buildings: map<BuildingId, Building>,
    agents: map<AgentId, Inhabitants.Agent>,
    houses: seq<BuildingId>,
    offices: seq<BuildingId>,
    skyscrapers: seq<BuildingId>,
    habitations: seq<BuildingId>,
    workplaces: seq<BuildingId>,
    population: seq<AgentId>,
    homeless: seq<AgentId>,
    workless: seq<AgentId>,
    nextBuilding: nat,
    nextAgent: nat,
    done: bool)

  /** The city before anything is placed: every list empty, the build not done. */
  function EmptyCity(): (c: City)
    ensures c.buildings == map[] && c.agents == map[] && !c.done
    ensures c.houses == c.offices == c.skyscrapers == c.habitations == c.workplaces == []
    ensures c.population == c.homeless == c.workless == []
  {
    City(map[], map[], [], [], [], [], [], [], [], [], 0, 0, false)
  }

  /** The category list of a kind. */
  function Category(c: City, k: Kind): seq<BuildingId> {
    match k
    case House => c.houses
    case Office => c.offices
    case Skyscraper => c.skyscrapers
  }

  /** A building keeps the occupancy and window invariants and lists only known agents. */
  ghost predicate BuildingOk(c: City, b: Building) {
    && Occupancy(b)
    && WindowsOk(b)
    && (forall k :: 0 <= k < |b.inhabitants| ==> b.inhabitants[k] in c.agents)
    && (forall k :: 0 <= k < |b.workers| ==> b.workers[k] in c.agents)
  }

  /** Each role list holds existing buildings of that role, each once. */
  ghost predicate RoleLists(c: City) {
    && Distinct(c.habitations)
    && Distinct(c.workplaces)
    && (forall k :: 0 <= k < |c.habitations| ==>
          c.habitations[k] in c.buildings && c.buildings[c.habitations[k]].habitation)
    && (forall k :: 0 <= k < |c.workplaces| ==>
          c.workplaces[k] in c.buildings && !c.buildings[c.workplaces[k]].habitation)
  }

  /** Every agent list names existing agents. */
  ghost predicate AgentLists(c: City) {
    && (forall k :: 0 <= k < |c.population| ==> c.population[k] in c.agents)
    && (forall k :: 0 <= k < |c.homeless| ==> c.homeless[k] in c.agents)
    && (forall k :: 0 <= k < |c.workless| ==> c.workless[k] in c.agents)
  }

  /**
   The city invariant: identifiers below the arena counters, every building
   within its capacity with a prefix of lit windows, consistent role lists, and
   agent lists naming existing agents. The category lists are left out: after
   a destruction under an unknown name a destroyed building stays in them.
   */
  ghost predicate Valid(c: City) {
    && (forall b :: b in c.buildings ==> b < c.nextBuilding && BuildingOk(c, c.buildings[b]))
    && (forall a :: a in c.agents ==> a < c.nextAgent)
    && RoleLists(c)
    && AgentLists(c)
  }

  /** Every agent of the population that is not queued as homeless lives in its home. */
  ghost predicate Housed(c: City) {
    forall k :: 0 <= k < |c.population| && c.population[k] !in c.homeless ==>
      && c.population[k] in c.agents
      && c.agents[c.population[k]].home.Some?
      && c.agents[c.population[k]].home.value in c.buildings
      && c.population[k] in c.buildings[c.agents[c.population[k]].home.value].inhabitants
  }

  /** Every agent of the population that is not queued as workless works at its workplace. */
  ghost predicate Employed(c: City) {
    forall k :: 0 <= k < |c.population| && c.population[k] !in c.workless ==>
      && c.population[k] in c.agents
      && c.agents[c.population[k]].workplace.Some?
      && c.agents[c.population[k]].workplace.value in c.buildings
      && c.population[k] in c.buildings[c.agents[c.population[k]].workplace.value].workers
  }

  lemma EmptyCityValid()
    ensures Valid(EmptyCity()) && Housed(EmptyCity()) && Employed(EmptyCity())
  {
  }

  /** The kind of building the density at a site calls for. */
  function Classify(density: real): Kind {
    if density < HOUSE_THRESHOLD then House
    else if density < BUILDING_THRESHOLD then Office
    else Skyscraper
  }

  /** Whether a site lies on the density map: both coordinates in [0, SIZE). */
  predicate OnMap(x: real, y: real) {
    0.0 <= x < Density.SIZE as real && 0.0 <= y < Density.SIZE as real
  }

  /**
   The building `createBuildings` makes for a site of the given density. A
   house is a square of the footprint size, marked as habitation; an office
   building and a skyscraper are taller by a random amount, `u` in [0, 1]
   being the uniform draw behind `Random.Range`. `Init` reads the width after
   parenting, LOCAL_WIDTH, so a house, twice as tall as that, holds two.
   */
  function NewBuilding(density: real, toRoad: Vec3, u: real): (b: Building)
    requires 0.0 <= u <= 1.0
    ensures b.inhabitants == [] && b.workers == []
    ensures b.habitation <==> Classify(density) == House
    ensures Classify(density) == House ==> b.capacity == 2
    ensures Classify(density) == Office ==> 9 <= b.capacity <= 13
    ensures Classify(density) == Skyscraper ==> b.capacity >= 15
    ensures Occupancy(b) && WindowsOk(b)
  {
    match Classify(density)
    case House =>
      TwiceAsTallHoldsTwo(toRoad, LOCAL_WIDTH);
      InitValid(toRoad, BUILDING_SIZE, LOCAL_WIDTH);
      SwitchToHabitation(Init(toRoad, BUILDING_SIZE, LOCAL_WIDTH))
    case Office =>
      var height := density + u * (BUILDING_SIZE * 2.0);
      LocalCapacity(toRoad, height, 9);
      InitValid(toRoad, height, LOCAL_WIDTH);
      Init(toRoad, height, LOCAL_WIDTH)
    case Skyscraper =>
      var height := density + BUILDING_SIZE * 3.0 + u * BUILDING_SIZE;
      LocalCapacity(toRoad, height, 15);
      InitValid(toRoad, height, LOCAL_WIDTH);
      Init(toRoad, height, LOCAL_WIDTH)
  }

  /** A building at least `lo` widths tall holds at least `lo`, and less than one more than its height in widths. */
  lemma LocalCapacity(toRoad: Vec3, height: real, lo: nat)
    requires lo as real * LOCAL_WIDTH <= height
    ensures lo <= Init(toRoad, height, LOCAL_WIDTH).capacity
    ensures Init(toRoad, height, LOCAL_WIDTH).capacity as real * LOCAL_WIDTH <= height
  {
    var n := Init(toRoad, height, LOCAL_WIDTH).capacity;
    assert height < (n + 1) as real * LOCAL_WIDTH;
  }

  /** Adds a building of the given kind under a fresh identifier and appends it to its category list. */
  function Register(c: City, k: Kind, b: Building): (r: City)
    ensures r.buildings == c.buildings[c.nextBuilding := b] && r.nextBuilding == c.nextBuilding + 1
    ensures Category(r, k) == Category(c, k) + [c.nextBuilding]
    ensures forall k' :: k' != k ==> Category(r, k') == Category(c, k')
    ensures r.(buildings := c.buildings, houses := c.houses, offices := c.offices,
               skyscrapers := c.skyscrapers, nextBuilding := c.nextBuilding) == c
  {
    var id := c.nextBuilding;
    var c' := c.(buildings := c.buildings[id := b], nextBuilding := id + 1);
    match k
    case House => c'.(houses := c.houses + [id])
    case Office => c'.(offices := c.offices + [id])
    case Skyscraper => c'.(skyscrapers := c.skyscrapers + [id])
  }

  /**
   `createBuildings`: a site off the map places nothing. Otherwise the density
   of its cell decides the kind, and exactly one building is added, to exactly
   one category list; nothing else changes.
   */
  function CreateBuildings(c: City, m: Density.Grid, x: real, y: real, toRoad: Vec3, u: real): (r: City)
    requires Density.IsGrid(m) && Valid(c) && 0.0 <= u <= 1.0
    ensures !OnMap(x, y) ==> r == c
    ensures OnMap(x, y) ==>
      var k := Classify(m[Trunc(x)][Trunc(y)]);
      var id := c.nextBuilding;
      && id !in c.buildings
      && r.buildings.Keys == c.buildings.Keys + {id}
      && (forall b :: b in c.buildings ==> r.buildings[b] == c.buildings[b])
      && Category(r, k) == Category(c, k) + [id]
      && (forall k' :: k' != k ==> Category(r, k') == Category(c, k'))
      && IsEmpty(r.buildings[id])
      && (IsHabitable(r.buildings[id]) <==> k == House)
      && (k == House ==> r.buildings[id].capacity == 2)
      && (k == Office ==> 9 <= r.buildings[id].capacity <= 13)
      && (k == Skyscraper ==> r.buildings[id].capacity >= 15)
    ensures r.(buildings := c.buildings, houses := c.houses, offices := c.offices,
               skyscrapers := c.skyscrapers, nextBuilding := c.nextBuilding) == c
  {
    if !OnMap(x, y) then c
    else
      var density := m[Trunc(x)][Trunc(y)];
      Register(c, Classify(density), NewBuilding(density, toRoad, u))
  }

  /** Placing a building keeps the city invariant. */
  lemma CreateBuildingsValid(c: City, m: Density.Grid, x: real, y: real, toRoad: Vec3, u: real)
    requires Density.IsGrid(m) && Valid(c) && 0.0 <= u <= 1.0
    ensures Valid(CreateBuildings(c, m, x, y, toRoad, u))
  {
    if OnMap(x, y) {
      var r := CreateBuildings(c, m, x, y, toRoad, u);
      var id := c.nextBuilding;
      assert BuildingOk(r, r.buildings[id]);
      assert RoleLists(r);
    }
  }

  /** The kind a sensor's name stands for: the switch of `removeBuildingFromList`. */
  function KindNamed(name: string): Option<Kind> {
    if name == "House" then Some(House)
    else if name == "Building" then Some(Office)
    else if name == "Skyscraper" then Some(Skyscraper)
    else None
  }

  /** Drops one copy of `b` from the category list of `k`. */
  function RemoveFromCategory(c: City, k: Kind, b: BuildingId): (r: City)
    ensures multiset(Category(r, k)) == multiset(Category(c, k)) - multiset{b}
    ensures forall k' :: k' != k ==> Category(r, k') == Category(c, k')
    ensures r.(houses := c.houses, offices := c.offices, skyscrapers := c.skyscrapers) == c
  {
    RemoveFirstMultiset(Category(c, k), b);
    match k
    case House => c.(houses := RemoveFirst(c.houses, b))
    case Office => c.(offices := RemoveFirst(c.offices, b))
    case Skyscraper => c.(skyscrapers := RemoveFirst(c.skyscrapers, b))
  }

  /** Drops one copy of `b` from the role list its role selects. */
  function RemoveFromRole(c: City, b: BuildingId): (r: City)
    requires b in c.buildings
    ensures IsHabitable(c.buildings[b]) ==>
      multiset(r.habitations) == multiset(c.habitations) - multiset{b} && r.workplaces == c.workplaces
    ensures !IsHabitable(c.buildings[b]) ==>
      multiset(r.workplaces) == multiset(c.workplaces) - multiset{b} && r.habitations == c.habitations
    ensures r.(habitations := c.habitations, workplaces := c.workplaces) == c
  {
    if IsHabitable(c.buildings[b]) then
      RemoveFirstMultiset(c.habitations, b);
      c.(habitations := RemoveFirst(c.habitations, b))
    else
      RemoveFirstMultiset(c.workplaces, b);
      c.(workplaces := RemoveFirst(c.workplaces, b))
  }

  /**
   `removeBuildingFromList`: drop `b` from the category list the name stands
   for (from none if the name is unknown), and from the role list its role
   selects. Each list loses at most one copy of `b`; nothing else changes.
   */
  function RemoveBuildingFromList(c: City, name: string, b: BuildingId): (r: City)
    requires b in c.buildings
    ensures KindNamed(name).None? ==> r.houses == c.houses && r.offices == c.offices && r.skyscrapers == c.skyscrapers
    ensures KindNamed(name).Some? ==>
      && multiset(Category(r, KindNamed(name).value)) == multiset(Category(c, KindNamed(name).value)) - multiset{b}
      && (forall k :: k != KindNamed(name).value ==> Category(r, k) == Category(c, k))
    ensures IsHabitable(c.buildings[b]) ==>
      multiset(r.habitations) == multiset(c.habitations) - multiset{b} && r.workplaces == c.workplaces
    ensures !IsHabitable(c.buildings[b]) ==>
      multiset(r.workplaces) == multiset(c.workplaces) - multiset{b} && r.habitations == c.habitations
    ensures r.(houses := c.houses, offices := c.offices, skyscrapers := c.skyscrapers,
               habitations := c.habitations, workplaces := c.workplaces) == c
  {
    RemoveFromRole(if KindNamed(name).Some? then RemoveFromCategory(c, KindNamed(name).value, b) else c, b)
  }

  /** Whatever copy of `b` a list loses, every other element stays; without repetitions no copy of `b` remains. */
  lemma RemovedFromDistinct(s: seq<BuildingId>, r: seq<BuildingId>, b: BuildingId)
    requires Distinct(s) && multiset(r) == multiset(s) - multiset{b}
    ensures b !in r && Distinct(r)
    ensures forall x :: x in r ==> x in s
  {
    forall x | x in r
      ensures x in s
    {
      assert x in multiset(r);
    }
    RemovedGone(s, r, b);
    forall i, j | 0 <= i < j < |r|
      ensures r[i] != r[j]
    {
      if r[i] == r[j] {
        TwiceCounted(r, i, j);
        DistinctAtMostOnce(s, r[i]);
      }
    }
  }

  /** A list without repetitions loses its only copy of `b`. */
  lemma RemovedGone(s: seq<BuildingId>, r: seq<BuildingId>, b: BuildingId)
    requires Distinct(s) && multiset(r) == multiset(s) - multiset{b}
    ensures b !in r
  {
    DistinctAtMostOnce(s, b);
    assert multiset(r)[b] == 0;
  }

  /** Two positions holding the same element count it twice. */
  lemma TwiceCounted(r: seq<BuildingId>, i: nat, j: nat)
    requires i < j < |r| && r[i] == r[j]
    ensures multiset(r)[r[i]] >= 2
  {
    assert r == r[..j] + [r[j]] + r[j + 1..];
    assert r[i] in r[..j];
  }

  /** In a list without repetitions every element occurs at most once. */
  lemma {:induction false} DistinctAtMostOnce(s: seq<BuildingId>, x: BuildingId)
    requires Distinct(s)
    ensures multiset(s)[x] <= 1
  {
    if |s| > 0 {
      assert s == [s[0]] + s[1..];
      assert Distinct(s[1..]);
      DistinctAtMostOnce(s[1..], x);
      if s[0] == x {
        assert x !in s[1..];
      }
    }
  }

  /** Validity depends on the lists other than the categories only through the role lists. */
  lemma ValidListsChange(c: City, r: City)
    requires Valid(c) && RoleLists(r)
    requires r.(houses := c.houses, offices := c.offices, skyscrapers := c.skyscrapers,
                habitations := c.habitations, workplaces := c.workplaces) == c
    ensures Valid(r)
  {
    assert r.buildings == c.buildings && r.agents == c.agents;
    assert r.population == c.population && r.homeless == c.homeless && r.workless == c.workless;
  }

  /** Removing one copy of `b` from the role list of its role leaves consistent role lists without `b`. */
  lemma RoleListsAfterRemoval(c: City, r: City, b: BuildingId)
    requires RoleLists(c) && b in c.buildings && r.buildings == c.buildings
    requires IsHabitable(c.buildings[b]) ==>
      multiset(r.habitations) == multiset(c.habitations) - multiset{b} && r.workplaces == c.workplaces
    requires !IsHabitable(c.buildings[b]) ==>
      multiset(r.workplaces) == multiset(c.workplaces) - multiset{b} && r.habitations == c.habitations
    ensures RoleLists(r) && b !in r.habitations && b !in r.workplaces
  {
    if IsHabitable(c.buildings[b]) {
      assert b !in c.workplaces;
      RemovedFromDistinct(c.habitations, r.habitations, b);
      forall k | 0 <= k < |r.habitations|
        ensures r.habitations[k] in c.buildings && c.buildings[r.habitations[k]].habitation
      {
        assert r.habitations[k] in c.habitations;
      }
    } else {
      assert b !in c.habitations;
      RemovedFromDistinct(c.workplaces, r.workplaces, b);
      forall k | 0 <= k < |r.workplaces|
        ensures r.workplaces[k] in c.buildings && !c.buildings[r.workplaces[k]].habitation
      {
        assert r.workplaces[k] in c.workplaces;
      }
    }
  }

  /** In a valid city the removed building is in neither role list afterward, and the city stays valid. */
  lemma RemoveBuildingValid(c: City, name: string, b: BuildingId)
    requires Valid(c) && b in c.buildings
    ensures b !in RemoveBuildingFromList(c, name, b).habitations
    ensures b !in RemoveBuildingFromList(c, name, b).workplaces
    ensures Valid(RemoveBuildingFromList(c, name, b))
  {
    var r := RemoveBuildingFromList(c, name, b);
    RoleListsAfterRemoval(c, r, b);
    ValidListsChange(c, r);
  }

  /**
   The buildings of `ids` whose role is habitation, and those whose role is
   workplace, each in the order of `ids`: one pass of the loops of
   `splitHabitationWorkplace`.
   */
  function Partition(bs: map<BuildingId, Building>, ids: seq<BuildingId>): (r: (seq<BuildingId>, seq<BuildingId>))
    requires forall k :: 0 <= k < |ids| ==> ids[k] in bs
    ensures multiset(r.0) + multiset(r.1) == multiset(ids)
    ensures forall k :: 0 <= k < |r.0| ==> r.0[k] in bs && bs[r.0[k]].habitation
    ensures forall k :: 0 <= k < |r.1| ==> r.1[k] in bs && !bs[r.1[k]].habitation
  {
    if |ids| == 0 then ([], [])
    else
      var init, last := ids[..|ids| - 1], ids[|ids| - 1];
      assert ids == init + [last];
      var p := Partition(bs, init);
      var r := if bs[last].habitation then (p.0 + [last], p.1) else (p.0, p.1 + [last]);
      PartsGrow(bs, init, last, p, r);
      r
  }

  /** Sending one more building to the part its role selects keeps both parts sorted by role. */
  lemma PartsGrow(bs: map<BuildingId, Building>, init: seq<BuildingId>, last: BuildingId,
                  p: (seq<BuildingId>, seq<BuildingId>), r: (seq<BuildingId>, seq<BuildingId>))
    requires last in bs
    requires multiset(p.0) + multiset(p.1) == multiset(init)
    requires forall k :: 0 <= k < |p.0| ==> p.0[k] in bs && bs[p.0[k]].habitation
    requires forall k :: 0 <= k < |p.1| ==> p.1[k] in bs && !bs[p.1[k]].habitation
    requires r == if bs[last].habitation then (p.0 + [last], p.1) else (p.0, p.1 + [last])
    ensures multiset(r.0) + multiset(r.1) == multiset(init + [last])
    ensures forall k :: 0 <= k < |r.0| ==> r.0[k] in bs && bs[r.0[k]].habitation
    ensures forall k :: 0 <= k < |r.1| ==> r.1[k] in bs && !bs[r.1[k]].habitation
  {
    assert multiset(init + [last]) == multiset(init) + multiset{last};
  }

  /** A single building goes to the part its role selects. */
  lemma PartitionOne(bs: map<BuildingId, Building>, x: BuildingId)
    requires x in bs
    ensures Partition(bs, [x]) == if bs[x].habitation then ([x], []) else ([], [x])
  {
    assert [x][..0] == [];
    var p := Partition(bs, []);
    assert p == ([], []);
    assert p.0 + [x] == [x] && p.1 + [x] == [x];
  }

  /**
   Partitioning keeps the order of `ids`: the parts of a concatenation are
   the concatenations of the parts. With `PartitionOne` this says each part
   is `ids` filtered by role.
   */
  lemma {:induction false} PartitionAppend(bs: map<BuildingId, Building>, a: seq<BuildingId>, b: seq<BuildingId>)
    requires forall k :: 0 <= k < |a| ==> a[k] in bs
    requires forall k :: 0 <= k < |b| ==> b[k] in bs
    ensures forall k :: 0 <= k < |a + b| ==> (a + b)[k] in bs
    ensures Partition(bs, a + b)
         == (Partition(bs, a).0 + Partition(bs, b).0, Partition(bs, a).1 + Partition(bs, b).1)
  {
    AppendIn(bs, a, b);
    if |b| == 0 {
      assert a + b == a;
      var pa := Partition(bs, a);
      assert pa.0 + [] == pa.0 && pa.1 + [] == pa.1;
    } else {
      var init, last := b[..|b| - 1], b[|b| - 1];
      assert b == init + [last];
      assert a + b == (a + init) + [last];
      PartitionAppend(bs, a, init);
      PartitionSnoc(bs, init, last);
      PartitionSnoc(bs, a + init, last);
      var pa, pi := Partition(bs, a), Partition(bs, init);
      assert (pa.0 + pi.0) + [last] == pa.0 + (pi.0 + [last]);
      assert (pa.1 + pi.1) + [last] == pa.1 + (pi.1 + [last]);
    }
  }

  /** Appending one building appends it to the part its role selects. */
  lemma PartitionSnoc(bs: map<BuildingId, Building>, ids: seq<BuildingId>, x: BuildingId)
    requires forall k :: 0 <= k < |ids| ==> ids[k] in bs
    requires x in bs
    ensures forall k :: 0 <= k < |ids + [x]| ==> (ids + [x])[k] in bs
    ensures Partition(bs, ids + [x]) == if bs[x].habitation
      then (Partition(bs, ids).0 + [x], Partition(bs, ids).1)
      else (Partition(bs, ids).0, Partition(bs, ids).1 + [x])
  {
    AppendIn(bs, ids, [x]);
    assert (ids + [x])[..|ids|] == ids;
  }

  /** A concatenation of lists of existing buildings lists existing buildings. */
  lemma AppendIn(bs: map<BuildingId, Building>, a: seq<BuildingId>, b: seq<BuildingId>)
    requires forall k :: 0 <= k < |a| ==> a[k] in bs
    requires forall k :: 0 <= k < |b| ==> b[k] in bs
    ensures forall k :: 0 <= k < |a + b| ==> (a + b)[k] in bs
  {
    forall k | 0 <= k < |a + b|
      ensures (a + b)[k] in bs
    {
      if k >= |a| { assert (a + b)[k] == b[k - |a|]; }
    }
  }

  /** Every element of `p + x + y` past `p` has the given role when every element of `x` and of `y` has it. */
  lemma AppendedRole(bs: map<BuildingId, Building>, p: seq<BuildingId>, x: seq<BuildingId>, y: seq<BuildingId>, role: bool)
    requires forall k :: 0 <= k < |x| ==> x[k] in bs && bs[x[k]].habitation == role
    requires forall k :: 0 <= k < |y| ==> y[k] in bs && bs[y[k]].habitation == role
    ensures forall k :: |p| <= k < |p + x + y| ==> (p + x + y)[k] in bs && bs[(p + x + y)[k]].habitation == role
  {
    forall k | |p| <= k < |p + x + y|
      ensures (p + x + y)[k] in bs && bs[(p + x + y)[k]].habitation == role
    {
      if k < |p| + |x| { assert (p + x + y)[k] == x[k - |p|]; }
      else { assert (p + x + y)[k] == y[k - |p| - |x|]; }
    }
  }

  /**
   `splitHabitationWorkplace`: every house is appended to the habitations,
   then every office building and skyscraper to the habitations or the
   workplaces according to its role. The role lists keep their old contents
   as a prefix and grow by exactly the three category lists.
   */
  function SplitHabitationWorkplace(c: City): (r: City)
    requires forall k :: 0 <= k < |c.offices| ==> c.offices[k] in c.buildings
    requires forall k :: 0 <= k < |c.skyscrapers| ==> c.skyscrapers[k] in c.buildings
    ensures |r.habitations| >= |c.habitations| + |c.houses| && |r.workplaces| >= |c.workplaces|
    ensures r.habitations[..|c.habitations| + |c.houses|] == c.habitations + c.houses
    ensures r.workplaces[..|c.workplaces|] == c.workplaces
    ensures multiset(r.habitations) + multiset(r.workplaces)
         == multiset(c.habitations) + multiset(c.workplaces)
          + multiset(c.houses) + multiset(c.offices) + multiset(c.skyscrapers)
    ensures |r.habitations| + |r.workplaces|
         == |c.habitations| + |c.workplaces| + |c.houses| + |c.offices| + |c.skyscrapers|
    ensures forall k :: |c.habitations| + |c.houses| <= k < |r.habitations| ==>
      r.habitations[k] in c.buildings && c.buildings[r.habitations[k]].habitation
    ensures forall k :: |c.workplaces| <= k < |r.workplaces| ==>
      r.workplaces[k] in c.buildings && !c.buildings[r.workplaces[k]].habitation
    ensures r.habitations == c.habitations + c.houses
                           + Partition(c.buildings, c.offices).0 + Partition(c.buildings, c.skyscrapers).0
    ensures r.workplaces == c.workplaces
                          + Partition(c.buildings, c.offices).1 + Partition(c.buildings, c.skyscrapers).1
    ensures r.(habitations := c.habitations, workplaces := c.workplaces) == c
  {
    var (h1, w1) := Partition(c.buildings, c.offices);
    var (h2, w2) := Partition(c.buildings, c.skyscrapers);
    var hab := c.habitations + c.houses + h1 + h2;
    var work := c.workplaces + w1 + w2;
    assert hab[..|c.habitations| + |c.houses|] == c.habitations + c.houses;
    assert work[..|c.workplaces|] == c.workplaces;
    AppendedRole(c.buildings, c.habitations + c.houses, h1, h2, true);
    AppendedRole(c.buildings, c.workplaces, w1, w2, false);
    assert multiset(hab) + multiset(work)
        == multiset(c.habitations) + multiset(c.workplaces)
         + multiset(c.houses) + multiset(c.offices) + multiset(c.skyscrapers);
    assert |hab| + |work| == |multiset(hab) + multiset(work)|;
    c.(habitations := hab, workplaces := work)
  }

  /** `AddHomeless`: queue an agent for re-housing. */
  function AddHomeless(c: City, a: AgentId): (r: City)
    ensures r.homeless == c.homeless + [a]
    ensures r.(homeless := c.homeless) == c
  {
    c.(homeless := c.homeless + [a])
  }

  /** `AddWorkless`: queue an agent for re-employment. */
  function AddWorkless(c: City, a: AgentId): (r: City)
    ensures r.workless == c.workless + [a]
    ensures r.(workless := c.workless) == c
  {
    c.(workless := c.workless + [a])
  }

  /**
   Queueing an existing agent as homeless keeps the city invariant, and
   whoever was housed still is: a queued agent is excused from `Housed`.
   */
  lemma AddHomelessValid(c: City, a: AgentId)
    requires Valid(c) && a in c.agents
    ensures Valid(AddHomeless(c, a))
    ensures Housed(c) ==> Housed(AddHomeless(c, a))
    ensures Employed(c) <==> Employed(AddHomeless(c, a))
  {
    var r := AddHomeless(c, a);
    assert forall b :: b in r.buildings ==> BuildingOk(r, r.buildings[b]) == BuildingOk(c, c.buildings[b]);
    forall k | 0 <= k < |r.homeless|
      ensures r.homeless[k] in r.agents
    {
      if k < |c.homeless| { assert r.homeless[k] == c.homeless[k]; }
    }
  }

  /**
   Queueing an existing agent as workless keeps the city invariant, and
   whoever was employed still is: a queued agent is excused from `Employed`.
   */
  lemma AddWorklessValid(c: City, a: AgentId)
    requires Valid(c) && a in c.agents
    ensures Valid(AddWorkless(c, a))
    ensures Employed(c) ==> Employed(AddWorkless(c, a))
    ensures Housed(c) <==> Housed(AddWorkless(c, a))
  {
    var r := AddWorkless(c, a);
    assert forall b :: b in r.buildings ==> BuildingOk(r, r.buildings[b]) == BuildingOk(c, c.buildings[b]);
    forall k | 0 <= k < |r.workless|
      ensures r.workless[k] in r.agents
    {
      if k < |c.workless| { assert r.workless[k] == c.workless[k]; }
    }
  }
}
