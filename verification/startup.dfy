/**
 The start-up order of the city: `createStructures` places the buildings one
 site at a time, then `createPopulation` houses the agents, then
 `splitHabitationWorkplace` builds the role lists, then `affectWorkplaces`
 employs the agents. Each assignment requires fresh candidates; this module
 shows that the steps before it leave them fresh.
 */
module Startup {
  import opened Basics
  import opened Buildings
  import opened Cities
  import opened Assignment
  import opened Population

  /** The building exists, nobody lives or works there, and it holds at least one. */
  ghost predicate Unused(c: City, b: BuildingId) {
    b in c.buildings && IsEmpty(c.buildings[b]) && c.buildings[b].capacity >= 1
  }

  /**
   The city as `createStructures` leaves it: no role list yet, each category
   list without repetitions and sharing no building with another, every
   listed building unused, and the office buildings and skyscrapers workplaces.
   */
  ghost predicate Built(c: City) {
    && c.habitations == [] && c.workplaces == []
    && Distinct(c.houses) && Distinct(c.offices) && Distinct(c.skyscrapers)
    && (forall k :: 0 <= k < |c.houses| ==>
          Unused(c, c.houses[k]) && c.houses[k] !in c.offices && c.houses[k] !in c.skyscrapers)
    && (forall k :: 0 <= k < |c.offices| ==>
          Unused(c, c.offices[k]) && !c.buildings[c.offices[k]].habitation && c.offices[k] !in c.skyscrapers)
    && (forall k :: 0 <= k < |c.skyscrapers| ==>
          Unused(c, c.skyscrapers[k]) && !c.buildings[c.skyscrapers[k]].habitation)
  }

  /** The city before the first site is built on. */
  lemma EmptyBuilt()
    ensures Built(EmptyCity()) && Valid(EmptyCity())
  {
    EmptyCityValid();
  }

  /**
   Adding a fresh, unused building under a new identifier to one category
   list, a workplace unless it is a house, keeps a city built.
   */
  lemma BuiltGrow(c: City, r: City, k: Kind, id: BuildingId)
    requires Built(c) && id !in c.buildings
    requires r.buildings.Keys == c.buildings.Keys + {id}
    requires forall b :: b in c.buildings ==> r.buildings[b] == c.buildings[b]
    requires Category(r, k) == Category(c, k) + [id]
    requires forall k' :: k' != k ==> Category(r, k') == Category(c, k')
    requires IsEmpty(r.buildings[id]) && r.buildings[id].capacity >= 1
    requires IsHabitable(r.buildings[id]) <==> k == House
    requires r.habitations == c.habitations && r.workplaces == c.workplaces
    ensures Built(r)
  {
    assert Category(r, House) == r.houses && Category(r, Office) == r.offices && Category(r, Skyscraper) == r.skyscrapers;
    assert id !in c.houses && id !in c.offices && id !in c.skyscrapers;
    DistinctSnoc(Category(c, k), id);
    forall i | 0 <= i < |r.houses|
      ensures Unused(r, r.houses[i]) && r.houses[i] !in r.offices && r.houses[i] !in r.skyscrapers
    {
      if i < |c.houses| { assert r.houses[i] == c.houses[i] && Unused(c, c.houses[i]); }
    }
    forall i | 0 <= i < |r.offices|
      ensures Unused(r, r.offices[i]) && !r.buildings[r.offices[i]].habitation && r.offices[i] !in r.skyscrapers
    {
      if i < |c.offices| { assert r.offices[i] == c.offices[i] && Unused(c, c.offices[i]); }
    }
    forall i | 0 <= i < |r.skyscrapers|
      ensures Unused(r, r.skyscrapers[i]) && !r.buildings[r.skyscrapers[i]].habitation
    {
      if i < |c.skyscrapers| { assert r.skyscrapers[i] == c.skyscrapers[i] && Unused(c, c.skyscrapers[i]); }
    }
  }

  /** Placing a building at a site keeps the city as `createStructures` leaves it. */
  lemma CreateBuildingsBuilt(c: City, m: Density.Grid, x: real, y: real, toRoad: Vec3, u: real)
    requires Density.IsGrid(m) && Valid(c) && Built(c) && 0.0 <= u <= 1.0
    ensures Built(CreateBuildings(c, m, x, y, toRoad, u))
  {
    if OnMap(x, y) {
      var r := CreateBuildings(c, m, x, y, toRoad, u);
      assert c.nextBuilding !in c.buildings;
      BuiltGrow(c, r, Classify(m[Trunc(x)][Trunc(y)]), c.nextBuilding);
    }
  }

  /** A built city meets what `createPopulation` requires of its houses. */
  lemma BuiltFreshHouses(c: City)
    requires Built(c)
    ensures FreshHouses(c)
  {
  }

  /**
   One part of `Partition` over a list without repetitions has no
   repetitions, and holds only elements of the list.
   */
  lemma {:induction false} PartitionDistinct(bs: map<BuildingId, Building>, ids: seq<BuildingId>)
    requires forall k :: 0 <= k < |ids| ==> ids[k] in bs
    requires Distinct(ids)
    ensures Distinct(Partition(bs, ids).1)
    ensures forall k :: 0 <= k < |Partition(bs, ids).1| ==> Partition(bs, ids).1[k] in ids
  {
    var p := Partition(bs, ids);
    forall k | 0 <= k < |p.1|
      ensures p.1[k] in ids
    {
      assert p.1[k] in multiset(p.1);
      assert p.1[k] in multiset(ids);
    }
    if |ids| > 0 {
      var init, last := ids[..|ids| - 1], ids[|ids| - 1];
      assert ids == init + [last];
      assert Distinct(init);
      PartitionDistinct(bs, init);
      var q := Partition(bs, init);
      if !bs[last].habitation {
        assert last !in init;
        DistinctSnoc(q.1, last);
      }
    }
  }

  /** A list without repetitions drawn from fresh candidates is fresh too. */
  lemma FreshSub(bs: map<BuildingId, Building>, ids: seq<BuildingId>, sub: seq<BuildingId>)
    requires Fresh(bs, ids) && Distinct(sub)
    requires forall k :: 0 <= k < |sub| ==> sub[k] in ids
    ensures Fresh(bs, sub)
  {
    forall k | 0 <= k < |sub|
      ensures sub[k] in bs && IsEmpty(bs[sub[k]]) && bs[sub[k]].capacity >= 1
    {
      assert sub[k] in ids;
      var j :| 0 <= j < |ids| && ids[j] == sub[k];
    }
  }

  /** Two fresh lists without a common element concatenate to a fresh one. */
  lemma FreshAppend(bs: map<BuildingId, Building>, a: seq<BuildingId>, b: seq<BuildingId>)
    requires Fresh(bs, a) && Fresh(bs, b)
    requires forall k :: 0 <= k < |a| ==> a[k] !in b
    ensures Fresh(bs, a + b)
  {
    DistinctAppend(a, b);
    forall k | 0 <= k < |a + b|
      ensures (a + b)[k] in bs && IsEmpty(bs[(a + b)[k]]) && bs[(a + b)[k]].capacity >= 1
    {
      if k >= |a| { assert (a + b)[k] == b[k - |a|]; }
    }
  }

  /** The non-habitable parts of two fresh, disjoint category lists form a fresh list. */
  lemma WorkplacePartsFresh(bs: map<BuildingId, Building>, offices: seq<BuildingId>, skyscrapers: seq<BuildingId>)
    requires Fresh(bs, offices) && Fresh(bs, skyscrapers)
    requires forall k :: 0 <= k < |offices| ==> offices[k] !in skyscrapers
    ensures Fresh(bs, Partition(bs, offices).1 + Partition(bs, skyscrapers).1)
  {
    PartitionDistinct(bs, offices);
    PartitionDistinct(bs, skyscrapers);
    var w1, w2 := Partition(bs, offices).1, Partition(bs, skyscrapers).1;
    FreshSub(bs, offices, w1);
    FreshSub(bs, skyscrapers, w2);
    forall k | 0 <= k < |w1|
      ensures w1[k] !in w2
    {
      assert w1[k] in offices;
    }
    FreshAppend(bs, w1, w2);
  }

  /**
   `createPopulation` on a built city leaves the category lists, the empty
   role lists and the office buildings and skyscrapers as they were.
   */
  lemma SettledKeepsBuilt(c: City, hours: seq<Hours>, city: City)
    requires Built(c) && Settled(c, hours, city, POPULATION_SIZE)
    ensures city.houses == c.houses && city.offices == c.offices && city.skyscrapers == c.skyscrapers
    ensures city.habitations == [] && city.workplaces == []
    ensures Fresh(city.buildings, city.offices) && Fresh(city.buildings, city.skyscrapers)
    ensures forall k :: 0 <= k < |city.offices| ==> city.offices[k] !in city.skyscrapers
  {
    assert city.offices == c.offices && city.skyscrapers == c.skyscrapers && city.houses == c.houses;
    forall k | 0 <= k < |c.offices|
      ensures city.buildings[c.offices[k]] == c.buildings[c.offices[k]]
    {
      assert Unused(c, c.offices[k]);
      assert c.offices[k] !in c.houses;
    }
    forall k | 0 <= k < |c.skyscrapers|
      ensures city.buildings[c.skyscrapers[k]] == c.buildings[c.skyscrapers[k]]
    {
      assert Unused(c, c.skyscrapers[k]);
      assert c.skyscrapers[k] !in c.houses;
    }
  }

  /**
   After `createPopulation` on a built city, `splitHabitationWorkplace`
   gives the workplaces `affectWorkplaces` requires: the non-habitable office
   buildings, then the non-habitable skyscrapers, each listed once, all of
   them still empty.
   */
  lemma SplitFreshWorkplaces(c: City, hours: seq<Hours>, city: City)
    requires Built(c) && Settled(c, hours, city, POPULATION_SIZE)
    ensures forall k :: 0 <= k < |city.offices| ==> city.offices[k] in city.buildings
    ensures forall k :: 0 <= k < |city.skyscrapers| ==> city.skyscrapers[k] in city.buildings
    ensures SplitHabitationWorkplace(city).workplaces
         == Partition(city.buildings, city.offices).1 + Partition(city.buildings, city.skyscrapers).1
    ensures Fresh(SplitHabitationWorkplace(city).buildings, SplitHabitationWorkplace(city).workplaces)
  {
    SettledKeepsBuilt(c, hours, city);
    WorkplacePartsFresh(city.buildings, city.offices, city.skyscrapers);
    assert [] + Partition(city.buildings, city.offices).1 == Partition(city.buildings, city.offices).1;
  }
}
