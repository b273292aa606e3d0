/**
 Creating the population at start-up: `createPopulation` creates the agents
 and fills the houses one at a time, drawing the next house at random among
 those not used yet. The random working hours are data.
 */
module Population {
  import opened Basics
  import opened Buildings
  import opened Cities
  import opened Assignment
  import Inhabitants

  /** Number of agents created at start-up. */
  const POPULATION_SIZE: nat := 100

  /** The range the start of an agent's working hours is drawn from. */
  const EARLY_START: real := 0.20
  const LATE_START: real := 0.30

  /** The range the end of an agent's working hours is drawn from. */
  const EARLY_END: real := 0.70
  const LATE_END: real := 0.80

  /** An agent's working hours, drawn at random by the source. */
  datatype Hours = Hours(start: real, end: real)

  /** Hours as the draws can produce them: the start and the end each within its range. */
  predicate InRanges(h: Hours) {
    EARLY_START <= h.start <= LATE_START && EARLY_END <= h.end <= LATE_END
  }

  /**
   A new agent with drawn hours is at home, due to leave for work at any
   time between the latest start and the earliest end, and not due to go
   home, whatever its actual draws.
   */
  lemma DueForWork(home: BuildingId, h: Hours, time: real)
    requires InRanges(h) && LATE_START <= time <= EARLY_END
    ensures var a := Inhabitants.Init(Inhabitants.NewAgent(), home, h.start, h.end);
      Inhabitants.WorkDue(a, time) && !Inhabitants.HomeDue(a, time)
  {
  }

  /**
   One iteration of `createPopulation`: a new agent, given its home and
   working hours by `Init`, and added as inhabitant of that home, which is
   switched to habitation first if it was not one.
   */
  function AddResident(c: City, h: BuildingId, hours: Hours): (r: City)
    requires h in c.buildings && |c.buildings[h].inhabitants| < c.buildings[h].capacity
    ensures r.agents == c.agents[c.nextAgent := Inhabitants.Init(Inhabitants.NewAgent(), h, hours.start, hours.end)]
    ensures r.buildings.Keys == c.buildings.Keys
    ensures r.buildings[h].inhabitants == c.buildings[h].inhabitants + [c.nextAgent]
    ensures r.buildings[h].workers == c.buildings[h].workers
    ensures r.buildings[h].capacity == c.buildings[h].capacity && IsHabitable(r.buildings[h])
    ensures forall b :: b in c.buildings && b != h ==> r.buildings[b] == c.buildings[b]
    ensures r.population == c.population + [c.nextAgent] && r.nextAgent == c.nextAgent + 1
    ensures r.(buildings := c.buildings, agents := c.agents, population := c.population, nextAgent := c.nextAgent) == c
  {
    var id := c.nextAgent;
    var agent := Inhabitants.Init(Inhabitants.NewAgent(), h, hours.start, hours.end);
    var home := c.buildings[h];
    var home' := if !IsHabitable(home) then SwitchToHabitation(home) else home;
    c.(agents := c.agents[id := agent],
       buildings := c.buildings[h := AddInhabitant(home', id)],
       population := c.population + [id],
       nextAgent := id + 1)
  }

  /** Adding a resident keeps the city valid. */
  lemma AddResidentValid(c: City, h: BuildingId, hours: Hours)
    requires Valid(c) && h in c.buildings && |c.buildings[h].inhabitants| < c.buildings[h].capacity
    requires h !in c.workplaces
    ensures c.nextAgent !in c.agents
    ensures Valid(AddResident(c, h, hours))
  {
    AddResidentBuildings(c, h, hours);
    var r := AddResident(c, h, hours);
    assert RoleLists(r);
  }

  /** Every building, the home included, stays within its capacity and lists only known agents. */
  lemma AddResidentBuildings(c: City, h: BuildingId, hours: Hours)
    requires Valid(c) && h in c.buildings && |c.buildings[h].inhabitants| < c.buildings[h].capacity
    ensures forall x :: x in AddResident(c, h, hours).buildings ==>
      x < c.nextBuilding && BuildingOk(AddResident(c, h, hours), AddResident(c, h, hours).buildings[x])
  {
    var r := AddResident(c, h, hours);
    var b := c.buildings[h];
    var b' := if !IsHabitable(b) then SwitchToHabitation(b) else b;
    AddInhabitantValid(b', c.nextAgent);
    assert r.buildings[h] == AddInhabitant(b', c.nextAgent);
    forall x | x in r.buildings
      ensures x < c.nextBuilding && BuildingOk(r, r.buildings[x])
    {
      assert BuildingOk(c, c.buildings[x]);
    }
  }

  /** Adding a resident keeps every housed agent housed. */
  lemma AddResidentHoused(c: City, h: BuildingId, hours: Hours)
    requires Valid(c) && Housed(c) && h in c.buildings && |c.buildings[h].inhabitants| < c.buildings[h].capacity
    ensures Housed(AddResident(c, h, hours))
  {
    var r := AddResident(c, h, hours);
    forall k | 0 <= k < |r.population| && r.population[k] !in r.homeless
      ensures r.population[k] in r.agents
      ensures r.agents[r.population[k]].home.Some?
      ensures r.agents[r.population[k]].home.value in r.buildings
      ensures r.population[k] in r.buildings[r.agents[r.population[k]].home.value].inhabitants
    {
      if k < |c.population| {
        assert r.population[k] == c.population[k];
        assert c.population[k] != c.nextAgent;
      }
    }
  }

  /** The houses as `createBuildings` leaves them: fresh candidates, none a workplace. */
  ghost predicate FreshHouses(c: City) {
    && Fresh(c.buildings, c.houses)
    && forall k :: 0 <= k < |c.houses| ==> c.houses[k] !in c.workplaces
  }

  /** Besides the houses' inhabitants, window lights and roles, nothing that existed in `c` differs in `city`. */
  ghost predicate KeepsExisting(c: City, city: City) {
    && city.buildings.Keys == c.buildings.Keys
    && (forall b :: b in c.buildings && b !in c.houses ==> city.buildings[b] == c.buildings[b])
    && (forall b :: b in c.buildings ==> city.buildings[b].workers == c.buildings[b].workers)
    && (forall a :: a in c.agents ==> a in city.agents && city.agents[a] == c.agents[a])
    && city.(buildings := c.buildings, agents := c.agents, population := c.population, nextAgent := c.nextAgent) == c
  }

  /**
   The agents appended to the population are numbered from `c.nextAgent` on,
   got their working hours from `hours` in order, and live in a house that
   lists them.
   */
  ghost predicate NewResidents(c: City, hours: seq<Hours>, city: City, n: nat) {
    && n <= |hours|
    && city.nextAgent == c.nextAgent + n
    && |city.population| == |c.population| + n && city.population[..|c.population|] == c.population
    && (forall k :: |c.population| <= k < |city.population| ==>
          var a := city.population[k];
          && a == c.nextAgent + (k - |c.population|) && a in city.agents && city.agents[a].home.Some?
          && city.agents[a] == Inhabitants.Init(Inhabitants.NewAgent(), city.agents[a].home.value,
               hours[k - |c.population|].start, hours[k - |c.population|].end)
          && city.agents[a].home.value in c.houses && city.agents[a].home.value in city.buildings
          && a in city.buildings[city.agents[a].home.value].inhabitants)
  }

  /** What the first `n` agents of `createPopulation` leave true of `city`. */
  ghost predicate Settled(c: City, hours: seq<Hours>, city: City, n: nat) {
    Valid(city) && (Housed(c) ==> Housed(city)) && KeepsExisting(c, city) && NewResidents(c, hours, city, n)
  }

  /** Nothing created yet. */
  lemma SettledNone(c: City, hours: seq<Hours>)
    requires Valid(c)
    ensures Settled(c, hours, c, 0)
  {
    assert c.population[..|c.population|] == c.population;
  }

  lemma KeepsExistingStep(c: City, city: City, h: BuildingId, hours: Hours)
    requires Valid(c) && KeepsExisting(c, city) && city.nextAgent >= c.nextAgent
    requires h in c.houses && h in city.buildings && |city.buildings[h].inhabitants| < city.buildings[h].capacity
    ensures KeepsExisting(c, AddResident(city, h, hours))
  {
    var r := AddResident(city, h, hours);
    forall a | a in c.agents
      ensures a in r.agents && r.agents[a] == c.agents[a]
    {
      assert a < c.nextAgent;
    }
  }

  lemma NewResidentsStep(c: City, hours: seq<Hours>, city: City, n: nat, h: BuildingId)
    requires NewResidents(c, hours, city, n) && n < |hours|
    requires h in c.houses && h in city.buildings && |city.buildings[h].inhabitants| < city.buildings[h].capacity
    ensures NewResidents(c, hours, AddResident(city, h, hours[n]), n + 1)
  {
    var r := AddResident(city, h, hours[n]);
    assert r.population[..|c.population|] == c.population by {
      assert r.population[..|c.population|] == city.population[..|c.population|];
    }
    forall k | |c.population| <= k < |r.population|
      ensures var a := r.population[k];
        && a == c.nextAgent + (k - |c.population|) && a in r.agents && r.agents[a].home.Some?
        && r.agents[a] == Inhabitants.Init(Inhabitants.NewAgent(), r.agents[a].home.value,
             hours[k - |c.population|].start, hours[k - |c.population|].end)
        && r.agents[a].home.value in c.houses && r.agents[a].home.value in r.buildings
        && a in r.buildings[r.agents[a].home.value].inhabitants
    {
      if k < |city.population| {
        assert r.population[k] == city.population[k];
        assert city.population[k] != city.nextAgent;
      }
    }
  }

  /** One more resident, in a house with room, extends the created prefix by one agent. */
  lemma SettledStep(c: City, hours: seq<Hours>, city: City, n: nat, h: BuildingId)
    requires Valid(c) && FreshHouses(c) && Settled(c, hours, city, n) && n < |hours|
    requires h in c.houses && h in city.buildings && |city.buildings[h].inhabitants| < city.buildings[h].capacity
    ensures Settled(c, hours, AddResident(city, h, hours[n]), n + 1)
  {
    assert city.workplaces == c.workplaces;
    AddResidentValid(city, h, hours[n]);
    if Housed(c) {
      AddResidentHoused(city, h, hours[n]);
    }
    KeepsExistingStep(c, city, h, hours[n]);
    NewResidentsStep(c, hours, city, n, h);
  }

  /**
   The city `createPopulation` builds from `c` when its iterations pick the
   houses `picks` in order: each creates an agent with the next working
   hours and adds it to the picked house. None when a pick has no room left.
   */
  function Replay(c: City, hours: seq<Hours>, picks: seq<BuildingId>): Option<City>
    requires |picks| <= |hours|
    decreases |picks|
  {
    if |picks| == 0 then Some(c)
    else
      match Replay(c, hours, picks[..|picks| - 1])
      case None => None
      case Some(prev) =>
        var h := picks[|picks| - 1];
        if h in prev.buildings && |prev.buildings[h].inhabitants| < prev.buildings[h].capacity
        then Some(AddResident(prev, h, hours[|picks| - 1]))
        else None
  }

  /** Picks drawn among the houses. */
  ghost predicate AmongHouses(c: City, picks: seq<BuildingId>) {
    forall k :: 0 <= k < |picks| ==> picks[k] in c.houses
  }

  /** The last pick of a replay was placed in a house with room, in the city the earlier picks built. */
  lemma ReplayLast(c: City, hours: seq<Hours>, picks: seq<BuildingId>, city: City) returns (prev: City)
    requires 0 < |picks| <= |hours| && Replay(c, hours, picks) == Some(city)
    ensures Replay(c, hours, picks[..|picks| - 1]) == Some(prev)
    ensures picks[|picks| - 1] in prev.buildings
    ensures |prev.buildings[picks[|picks| - 1]].inhabitants| < prev.buildings[picks[|picks| - 1]].capacity
    ensures city == AddResident(prev, picks[|picks| - 1], hours[|picks| - 1])
  {
    prev := Replay(c, hours, picks[..|picks| - 1]).value;
  }

  /** Any city `createPopulation` builds from valid, fresh houses is settled. */
  lemma {:induction false} ReplaySettled(c: City, hours: seq<Hours>, picks: seq<BuildingId>, city: City)
    requires Valid(c) && FreshHouses(c) && |picks| <= |hours| && AmongHouses(c, picks)
    requires Replay(c, hours, picks) == Some(city)
    ensures Settled(c, hours, city, |picks|)
    decreases |picks|
  {
    if |picks| == 0 {
      SettledNone(c, hours);
    } else {
      var n := |picks| - 1;
      var prev := ReplayLast(c, hours, picks, city);
      assert AmongHouses(c, picks[..n]);
      ReplaySettled(c, hours, picks[..n], prev);
      SettledStep(c, hours, prev, n, picks[n]);
    }
  }

  /** The loop state of `createPopulation` after `i` agents, placed in the houses `picks`. */
  ghost predicate Populating(c: City, hours: seq<Hours>, caps: seq<nat>, city: City, picks: seq<BuildingId>,
                             avail: set<nat>, idx: nat, count: nat, i: nat) {
    && |picks| == i <= |hours| && AmongHouses(c, picks)
    && Replay(c, hours, picks) == Some(city)
    && Filling(c.buildings, c.houses, Residents, caps, city.buildings, avail, idx, count)
    && i == UsedSum(caps, avail) + count
  }

  /** Before the first agent: nothing picked, every index available, the first drawn house empty. */
  lemma PopulatingStart(c: City, hours: seq<Hours>, idx: nat)
    requires FreshHouses(c) && idx < |c.houses|
    ensures Populating(c, hours, Capacities(c.buildings, c.houses), c, [], Indices(|c.houses|), idx, 0, 0)
  {
    FillingStart(c.buildings, c.houses, Residents, idx);
  }

  /** Placing agent `i` in `h` extends the replayed picks by `h`. */
  lemma ReplayStep(c: City, hours: seq<Hours>, picks: seq<BuildingId>, city: City, h: BuildingId)
    requires |picks| < |hours| && Replay(c, hours, picks) == Some(city)
    requires h in city.buildings && |city.buildings[h].inhabitants| < city.buildings[h].capacity
    ensures Replay(c, hours, picks + [h]) == Some(AddResident(city, h, hours[|picks|]))
  {
    assert (picks + [h])[..|picks|] == picks;
  }

  /** One iteration with room left in the drawn house. */
  lemma PopulatingStep(c: City, hours: seq<Hours>, caps: seq<nat>, city: City, picks: seq<BuildingId>,
                       avail: set<nat>, idx: nat, count: nat, i: nat)
    requires FreshHouses(c) && i < |hours|
    requires Populating(c, hours, caps, city, picks, avail, idx, count, i) && count < caps[idx]
    ensures idx < |c.houses| && c.houses[idx] in city.buildings
    ensures |city.buildings[c.houses[idx]].inhabitants| < city.buildings[c.houses[idx]].capacity
    ensures Populating(c, hours, caps, AddResident(city, c.houses[idx], hours[i]), picks + [c.houses[idx]],
                       avail, idx, count + 1, i + 1)
  {
    FillingCurrent(c.buildings, c.houses, Residents, caps, city.buildings, avail, idx, count);
    ReplayStep(c, hours, picks, city, c.houses[idx]);
    var r := AddResident(city, c.houses[idx], hours[i]);
    FillingStep(c.buildings, c.houses, Residents, caps, city.buildings, r.buildings, avail, idx, count);
  }

  /** What an iteration reads of its state: the drawn house, its capacity, and how many it holds. */
  lemma PopulatingCurrent(c: City, caps: seq<nat>, city: City, avail: set<nat>, idx: nat, count: nat)
    requires FreshHouses(c) && Filling(c.buildings, c.houses, Residents, caps, city.buildings, avail, idx, count)
    ensures idx < |c.houses| == |caps| && idx in avail && c.houses[idx] in city.buildings
    ensures city.buildings[c.houses[idx]].capacity == caps[idx] >= 1 && count <= caps[idx]
  {
    FillingCurrent(c.buildings, c.houses, Residents, caps, city.buildings, avail, idx, count);
  }

  /** Drawing another house once the drawn one is full. */
  lemma PopulatingNext(c: City, caps: seq<nat>, city: City, avail: set<nat>, idx: nat, next: nat, i: nat)
    requires FreshHouses(c) && idx < |caps| && Filling(c.buildings, c.houses, Residents, caps, city.buildings, avail, idx, caps[idx])
    requires i == UsedSum(caps, avail) + caps[idx] && next in avail - {idx}
    ensures Filling(c.buildings, c.houses, Residents, caps, city.buildings, avail - {idx}, next, 0)
    ensures i == UsedSum(caps, avail - {idx}) + 0
  {
    FillingNext(c.buildings, c.houses, Residents, caps, city.buildings, avail, idx, next, i);
  }

  /**
   `createPopulation`: POPULATION_SIZE agents are created and placed in houses.
   A house is drawn at random among the unused ones and filled to its
   capacity before the next is drawn; the fallback to office buildings
   written after the draw is never reached, because drawing from an exhausted
   list throws first. So the assignment fails exactly when the houses' total
   capacity is below POPULATION_SIZE, and on success every new agent lives in
   a house that lists it, and nothing that existed before changed but the
   houses' inhabitants, windows and roles.
   */
  method CreatePopulation(c: City, hours: seq<Hours>) returns (r: Result<City, AssignError>)
    requires Valid(c) && FreshHouses(c) && |hours| == POPULATION_SIZE
    ensures r.Success? <==> Sum(Capacities(c.buildings, c.houses)) >= POPULATION_SIZE
    ensures r.Success? ==> Settled(c, hours, r.value, POPULATION_SIZE)
  {
    var H := c.houses;
    var caps := Capacities(c.buildings, H);
    var avail := Indices(|H|);
    if avail == {} {
      assert |H| == 0 && Sum(caps) == 0;
      return Failure(ExceededCapacity);
    }
    var idx: nat :| idx in avail;
    PopulatingStart(c, hours, idx);
    ghost var picks;
    r, picks := FillHouses(c, hours, caps, c, [], avail, idx, 0, 0);
    if r.Success? {
      ReplaySettled(c, hours, picks, r.value);
    }
  }

  /** Places agent `i` in the drawn house, which has room. */
  method PlaceResident(c: City, hours: seq<Hours>, caps: seq<nat>, city: City, ghost picks: seq<BuildingId>,
                       avail: set<nat>, idx: nat, count: nat, i: nat)
    returns (city': City)
    requires FreshHouses(c) && i < |hours|
    requires Populating(c, hours, caps, city, picks, avail, idx, count, i) && count < caps[idx]
    ensures idx < |c.houses|
    ensures Populating(c, hours, caps, city', picks + [c.houses[idx]], avail, idx, count + 1, i + 1)
  {
    PopulatingStep(c, hours, caps, city, picks, avail, idx, count, i);
    city' := AddResident(city, c.houses[idx], hours[i]);
  }

  /**
   The head of an iteration of `createPopulation`: once the drawn house is
   full, its index is removed and another is drawn among those left; with
   none left the draw throws, and by then exactly the houses' total
   capacity has been placed.
   */
  method NextHouse(c: City, caps: seq<nat>, city: City, avail: set<nat>, idx: nat, count: nat, i: nat)
    returns (ok: bool, avail': set<nat>, idx': nat, count': nat)
    requires FreshHouses(c) && Filling(c.buildings, c.houses, Residents, caps, city.buildings, avail, idx, count)
    requires i == UsedSum(caps, avail) + count
    ensures ok ==> Filling(c.buildings, c.houses, Residents, caps, city.buildings, avail', idx', count')
    ensures ok ==> i == UsedSum(caps, avail') + count' && count' < caps[idx']
    ensures !ok <==> i == Sum(caps)
  {
    PopulatingCurrent(c, caps, city, avail, idx, count);
    if count < city.buildings[c.houses[idx]].capacity {
      UsedSumTake(caps, avail, idx);
      UsedSumBound(caps, avail - {idx});
      return true, avail, idx, count;
    }
    if avail - {idx} == {} {
      FillingExhausted(caps, avail, idx, i);
      return false, avail, idx, count;
    }
    var next: nat :| next in avail - {idx};
    PopulatingNext(c, caps, city, avail, idx, next, i);
    PopulatingCurrent(c, caps, city, avail - {idx}, next, 0);
    UsedSumTake(caps, avail - {idx}, next);
    UsedSumBound(caps, avail - {idx} - {next});
    return true, avail - {idx}, next, 0;
  }

  /**
   The loop of `createPopulation` from any state it can reach, one iteration
   per call: move to a new house once the drawn one is full, then place agent
   `i`. It succeeds exactly when the houses hold everyone, with the city
   replayed from the houses picked.
   */
  method FillHouses(c: City, hours: seq<Hours>, caps: seq<nat>, city: City, ghost picks: seq<BuildingId>,
                    avail: set<nat>, idx: nat, count: nat, i: nat)
    returns (r: Result<City, AssignError>, ghost picks': seq<BuildingId>)
    requires FreshHouses(c) && |hours| == POPULATION_SIZE && i <= POPULATION_SIZE
    requires Populating(c, hours, caps, city, picks, avail, idx, count, i)
    ensures r.Success? <==> Sum(caps) >= POPULATION_SIZE
    ensures r.Success? ==> |picks'| == POPULATION_SIZE && AmongHouses(c, picks') && Replay(c, hours, picks') == Some(r.value)
    decreases POPULATION_SIZE - i
  {
    if i == POPULATION_SIZE {
      FillingBound(caps, avail, idx, count, i);
      return Success(city), picks;
    }
    var ok, avail', idx', count' := NextHouse(c, caps, city, avail, idx, count, i);
    if !ok {
      return Failure(ExceededCapacity), picks;
    }
    var city' := PlaceResident(c, hours, caps, city, picks, avail', idx', count', i);
    r, picks' := FillHouses(c, hours, caps, city', picks + [c.houses[idx']], avail', idx', count' + 1, i + 1);
  }
}
