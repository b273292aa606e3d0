/**
 `affectWorkplaces`: after the role lists are built, every agent of the
 population is given a workplace. A workplace is drawn at random among the
 unused ones and filled up (`IsFull`) before the next is drawn; the first
 draw, and any draw from an exhausted list, throws.
 */
module Workplaces {
  import opened Basics
  import opened Buildings
  import opened Cities
  import opened Assignment
  import opened Occupants

  /**
   The city `affectWorkplaces` builds from `c` when agent `k` of the
   population is employed at `picks[k]`. None when a pick has no room left.
   */
  function Replay(c: City, picks: seq<BuildingId>): Option<City>
    requires |picks| <= |c.population|
    decreases |picks|
  {
    if |picks| == 0 then Some(c)
    else
      match Replay(c, picks[..|picks| - 1])
      case None => None
      case Some(prev) =>
        var w := picks[|picks| - 1];
        var a := c.population[|picks| - 1];
        if a in prev.agents && w in prev.buildings && |prev.buildings[w].workers| < prev.buildings[w].capacity
        then Some(Employ(prev, w, a))
        else None
  }

  /** Picks drawn among the workplaces. */
  ghost predicate AmongWorkplaces(c: City, picks: seq<BuildingId>) {
    forall k :: 0 <= k < |picks| ==> picks[k] in c.workplaces
  }

  /**
   What employing the first `n` agents of the population leaves true of
   `city`: the invariant and the housing kept; only workplaces and worker
   lists changed; each of those agents works at a workplace that lists it.
   */
  ghost predicate Assigned(c: City, city: City, n: nat) {
    && Valid(city) && (Housed(c) ==> Housed(city))
    && n <= |c.population|
    && OnlyWorkplaces(c, city)
    && EmployedPrefix(c, city, n)
  }

  /** `city` differs from `c` only in the agents' workplaces and the buildings' worker lists. */
  ghost predicate OnlyWorkplaces(c: City, city: City) {
    && city.agents.Keys == c.agents.Keys && city.buildings.Keys == c.buildings.Keys
    && (forall a :: a in c.agents ==> city.agents[a].(workplace := c.agents[a].workplace) == c.agents[a])
    && (forall b :: b in c.buildings ==> city.buildings[b].(workers := c.buildings[b].workers) == c.buildings[b])
    && city.(agents := c.agents, buildings := c.buildings) == c
  }

  lemma OnlyWorkplacesStep(c: City, city: City, w: BuildingId, a: AgentId)
    requires OnlyWorkplaces(c, city)
    requires a in city.agents && w in city.buildings && |city.buildings[w].workers| < city.buildings[w].capacity
    ensures OnlyWorkplaces(c, Employ(city, w, a))
  {
    var r := Employ(city, w, a);
    forall x | x in c.agents
      ensures r.agents[x].(workplace := c.agents[x].workplace) == c.agents[x]
    {
      if x == a {
        assert r.agents[a].(workplace := city.agents[a].workplace) == city.agents[a];
      }
    }
    forall b | b in c.buildings
      ensures r.buildings[b].(workers := c.buildings[b].workers) == c.buildings[b]
    {
      if b == w {
        assert r.buildings[w] == AddWorker(city.buildings[w], a);
      }
    }
  }

  /** Each of the first `n` agents of the population works at a workplace that lists it. */
  ghost predicate EmployedPrefix(c: City, city: City, n: nat) {
    forall k :: 0 <= k < n && k < |c.population| ==>
      var a := c.population[k];
      && a in city.agents && city.agents[a].workplace.Some?
      && city.agents[a].workplace.value in c.workplaces
      && city.agents[a].workplace.value in city.buildings
      && a in city.buildings[city.agents[a].workplace.value].workers
  }

  /** Employing agent `n` keeps the earlier agents employed and employs it. */
  lemma EmployedPrefixStep(c: City, city: City, n: nat, w: BuildingId)
    requires EmployedPrefix(c, city, n) && n < |c.population| && c.population[n] in city.agents
    requires w in c.workplaces && w in city.buildings && |city.buildings[w].workers| < city.buildings[w].capacity
    ensures EmployedPrefix(c, Employ(city, w, c.population[n]), n + 1)
  {
    var a := c.population[n];
    var r := Employ(city, w, a);
    forall k | 0 <= k < n + 1 && k < |c.population|
      ensures var x := c.population[k];
        && x in r.agents && r.agents[x].workplace.Some?
        && r.agents[x].workplace.value in c.workplaces
        && r.agents[x].workplace.value in r.buildings
        && x in r.buildings[r.agents[x].workplace.value].workers
    {
      var x := c.population[k];
      if x != a {
        assert r.agents[x] == city.agents[x];
        var v := city.agents[x].workplace.value;
        if v == w {
          assert r.buildings[w].workers == city.buildings[w].workers + [a];
        } else {
          assert r.buildings[v] == city.buildings[v];
        }
      }
    }
  }

  lemma AssignedNone(c: City)
    requires Valid(c)
    ensures Assigned(c, c, 0)
  {
  }

  /** Employing agent `n` at a workplace with room extends the assigned prefix by one. */
  lemma AssignedStep(c: City, city: City, n: nat, w: BuildingId)
    requires Valid(c) && Assigned(c, city, n) && n < |c.population|
    requires w in c.workplaces && w in city.buildings && |city.buildings[w].workers| < city.buildings[w].capacity
    ensures c.population[n] in city.agents
    ensures Assigned(c, Employ(city, w, c.population[n]), n + 1)
  {
    var a := c.population[n];
    assert a in c.agents;
    var r := Employ(city, w, a);
    EmployValid(city, w, a);
    EmployKeeps(city, w, a);
    EmployedPrefixStep(c, city, n, w);
    OnlyWorkplacesStep(c, city, w, a);
  }

  /** The last pick of a replay employed its agent at a workplace with room, in the city the earlier picks built. */
  lemma ReplayLast(c: City, picks: seq<BuildingId>, city: City) returns (prev: City)
    requires 0 < |picks| <= |c.population| && Replay(c, picks) == Some(city)
    ensures Replay(c, picks[..|picks| - 1]) == Some(prev)
    ensures c.population[|picks| - 1] in prev.agents && picks[|picks| - 1] in prev.buildings
    ensures |prev.buildings[picks[|picks| - 1]].workers| < prev.buildings[picks[|picks| - 1]].capacity
    ensures city == Employ(prev, picks[|picks| - 1], c.population[|picks| - 1])
  {
    prev := Replay(c, picks[..|picks| - 1]).value;
  }

  /** Any city `affectWorkplaces` builds from a valid city is assigned. */
  lemma {:induction false} ReplayAssigned(c: City, picks: seq<BuildingId>, city: City)
    requires Valid(c) && |picks| <= |c.population| && AmongWorkplaces(c, picks)
    requires Replay(c, picks) == Some(city)
    ensures Assigned(c, city, |picks|)
    decreases |picks|
  {
    if |picks| == 0 {
      AssignedNone(c);
    } else {
      var n := |picks| - 1;
      var prev := ReplayLast(c, picks, city);
      assert AmongWorkplaces(c, picks[..n]);
      ReplayAssigned(c, picks[..n], prev);
      AssignedStep(c, prev, n, picks[n]);
    }
  }

  /** With the whole population assigned, everyone outside the workless queue is employed. */
  lemma AssignedEmployed(c: City, city: City)
    requires Assigned(c, city, |c.population|)
    ensures Employed(city)
  {
    forall k | 0 <= k < |city.population| && city.population[k] !in city.workless
      ensures city.population[k] in city.agents
      ensures city.agents[city.population[k]].workplace.Some?
      ensures city.agents[city.population[k]].workplace.value in city.buildings
      ensures city.population[k] in city.buildings[city.agents[city.population[k]].workplace.value].workers
    {
      assert city.population[k] == c.population[k];
    }
  }

  /** The loop state of `affectWorkplaces` after `i` agents, employed at the workplaces `picks`. */
  ghost predicate Employing(c: City, caps: seq<nat>, city: City, picks: seq<BuildingId>,
                            avail: set<nat>, idx: nat, count: nat, i: nat) {
    && |picks| == i <= |c.population| && AmongWorkplaces(c, picks)
    && Replay(c, picks) == Some(city) && city.agents.Keys == c.agents.Keys
    && Filling(c.buildings, c.workplaces, Staff, caps, city.buildings, avail, idx, count)
    && i == UsedSum(caps, avail) + count
  }

  /** Every agent of the population exists. */
  ghost predicate Known(c: City) {
    forall k :: 0 <= k < |c.population| ==> c.population[k] in c.agents
  }

  /** Before the first agent: nothing picked, every index available, the first drawn workplace empty. */
  lemma EmployingStart(c: City, idx: nat)
    requires Fresh(c.buildings, c.workplaces) && idx < |c.workplaces|
    ensures Employing(c, Capacities(c.buildings, c.workplaces), c, [], Indices(|c.workplaces|), idx, 0, 0)
  {
    FillingStart(c.buildings, c.workplaces, Staff, idx);
  }

  /** Employing agent `i` at `w` extends the replayed picks by `w`. */
  lemma ReplayStep(c: City, picks: seq<BuildingId>, city: City, w: BuildingId)
    requires |picks| < |c.population| && Replay(c, picks) == Some(city)
    requires c.population[|picks|] in city.agents && w in city.buildings
    requires |city.buildings[w].workers| < city.buildings[w].capacity
    ensures Replay(c, picks + [w]) == Some(Employ(city, w, c.population[|picks|]))
  {
    assert (picks + [w])[..|picks|] == picks;
  }

  /** One iteration with room left in the drawn workplace. */
  lemma EmployingStep(c: City, caps: seq<nat>, city: City, picks: seq<BuildingId>,
                      avail: set<nat>, idx: nat, count: nat, i: nat)
    requires Fresh(c.buildings, c.workplaces) && Known(c) && i < |c.population|
    requires Employing(c, caps, city, picks, avail, idx, count, i) && count < caps[idx]
    ensures idx < |c.workplaces| && c.workplaces[idx] in city.buildings && c.population[i] in city.agents
    ensures |city.buildings[c.workplaces[idx]].workers| < city.buildings[c.workplaces[idx]].capacity
    ensures Employing(c, caps, Employ(city, c.workplaces[idx], c.population[i]), picks + [c.workplaces[idx]],
                      avail, idx, count + 1, i + 1)
  {
    FillingCurrent(c.buildings, c.workplaces, Staff, caps, city.buildings, avail, idx, count);
    var w := c.workplaces[idx];
    ReplayStep(c, picks, city, w);
    var r := Employ(city, w, c.population[i]);
    FillingStep(c.buildings, c.workplaces, Staff, caps, city.buildings, r.buildings, avail, idx, count);
  }

  /**
   `affectWorkplaces`: every agent of the population gets a workplace that
   lists it as worker. The first draw throws when there is no workplace at
   all, and a later draw throws when the drawn workplace is full and none is
   left; so the assignment succeeds exactly when there is a workplace and
   the workplaces' total capacity covers the population. Homes are kept.
   */
  method AffectWorkplaces(c: City) returns (r: Result<City, AssignError>)
    requires Valid(c) && Fresh(c.buildings, c.workplaces)
    ensures r.Success? <==> |c.workplaces| > 0 && Sum(Capacities(c.buildings, c.workplaces)) >= |c.population|
    ensures r.Success? ==> Assigned(c, r.value, |c.population|) && Employed(r.value)
  {
    var W := c.workplaces;
    var caps := Capacities(c.buildings, W);
    var avail := Indices(|W|);
    if avail == {} {
      assert |W| == 0;
      return Failure(ExceededCapacity);
    }
    var idx: nat :| idx in avail;
    EmployingStart(c, idx);
    ghost var picks;
    r, picks := FillWorkplaces(c, caps, c, [], avail, idx, 0, 0);
    if r.Success? {
      ReplayAssigned(c, picks, r.value);
      AssignedEmployed(c, r.value);
    }
  }

  /** Employs agent `i` at the drawn workplace, which has room. */
  method PlaceWorker(c: City, caps: seq<nat>, city: City, ghost picks: seq<BuildingId>,
                     avail: set<nat>, idx: nat, count: nat, i: nat)
    returns (city': City)
    requires Fresh(c.buildings, c.workplaces) && Known(c) && i < |c.population|
    requires Employing(c, caps, city, picks, avail, idx, count, i) && count < caps[idx]
    ensures idx < |c.workplaces|
    ensures Employing(c, caps, city', picks + [c.workplaces[idx]], avail, idx, count + 1, i + 1)
  {
    EmployingStep(c, caps, city, picks, avail, idx, count, i);
    city' := Employ(city, c.workplaces[idx], c.population[i]);
  }

  /**
   The head of an iteration of `affectWorkplaces`: when the drawn workplace
   is full its index is removed and another drawn among those left; with
   none left the draw throws, and by then exactly the total capacity has
   been given out.
   */
  method NextWorkplace(c: City, caps: seq<nat>, city: City, avail: set<nat>, idx: nat, count: nat, i: nat)
    returns (ok: bool, avail': set<nat>, idx': nat, count': nat)
    requires Fresh(c.buildings, c.workplaces)
    requires Filling(c.buildings, c.workplaces, Staff, caps, city.buildings, avail, idx, count)
    requires i == UsedSum(caps, avail) + count
    ensures ok ==> Filling(c.buildings, c.workplaces, Staff, caps, city.buildings, avail', idx', count')
    ensures ok ==> i == UsedSum(caps, avail') + count' && count' < caps[idx']
    ensures !ok <==> i == Sum(caps)
  {
    FillingCurrent(c.buildings, c.workplaces, Staff, caps, city.buildings, avail, idx, count);
    if !IsFull(city.buildings[c.workplaces[idx]]) {
      UsedSumTake(caps, avail, idx);
      UsedSumBound(caps, avail - {idx});
      return true, avail, idx, count;
    }
    if avail - {idx} == {} {
      FillingExhausted(caps, avail, idx, i);
      return false, avail, idx, count;
    }
    var next: nat :| next in avail - {idx};
    FillingNext(c.buildings, c.workplaces, Staff, caps, city.buildings, avail, idx, next, i);
    FillingCurrent(c.buildings, c.workplaces, Staff, caps, city.buildings, avail - {idx}, next, 0);
    UsedSumTake(caps, avail - {idx}, next);
    UsedSumBound(caps, avail - {idx} - {next});
    return true, avail - {idx}, next, 0;
  }

  /**
   The loop of `affectWorkplaces` from any state it can reach, one iteration
   per call. It succeeds exactly when the workplaces hold the whole
   population, with the city replayed from the workplaces picked.
   */
  method FillWorkplaces(c: City, caps: seq<nat>, city: City, ghost picks: seq<BuildingId>,
                        avail: set<nat>, idx: nat, count: nat, i: nat)
    returns (r: Result<City, AssignError>, ghost picks': seq<BuildingId>)
    requires Fresh(c.buildings, c.workplaces) && Known(c) && i <= |c.population|
    requires Employing(c, caps, city, picks, avail, idx, count, i)
    ensures r.Success? <==> Sum(caps) >= |c.population|
    ensures r.Success? ==> |picks'| == |c.population| && AmongWorkplaces(c, picks') && Replay(c, picks') == Some(r.value)
    decreases |c.population| - i
  {
    if i == |c.population| {
      FillingBound(caps, avail, idx, count, i);
      return Success(city), picks;
    }
    var ok, avail', idx', count' := NextWorkplace(c, caps, city, avail, idx, count, i);
    if !ok {
      return Failure(ExceededCapacity), picks;
    }
    var city' := PlaceWorker(c, caps, city, picks, avail', idx', count', i);
    r, picks' := FillWorkplaces(c, caps, city', picks + [c.workplaces[idx']], avail', idx', count' + 1, i + 1);
  }
}
