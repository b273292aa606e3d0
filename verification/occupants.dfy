/**
 Giving an existing agent a home or a workplace: the agent's reference and
 the building's occupant list change together. These are the two halves of
 every assignment in the city (start-up and relocation alike).
 */
module Occupants {
  import opened Basics
  import opened Buildings
  import opened Cities
  import Inhabitants

  /** `SetHome` on the agent and `AddInhabitant` on the building. */
  function Settle(c: City, h: BuildingId, a: AgentId): (r: City)
    requires a in c.agents && h in c.buildings && |c.buildings[h].inhabitants| < c.buildings[h].capacity
    ensures r.agents.Keys == c.agents.Keys && r.buildings.Keys == c.buildings.Keys
    ensures r.agents[a].home == Some(h) && r.agents[a].(home := c.agents[a].home) == c.agents[a]
    ensures forall x :: x in c.agents && x != a ==> r.agents[x] == c.agents[x]
    ensures r.buildings[h].inhabitants == c.buildings[h].inhabitants + [a]
    ensures r.buildings[h].workers == c.buildings[h].workers
    ensures r.buildings[h].capacity == c.buildings[h].capacity && r.buildings[h].habitation == c.buildings[h].habitation
    ensures forall b :: b in c.buildings && b != h ==> r.buildings[b] == c.buildings[b]
    ensures r.(agents := c.agents, buildings := c.buildings) == c
  {
    c.(agents := c.agents[a := Inhabitants.SetHome(c.agents[a], h)],
       buildings := c.buildings[h := AddInhabitant(c.buildings[h], a)])
  }

  /** `SetWorkPlace` on the agent and `AddWorker` on the building. */
  function Employ(c: City, w: BuildingId, a: AgentId): (r: City)
    requires a in c.agents && w in c.buildings && |c.buildings[w].workers| < c.buildings[w].capacity
    ensures r.agents.Keys == c.agents.Keys && r.buildings.Keys == c.buildings.Keys
    ensures r.agents[a].workplace == Some(w) && r.agents[a].(workplace := c.agents[a].workplace) == c.agents[a]
    ensures forall x :: x in c.agents && x != a ==> r.agents[x] == c.agents[x]
    ensures r.buildings[w].workers == c.buildings[w].workers + [a]
    ensures r.buildings[w].inhabitants == c.buildings[w].inhabitants
    ensures r.buildings[w].capacity == c.buildings[w].capacity && r.buildings[w].habitation == c.buildings[w].habitation
    ensures forall b :: b in c.buildings && b != w ==> r.buildings[b] == c.buildings[b]
    ensures r.(agents := c.agents, buildings := c.buildings) == c
  {
    c.(agents := c.agents[a := Inhabitants.SetWorkPlace(c.agents[a], w)],
       buildings := c.buildings[w := AddWorker(c.buildings[w], a)])
  }

  /** Settling keeps the city invariant. */
  lemma SettleValid(c: City, h: BuildingId, a: AgentId)
    requires Valid(c) && a in c.agents && h in c.buildings && |c.buildings[h].inhabitants| < c.buildings[h].capacity
    ensures Valid(Settle(c, h, a))
  {
    SettleBuildings(c, h, a);
    assert RoleLists(Settle(c, h, a));
  }

  lemma SettleBuildings(c: City, h: BuildingId, a: AgentId)
    requires Valid(c) && a in c.agents && h in c.buildings && |c.buildings[h].inhabitants| < c.buildings[h].capacity
    ensures forall x :: x in Settle(c, h, a).buildings ==> x < c.nextBuilding && BuildingOk(Settle(c, h, a), Settle(c, h, a).buildings[x])
  {
    var r := Settle(c, h, a);
    forall x | x in r.buildings
      ensures x < c.nextBuilding && BuildingOk(r, r.buildings[x])
    {
      assert BuildingOk(c, c.buildings[x]);
      if x == h {
        AddInhabitantValid(c.buildings[h], a);
        assert r.buildings[h] == AddInhabitant(c.buildings[h], a);
      } else {
        assert r.buildings[x] == c.buildings[x];
      }
    }
  }

  /** Employing keeps the city invariant. */
  lemma EmployValid(c: City, w: BuildingId, a: AgentId)
    requires Valid(c) && a in c.agents && w in c.buildings && |c.buildings[w].workers| < c.buildings[w].capacity
    ensures Valid(Employ(c, w, a))
  {
    var r := Employ(c, w, a);
    forall x | x in r.buildings
      ensures x < r.nextBuilding && BuildingOk(r, r.buildings[x])
    {
      assert BuildingOk(c, c.buildings[x]);
      if x == w {
        AddWorkerValid(c.buildings[w], a);
        assert r.buildings[w] == AddWorker(c.buildings[w], a);
      } else {
        assert r.buildings[x] == c.buildings[x];
      }
    }
    assert RoleLists(r);
  }

  /**
   Settling keeps every employed agent employed, and every housed agent
   housed; the settled agent itself lives in the building that now lists it.
   */
  lemma SettleKeeps(c: City, h: BuildingId, a: AgentId)
    requires a in c.agents && h in c.buildings && |c.buildings[h].inhabitants| < c.buildings[h].capacity
    ensures Employed(c) ==> Employed(Settle(c, h, a))
    ensures Housed(c) ==> Housed(Settle(c, h, a))
  {
  }

  /** Employing keeps every housed agent housed, and every employed agent employed. */
  lemma EmployKeeps(c: City, w: BuildingId, a: AgentId)
    requires a in c.agents && w in c.buildings && |c.buildings[w].workers| < c.buildings[w].capacity
    ensures Housed(c) ==> Housed(Employ(c, w, a))
    ensures Employed(c) ==> Employed(Employ(c, w, a))
  {
  }
}
