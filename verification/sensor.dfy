/**
 The collision sensor attached to every placed building: when something
 whose name is one of the forbidden names enters it, the building it
 belongs to is destroyed. The building leaves the city's lists, its
 inhabitants are queued as homeless and its workers as workless, and the
 building itself is removed.
 */
module Sensor {
  import opened Basics
  import opened Buildings
  import opened Cities

  /** The names whose collision destroys a building. */
  const FORBIDDEN: seq<string> := ["House", "Building", "Skyscraper", "Road"]

  /** `AddHomeless` for each agent of `s`, in order. */
  function QueueHomeless(c: City, s: seq<AgentId>): (r: City)
    ensures r.homeless == c.homeless + s
    ensures r.(homeless := c.homeless) == c
  {
    if |s| == 0 then c else AddHomeless(QueueHomeless(c, s[..|s| - 1]), s[|s| - 1])
  }

  /** `AddWorkless` for each agent of `s`, in order. */
  function QueueWorkless(c: City, s: seq<AgentId>): (r: City)
    ensures r.workless == c.workless + s
    ensures r.(workless := c.workless) == c
  {
    if |s| == 0 then c else AddWorkless(QueueWorkless(c, s[..|s| - 1]), s[|s| - 1])
  }

  /**
   `OnTriggerEnter` of the sensor named `sensorName` of building `b`, hit by
   an object named `otherName`. A forbidden name removes `b` from the lists
   (the category by the sensor's own name), queues its inhabitants and its
   workers, and removes `b` itself; any other name changes nothing.
   */
  function DestroyBuilding(c: City, sensorName: string, otherName: string, b: BuildingId): (r: City)
    requires b in c.buildings
    ensures otherName !in FORBIDDEN ==> r == c
    ensures otherName in FORBIDDEN ==>
      && r.buildings == c.buildings - {b}
      && r.homeless == c.homeless + c.buildings[b].inhabitants
      && r.workless == c.workless + c.buildings[b].workers
      && r.agents == c.agents && r.population == c.population
      && r.(buildings := c.buildings, homeless := c.homeless, workless := c.workless)
         == RemoveBuildingFromList(c, sensorName, b)
  {
    if otherName in FORBIDDEN then
      var removed := RemoveBuildingFromList(c, sensorName, b);
      var queued := QueueWorkless(QueueHomeless(removed, c.buildings[b].inhabitants), c.buildings[b].workers);
      queued.(buildings := queued.buildings - {b})
    else
      c
  }

  /**
   Destroying a building keeps the city valid: it is in no role list
   afterward, every queued agent exists, and every remaining building is
   untouched.
   */
  lemma DestroyValid(c: City, sensorName: string, otherName: string, b: BuildingId)
    requires Valid(c) && b in c.buildings
    ensures Valid(DestroyBuilding(c, sensorName, otherName, b))
    ensures otherName in FORBIDDEN ==>
      b !in DestroyBuilding(c, sensorName, otherName, b).habitations
      && b !in DestroyBuilding(c, sensorName, otherName, b).workplaces
  {
    if otherName in FORBIDDEN {
      var r := DestroyBuilding(c, sensorName, otherName, b);
      var removed := RemoveBuildingFromList(c, sensorName, b);
      RemoveBuildingValid(c, sensorName, b);
      assert BuildingOk(c, c.buildings[b]);
      assert RoleLists(r) by {
        forall k | 0 <= k < |r.habitations|
          ensures r.habitations[k] in r.buildings
        {
          assert r.habitations[k] in removed.habitations;
        }
        forall k | 0 <= k < |r.workplaces|
          ensures r.workplaces[k] in r.buildings
        {
          assert r.workplaces[k] in removed.workplaces;
        }
      }
      assert AgentLists(r) by {
        forall k | 0 <= k < |r.homeless|
          ensures r.homeless[k] in r.agents
        {
          if k >= |c.homeless| {
            assert r.homeless[k] == c.buildings[b].inhabitants[k - |c.homeless|];
          }
        }
        forall k | 0 <= k < |r.workless|
          ensures r.workless[k] in r.agents
        {
          if k >= |c.workless| {
            assert r.workless[k] == c.buildings[b].workers[k - |c.workless|];
          }
        }
      }
    }
  }

  /**
   No agent is silently lost: every population agent that lived in the
   destroyed building is queued as homeless, every one that worked there
   is queued as workless, and whoever was housed (employed) elsewhere still is.
   */
  lemma DestroyKeeps(c: City, sensorName: string, otherName: string, b: BuildingId)
    requires b in c.buildings
    ensures Housed(c) ==> Housed(DestroyBuilding(c, sensorName, otherName, b))
    ensures Employed(c) ==> Employed(DestroyBuilding(c, sensorName, otherName, b))
  {
    if otherName in FORBIDDEN {
      var r := DestroyBuilding(c, sensorName, otherName, b);
      if Housed(c) {
        forall k | 0 <= k < |r.population| && r.population[k] !in r.homeless
          ensures r.agents[r.population[k]].home.Some?
          ensures r.agents[r.population[k]].home.value in r.buildings
          ensures r.population[k] in r.buildings[r.agents[r.population[k]].home.value].inhabitants
        {
          var a := r.population[k];
          assert a !in c.homeless;
          assert a !in c.buildings[b].inhabitants;
        }
      }
      if Employed(c) {
        forall k | 0 <= k < |r.population| && r.population[k] !in r.workless
          ensures r.agents[r.population[k]].workplace.Some?
          ensures r.agents[r.population[k]].workplace.value in r.buildings
          ensures r.population[k] in r.buildings[r.agents[r.population[k]].workplace.value].workers
        {
          var a := r.population[k];
          assert a !in c.workless;
          assert a !in c.buildings[b].workers;
        }
      }
    }
  }
}
