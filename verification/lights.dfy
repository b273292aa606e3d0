/**
 Window lights of the city: how an agent's step, through the notice it
 returns, switches the lights of the building it enters or leaves.
 */
module Lights {
  import opened Basics
  import opened Buildings
  import Windows
  import Inhabitants
  import opened Cities

  /**
   What an agent's notice does to the city: entering a building lights its
   lowest dark window (`OnAgentEnter`), leaving one switches off its highest
   lit window (`OnAgentLeave`). Only that building's windows change; a quiet
   step, or a building no longer in the city, changes nothing.
   */
  function ApplyNotice(c: City, n: Inhabitants.Notice): (r: City)
    ensures n.Quiet? || n.building !in c.buildings ==> r == c
    ensures r.buildings.Keys == c.buildings.Keys
    ensures r.(buildings := c.buildings) == c
    ensures forall x :: x in c.buildings && (n.Quiet? || x != n.building) ==> r.buildings[x] == c.buildings[x]
    ensures n.Entered? && n.building in c.buildings ==>
      && r.buildings[n.building].windows == Windows.OnAgentEnter(c.buildings[n.building].windows)
      && r.buildings[n.building].(windows := c.buildings[n.building].windows) == c.buildings[n.building]
    ensures n.Left? && n.building in c.buildings ==>
      && r.buildings[n.building].windows == Windows.OnAgentLeave(c.buildings[n.building].windows)
      && r.buildings[n.building].(windows := c.buildings[n.building].windows) == c.buildings[n.building]
  {
    match n
    case Quiet => c
    case Entered(b) =>
      if b in c.buildings
      then c.(buildings := c.buildings[b := c.buildings[b].(windows := Windows.OnAgentEnter(c.buildings[b].windows))])
      else c
    case Left(b) =>
      if b in c.buildings
      then c.(buildings := c.buildings[b := c.buildings[b].(windows := Windows.OnAgentLeave(c.buildings[b].windows))])
      else c
  }

  /**
   Applying a notice keeps the city invariant; the building it names gains
   one lit window on an enter (unless all were lit) and loses one on a leave
   (unless none was).
   */
  lemma ApplyNoticeValid(c: City, n: Inhabitants.Notice)
    requires Valid(c)
    ensures Valid(ApplyNotice(c, n))
    ensures n.Entered? && n.building in c.buildings ==>
      var w := c.buildings[n.building].windows;
      Windows.LitCount(ApplyNotice(c, n).buildings[n.building].windows)
        == if Windows.LitCount(w) < |w| then Windows.LitCount(w) + 1 else |w|
    ensures n.Left? && n.building in c.buildings ==>
      var w := c.buildings[n.building].windows;
      Windows.LitCount(ApplyNotice(c, n).buildings[n.building].windows)
        == if Windows.LitCount(w) > 0 then Windows.LitCount(w) - 1 else 0
  {
    if !n.Quiet? && n.building in c.buildings {
      var w := c.buildings[n.building].windows;
      assert BuildingOk(c, c.buildings[n.building]);
      if n.Entered? {
        Windows.EnterKeepsPrefix(w);
        NewWindowsValid(c, n.building, Windows.OnAgentEnter(w));
      } else {
        Windows.LeaveKeepsPrefix(w);
        NewWindowsValid(c, n.building, Windows.OnAgentLeave(w));
      }
    }
  }

  /** Replacing one building's windows by another lit prefix of the same length keeps the invariant. */
  lemma NewWindowsValid(c: City, b: BuildingId, w: seq<bool>)
    requires Valid(c) && b in c.buildings
    requires |w| == |c.buildings[b].windows| && Windows.LitPrefix(w)
    ensures Valid(c.(buildings := c.buildings[b := c.buildings[b].(windows := w)]))
  {
    var r := c.(buildings := c.buildings[b := c.buildings[b].(windows := w)]);
    assert BuildingOk(c, c.buildings[b]);
    assert BuildingOk(r, r.buildings[b]);
    assert forall x :: x in r.buildings && x != b ==> r.buildings[x] == c.buildings[x];
    assert RoleLists(r);
  }

  /**
   An agent that enters a building with a dark window and then leaves it
   leaves the city's windows as they were.
   */
  lemma LeaveUndoesEnterNotice(c: City, b: BuildingId)
    requires Valid(c) && b in c.buildings
    requires exists i :: 0 <= i < |c.buildings[b].windows| && !c.buildings[b].windows[i]
    ensures ApplyNotice(ApplyNotice(c, Inhabitants.Entered(b)), Inhabitants.Left(b)) == c
  {
    assert BuildingOk(c, c.buildings[b]);
    Windows.LeaveUndoesEnter(c.buildings[b].windows);
    var r := ApplyNotice(ApplyNotice(c, Inhabitants.Entered(b)), Inhabitants.Left(b));
    assert r.buildings == c.buildings;
  }

  /**
   One frame of `Update` for agent `id` inside the city: the agent steps
   with the city's buildings as the ones still standing, and the window
   change it reports is applied to the city.
   */
  function AgentFrame(c: City, id: AgentId, time: real, distance: real): (r: City)
    requires id in c.agents
    ensures var (a, n) := Inhabitants.Step(c.agents[id], time, distance, c.buildings.Keys);
      && r.agents == c.agents[id := a]
      && r.buildings == ApplyNotice(c, n).buildings
      && r.(agents := c.agents, buildings := c.buildings) == c
    ensures Valid(c) ==> Valid(r)
  {
    var (a, n) := Inhabitants.Step(c.agents[id], time, distance, c.buildings.Keys);
    var r := ApplyNotice(c, n).(agents := c.agents[id := a]);
    assert Valid(c) ==> Valid(r) by {
      if Valid(c) {
        ApplyNoticeValid(c, n);
        var m := ApplyNotice(c, n);
        assert r.agents.Keys == m.agents.Keys;
        assert forall x :: x in r.buildings ==> BuildingOk(r, r.buildings[x]) == BuildingOk(m, m.buildings[x]);
      }
    }
    r
  }
}
