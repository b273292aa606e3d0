/**
 An inhabitant's daily schedule: at home (chilling), at work (working) or on
 the way (moving) to a destination. Each frame the agent either checks for
 arrival, when moving, or compares the time of day with its working hours.
 Leaving or entering a building is reported as a `Notice`; `Lights.ApplyNotice`
 switches that building's window lights.
 */
module Inhabitants {
  import opened Basics

  /** Distance below which a moving agent counts as arrived. */
  const THRESHOLD: real := 0.3

  datatype Agent = Agent(
    home: Option<BuildingId>,
    workplace: Option<BuildingId>,
    destination: Option<BuildingId>,
    moving: bool,
    working: bool,
    chilling: bool,
    startTime: real,
    endTime: real)

  /** What a step did to a building: nothing, left it, or entered it. */
  datatype Notice = Quiet | Left(building: BuildingId) | Entered(building: BuildingId)

  /** A freshly instantiated agent: the field initialisers of the source. */
  function NewAgent(): (a: Agent)
    ensures a.chilling && !a.working && !a.moving
    ensures a.home.None? && a.workplace.None? && a.destination.None?
  {
    Agent(None, None, None, false, false, true, 0.0, 0.0)
  }

  /** `Init` gives the agent its home and working hours and touches nothing else. */
  function Init(a: Agent, home: BuildingId, start: real, end: real): (r: Agent)
    ensures r.home == Some(home) && r.startTime == start && r.endTime == end
    ensures r.(home := a.home, startTime := a.startTime, endTime := a.endTime) == a
  {
    a.(home := Some(home), startTime := start, endTime := end)
  }

  function SetHome(a: Agent, home: BuildingId): (r: Agent)
    ensures r.home == Some(home)
    ensures r.(home := a.home) == a
  {
    a.(home := Some(home))
  }

  function SetWorkPlace(a: Agent, workplace: BuildingId): (r: Agent)
    ensures r.workplace == Some(workplace)
    ensures r.(workplace := a.workplace) == a
  {
    a.(workplace := Some(workplace))
  }

  /**
   Whether a reference names a building that still exists. Dereferencing an
   unset reference, or a building destroyed by a collision and not replaced
   by a relocation, throws in the source.
   */
  predicate Live(r: Option<BuildingId>, live: set<BuildingId>) {
    r.Some? && r.value in live
  }

  /**
   Leave home for work: stop chilling, switch a light off at home, move toward
   the workplace. A dead home throws before its light is touched, a dead
   workplace after it; either way the frame's changes up to the throw stay,
   and the agent is left neither moving nor at an activity.
   */
  function GoToWork(a: Agent, live: set<BuildingId>): (r: (Agent, Notice))
    ensures !r.0.chilling && r.0.working == a.working
    ensures r.0.moving <==> a.moving || (Live(a.home, live) && Live(a.workplace, live))
    ensures Live(a.home, live) && Live(a.workplace, live) ==> r.0.destination == a.workplace
    ensures r.1 == (if Live(a.home, live) then Left(a.home.value) else Quiet)
  {
    var a' := a.(chilling := false);
    if !Live(a.home, live) then (a', Quiet)
    else if !Live(a.workplace, live) then (a', Left(a.home.value))
    else (a'.(moving := true, destination := a.workplace), Left(a.home.value))
  }

  /**
   Leave work for home: stop working, switch a light off at work, move toward
   home. A dead workplace throws before its light is touched, a dead home
   after it.
   */
  function GoHome(a: Agent, live: set<BuildingId>): (r: (Agent, Notice))
    ensures !r.0.working && r.0.chilling == a.chilling
    ensures r.0.moving <==> a.moving || (Live(a.home, live) && Live(a.workplace, live))
    ensures Live(a.home, live) && Live(a.workplace, live) ==> r.0.destination == a.home
    ensures r.1 == (if Live(a.workplace, live) then Left(a.workplace.value) else Quiet)
  {
    var a' := a.(working := false);
    if !Live(a.workplace, live) then (a', Quiet)
    else if !Live(a.home, live) then (a', Left(a.workplace.value))
    else (a'.(moving := true, destination := a.home), Left(a.workplace.value))
  }

  /**
   Enter the destination `d`: stop moving, light a window of it, and take up
   the activity of that building: working at the workplace, else chilling at
   home. A building that is neither leaves both flags as they were. A dead
   destination throws after the agent has stopped, before the light.
   */
  function GetIn(a: Agent, d: Option<BuildingId>, live: set<BuildingId>): (r: (Agent, Notice))
    ensures !r.0.moving
    ensures r.1 == (if Live(d, live) then Entered(d.value) else Quiet)
    ensures r.0.working == (a.working || (Live(d, live) && a.workplace == d))
    ensures r.0.chilling == (a.chilling || (Live(d, live) && a.workplace != d && a.home == d))
  {
    var a' := a.(moving := false);
    if !Live(d, live) then (a', Quiet)
    else if d == a.workplace then (a'.(working := true), Entered(d.value))
    else if d == a.home then (a'.(chilling := true), Entered(d.value))
    else (a', Entered(d.value))
  }

  /** Time to go home: working and the end of the working hours reached. */
  predicate HomeDue(a: Agent, time: real) {
    time >= a.endTime && a.working
  }

  /** Time to go to work: chilling within the working hours, both ends included. */
  predicate WorkDue(a: Agent, time: real) {
    time >= a.startTime && time <= a.endTime && a.chilling
  }

  /**
   One frame of `Update`, with the time of day, the distance to the
   navigation target and the set of buildings still standing as inputs.
   Going home is checked before going to work.
   */
  function Step(a: Agent, time: real, distance: real, live: set<BuildingId>): (r: (Agent, Notice))
    ensures a.moving && distance >= THRESHOLD ==> r == (a, Quiet)
    ensures a.moving && distance < THRESHOLD ==> r == GetIn(a, a.destination, live)
    ensures !a.moving && HomeDue(a, time) ==> r == GoHome(a, live)
    ensures !a.moving && !HomeDue(a, time) && WorkDue(a, time) ==> r == GoToWork(a, live)
    ensures !a.moving && !HomeDue(a, time) && !WorkDue(a, time) ==> r == (a, Quiet)
  {
    if a.moving then
      if distance < THRESHOLD then GetIn(a, a.destination, live) else (a, Quiet)
    else if HomeDue(a, time) then GoHome(a, live)
    else if WorkDue(a, time) then GoToWork(a, live)
    else (a, Quiet)
  }

  /** At most one activity at a time, and none while on the way. */
  ghost predicate Exclusive(a: Agent) {
    !(a.working && a.chilling) && (a.moving ==> !a.working && !a.chilling && a.destination.Some?)
  }

  /** A new agent starts chilling at home, and `Init` keeps it so. */
  lemma InitialState(home: BuildingId, start: real, end: real)
    ensures Exclusive(NewAgent())
    ensures var a := Init(NewAgent(), home, start, end);
      a.chilling && !a.working && !a.moving && a.workplace.None? && a.destination.None?
  {
  }

  /** Every step keeps the activities exclusive. */
  lemma StepKeepsExclusive(a: Agent, time: real, distance: real, live: set<BuildingId>)
    requires Exclusive(a)
    ensures Exclusive(Step(a, time, distance, live).0)
  {
  }

  /** While moving the time of day plays no part: only the distance decides. */
  lemma MovingIgnoresTime(a: Agent, t1: real, t2: real, distance: real, live: set<BuildingId>)
    requires a.moving
    ensures Step(a, t1, distance, live) == Step(a, t2, distance, live)
  {
  }

  /**
   Arrival: a moving agent whose distance is strictly below the threshold
   stops and works if it reached its workplace, chills if it reached its home,
   and takes up neither activity if the destination is no longer either, or
   no longer stands.
   */
  lemma Arrival(a: Agent, time: real, distance: real, live: set<BuildingId>)
    requires Exclusive(a) && a.moving && distance < THRESHOLD
    ensures var (r, n) := Step(a, time, distance, live);
      && !r.moving
      && (n == Entered(a.destination.value) <==> a.destination.value in live)
      && (r.working <==> Live(a.destination, live) && a.destination == a.workplace)
      && (r.chilling <==> Live(a.destination, live) && a.destination != a.workplace && a.destination == a.home)
      && r.home == a.home && r.workplace == a.workplace
  {
  }

  /**
   A stationary working agent stops working exactly when the working hours
   are over, and sets off toward home exactly when, in addition, both its
   workplace and its home stand.
   */
  lemma DepartHome(a: Agent, time: real, distance: real, live: set<BuildingId>)
    requires Exclusive(a) && !a.moving && a.working
    ensures var (r, n) := Step(a, time, distance, live);
      && (r.working <==> time < a.endTime)
      && (r.moving <==> time >= a.endTime && Live(a.workplace, live) && Live(a.home, live))
      && (r.moving ==> r.destination == a.home && n == Left(a.workplace.value))
  {
  }

  /**
   A stationary agent not working stops chilling exactly when it is chilling
   and the time is within the working hours (both ends included), and sets
   off toward the workplace exactly when, in addition, both its home and its
   workplace stand.
   */
  lemma DepartWork(a: Agent, time: real, distance: real, live: set<BuildingId>)
    requires Exclusive(a) && !a.moving && !a.working
    ensures var (r, n) := Step(a, time, distance, live);
      && (a.chilling && !r.chilling <==> a.chilling && a.startTime <= time <= a.endTime)
      && (r.moving <==> a.chilling && a.startTime <= time <= a.endTime
                        && Live(a.home, live) && Live(a.workplace, live))
      && (r.moving ==> r.destination == a.workplace && n == Left(a.home.value))
  {
  }

  /** Neither moving nor at an activity. */
  predicate Idle(a: Agent) {
    !a.moving && !a.working && !a.chilling
  }

  /**
   A departure toward a dead building leaves the agent idle, and an idle
   agent stays exactly as it is at every later frame: the exception of that
   one frame strands it for good.
   */
  lemma DeadDepartureStrands(a: Agent, time: real, distance: real, live: set<BuildingId>, t: real, d: real)
    requires Exclusive(a) && !a.moving
    requires HomeDue(a, time) || WorkDue(a, time)
    requires !Live(a.home, live) || !Live(a.workplace, live)
    ensures Idle(Step(a, time, distance, live).0)
    ensures Step(Step(a, time, distance, live).0, t, d, live) == (Step(a, time, distance, live).0, Quiet)
  {
  }

  /** An idle agent never changes and never touches a building, whatever the time, distance or city. */
  lemma IdleStays(a: Agent, time: real, distance: real, live: set<BuildingId>)
    requires Idle(a)
    ensures Step(a, time, distance, live) == (a, Quiet)
  {
  }

  /**
   No activity is taken up except on arrival: an agent that starts working or
   chilling in a step was moving before it. Hence an agent cannot go from
   working to chilling, or back, without a moving step in between.
   */
  lemma ActivityOnlyOnArrival(a: Agent, time: real, distance: real, live: set<BuildingId>)
    requires Exclusive(a)
    ensures var r := Step(a, time, distance, live).0;
      (r.working && !a.working ==> a.moving) && (r.chilling && !a.chilling ==> a.moving)
    ensures var r := Step(a, time, distance, live).0;
      (a.working && !a.moving ==> !r.chilling) && (a.chilling && !a.moving ==> !r.working)
  {
  }

  /** A step never changes the agent's home, workplace or working hours. */
  lemma StepKeepsReferences(a: Agent, time: real, distance: real, live: set<BuildingId>)
    ensures var r := Step(a, time, distance, live).0;
      r.home == a.home && r.workplace == a.workplace && r.startTime == a.startTime && r.endTime == a.endTime
  {
  }

  /**
   A day with working hours 0.2 to 0.7: chilling at 0.1; leaving at 0.2;
   working on arrival; still working at 0.5; leaving at 0.7; chilling on arrival.
   */
  lemma DayScenario(home: BuildingId, work: BuildingId)
    requires home != work
    ensures
      var live := {home, work};
      var a0 := SetWorkPlace(Init(NewAgent(), home, 0.2, 0.7), work);
      var a1 := Step(a0, 0.1, 5.0, live).0;
      var a2 := Step(a1, 0.2, 5.0, live).0;
      var a3 := Step(a2, 0.25, 0.1, live).0;
      var a4 := Step(a3, 0.5, 0.1, live).0;
      var a5 := Step(a4, 0.7, 0.1, live).0;
      var a6 := Step(a5, 0.75, 0.0, live).0;
      && a1 == a0 && a0.chilling
      && a2.moving && a2.destination == Some(work)
      && a3.working && !a3.moving
      && a4 == a3
      && a5.moving && a5.destination == Some(home) && !a5.working
      && a6.chilling && !a6.moving && !a6.working
  {
  }

  /**
   The same day with the workplace destroyed: at 0.2 the agent leaves home,
   switching a light off there, but never sets off, and it stays idle.
   */
  lemma DestroyedWorkplaceScenario(home: BuildingId, work: BuildingId)
    requires home != work
    ensures
      var live := {home};
      var a0 := SetWorkPlace(Init(NewAgent(), home, 0.2, 0.7), work);
      var (a1, n1) := Step(a0, 0.2, 5.0, live);
      var a2 := Step(a1, 0.75, 0.0, live).0;
      && n1 == Left(home) && Idle(a1) && a2 == a1
  {
  }
}
