# City occupancy model

This is a Dafny model of the occupancy layer of a procedural city generator written in C# for Unity.

The city places buildings on a density map. Each building has a capacity and a role: habitation or workplace. The city creates a population of agents, gives every agent a home and a workplace, and repairs those assignments when a collision destroys a building. Each agent follows a daily schedule between its home and its workplace, and the agents light a building's windows while they are inside it.

The model works on an arena:
- buildings and agents are kept in maps keyed by integer identifiers;
- every list of the source (categories, roles, population, homeless and workless queues) is a `seq` of identifiers;
- every operation is a pure function, or a method over immutable values.

The modules follow the source files:

| module | file | content |
|---|---|---|
| `Basics` | `basics.dfy` | identifiers, `Option`/`Result`, truncation toward zero, `List.IndexOf`/`List.Remove` |
| `Windows` | `windows.dfy` | the window row as `seq<bool>`: `OnAgentEnter`, `OnAgentLeave`, the lit-prefix invariant |
| `Buildings` | `building.dfy` | the building record: `Init`, guarded appends, `IsFull`, `IsEmpty`, the role switches |
| `Inhabitants` | `inhabitant.dfy` | the agent record and its schedule state machine, one frame of `Update` as `Step` |
| `Density` | `density.dfy` | `weightenMap` over a given density grid |
| `Cities` | `city.dfy` | the city record and invariant, `createBuildings`, `removeBuildingFromList`, `splitHabitationWorkplace`, `AddHomeless`/`AddWorkless` |
| `Lights` | `lights.dfy` | the window lights an agent's step switches: its notice applied to the city, one frame of an agent in the city |
| `Assignment` | `assignment.dfy` | the draw-and-fill scheme shared by the two start-up assignments |
| `Occupants` | `occupants.dfy` | settling and employing one agent: its reference and the building's list change together |
| `Population` | `population.dfy` | `createPopulation` |
| `Workplaces` | `workplaces.dfy` | `affectWorkplaces` |
| `Repair` | `repair.dfy` | `RelocateHomeless`, `RelocateWorkless` and `Update` of the city |
| `Sensor` | `sensor.dfy` | the collision sensor's `OnTriggerEnter`, as `DestroyBuilding` |
| `Startup` | `startup.dfy` | the start-up order of `Start`: the buildings placed leave the candidates each assignment requires |

**Random draws.**
- A random index into the list of unused candidates is a nondeterministic choice (`:|`) over the set of indices still available. Any index such a draw can return is allowed.
- Random reals are inputs: the building heights and the agents' working hours.
- A draw from an empty list throws in the source. It is modelled as a `Failure` result.

**Engine inputs.** The time of day and the distance to the navigation target are inputs of an agent's step.

**Two readings of the code:**
- `done` is only ever set to true (`buildCity.cs:76, 513`), so `Repair.Update` states a latch: once set it stays set.
- In `createPopulation` the index draw at `buildCity.cs:276` throws on an empty list before the emptiness test at `:279`. Running out of houses is therefore a `Failure`. It happens exactly when the houses' total capacity is below the population size.

**Building sizes.** `createBuildings` sets a building's scale, then parents it to the plane, then calls `Init`. The plane is scaled by `PLANE_SIZE/10 = 2` across (`buildCity.cs:446`). Parenting keeps the world size, so `Init` reads a local width of `BUILDING_SIZE / 2 = 0.1`, while the height keeps its world value. A house (height `BUILDING_SIZE = 0.2`) therefore holds two occupants, an office building 9 to 13, and a skyscraper at least 15.

**Destroyed buildings.** A destroyed building stays referenced by the agents that lived or worked in it until a relocation replaces the reference. Dereferencing it throws. An agent's step takes the set of buildings still standing as an input, and a step that touches a dead building stops where the source's exception stops it.

## Model

| member | source | states |
|---|---|---|
| Basics.Trunc | Assets/Scripts/Building.cs:35 | the `(int)` cast of a real truncates toward zero, for negative values too |
| Basics.IndexOf | Assets/Scripts/buildCity.cs:186 | the search inside `List.Remove`: the first position holding the element, every earlier position holding another; the model uses the length for an absent element |
| Basics.RemoveFirst | Assets/Scripts/buildCity.cs:345 | `List.Remove`: an absent element leaves the list as it is; a present one shortens it by exactly one |
| Basics.RemoveFirstMultiset | Assets/Scripts/buildCity.cs:186 | `List.Remove` takes exactly one copy of the element out of the list, and nothing else; it does nothing when the element is absent |
| Basics.RemoveFirstMembers | Assets/Scripts/buildCity.cs:345 | removing one agent from a queue leaves every other agent's membership as it was |
| Basics.RemoveFirstDistinct | Assets/Scripts/buildCity.cs:205-206 | in a list without repetitions the removed element leaves no copy behind and no repetition appears |
| Windows.FirstUnlit | Assets/Scripts/Building.cs:66-73 | the upward scan stops at the first dark window, with every window it passed lit |
| Windows.LastLit | Assets/Scripts/Building.cs:79-86 | the downward scan stops at the first lit window, with every window it passed dark |
| Windows.OnAgentEnter | Assets/Scripts/Building.cs:64-75 | the lowest dark window, and only it, is lit; a fully lit row is unchanged |
| Windows.OnAgentLeave | Assets/Scripts/Building.cs:77-88 | the highest lit window, and only it, is switched off; a dark row is unchanged |
| Windows.PrefixIsLights | Assets/Scripts/Building.cs:64-88 | a row whose lit windows form a prefix is determined by how many are lit |
| Windows.LitCountLights | Assets/Scripts/Building.cs:64-88 | a row with its lowest `k` windows lit counts `k` lit windows |
| Windows.EnterLights | Assets/Scripts/Building.cs:64-75 | on a prefix row, entering lights one more window, saturating at the row length |
| Windows.LeaveLights | Assets/Scripts/Building.cs:77-88 | on a prefix row, leaving switches off one window, saturating at zero |
| Windows.EnterKeepsPrefix | Assets/Scripts/Building.cs:64-75 | entering keeps the lit windows a prefix and lights exactly one more when one was dark |
| Windows.LeaveKeepsPrefix | Assets/Scripts/Building.cs:77-88 | leaving keeps the lit windows a prefix and switches off exactly one when one was lit |
| Windows.LeaveUndoesEnter | Assets/Scripts/Building.cs:64-88 | on a prefix row with a dark window, a leave undoes an enter |
| Windows.EnterUndoesLeave | Assets/Scripts/Building.cs:64-88 | on a prefix row with a lit window, an enter undoes a leave |
| Buildings.Init | Assets/Scripts/Building.cs:22-62 | the capacity is the truncated height/width ratio (bracketed between multiples of the width); there is one dark window per unit of capacity; the road direction is stored; the building starts empty and as a workplace |
| Buildings.TruncRatio | Assets/Scripts/Building.cs:35 | the truncated ratio of a non-negative height by a positive width is non-negative and brackets the height between multiples of the width |
| Buildings.InitValid | Assets/Scripts/Building.cs:27-62 | a new building is within its capacity and its lit windows form a prefix |
| Buildings.TwiceAsTallHoldsTwo | Assets/Scripts/buildCity.cs:137-141 | a building twice as tall as its width (a house, as `Init` reads it) holds exactly two occupants |
| Buildings.AddInhabitant | Assets/Scripts/Building.cs:91-98 | with room for one more (the assertion), the agent is appended to the inhabitants, one window is lit by `OnAgentEnter`, and workers, capacity, role and road direction are unchanged |
| Buildings.AddWorker | Assets/Scripts/Building.cs:101-106 | with room for one more (the assertion), the agent is appended to the workers; unlike `AddInhabitant`, no window changes, and nothing else does either |
| Buildings.SwitchToHabitation | Assets/Scripts/Building.cs:110 | sets the role to habitation and changes nothing else |
| Buildings.SwitchToWorkplace | Assets/Scripts/Building.cs:109 | sets the role to workplace and changes nothing else |
| Buildings.AddInhabitantValid | Assets/Scripts/Building.cs:91-98 | adding an inhabitant keeps the building within capacity and the windows a prefix, with one more lit unless all were lit |
| Buildings.AddWorkerValid | Assets/Scripts/Building.cs:101-106 | adding a worker keeps the building within capacity and the windows as they were |
| Buildings.NotFullHasRoom | Assets/Scripts/Building.cs:120 | within capacity, a building is not full exactly when both lists have room |
| Buildings.FullIgnoresRole | Assets/Scripts/Building.cs:120 | fullness does not depend on the role, and a building of capacity zero is always full |
| Buildings.EmptyFull | Assets/Scripts/Building.cs:120-123 | an empty building is full exactly when its capacity is zero |
| Buildings.IsFull | Assets/Scripts/Building.cs:120 | full when either the inhabitants or the workers have reached the capacity, whatever the role |
| Buildings.IsEmpty | Assets/Scripts/Building.cs:123 | empty when neither list holds anyone |
| Buildings.IsHabitable | Assets/Scripts/Building.cs:111 | the role last set by a switch |
| Buildings.SwitchLaws | Assets/Scripts/Building.cs:109-111 | the switches are idempotent, `IsHabitable` returns the last role set, and a new building is a workplace |
| Buildings.SwitchKeepsOccupants | Assets/Scripts/Building.cs:109-123 | switching the role changes neither fullness nor emptiness |
| Inhabitants.NewAgent | Assets/Scripts/Inhabitant.cs:9-31 | a new agent is chilling, neither working nor moving, with no home, workplace or destination |
| Inhabitants.Init | Assets/Scripts/Inhabitant.cs:33-38 | sets the home and the working hours and nothing else |
| Inhabitants.SetHome | Assets/Scripts/Inhabitant.cs:44-46 | overwrites the home and nothing else |
| Inhabitants.SetWorkPlace | Assets/Scripts/Inhabitant.cs:78-80 | overwrites the workplace and nothing else |
| Inhabitants.Live | Assets/Scripts/Inhabitant.cs:54 | a reference is live when it is set and names a building still standing; any other dereference throws |
| Inhabitants.GoToWork | Assets/Scripts/Inhabitant.cs:82-96 | stops chilling. A dead home throws before its light is touched; a dead workplace throws after the light at home is off; only with both standing does the agent move toward the workplace. The agent moves exactly when it was moving or both stand. The light is switched by the returned notice, which `Lights.ApplyNotice` applies to the building |
| Inhabitants.GoHome | Assets/Scripts/Inhabitant.cs:98-111 | stops working. A dead workplace throws before its light is touched; a dead home throws after the light at work is off; only with both standing does the agent move toward home. The light is switched by the returned notice, which `Lights.ApplyNotice` applies to the building |
| Inhabitants.GetIn | Assets/Scripts/Inhabitant.cs:63-76 | stops moving. A dead destination throws before its light, with no activity taken up. Otherwise a window of it is lit; entering the workplace sets working, otherwise entering the home sets chilling, any other building sets neither. The light is switched by the returned notice, which `Lights.ApplyNotice` applies to the building |
| Inhabitants.HomeDue | Assets/Scripts/Inhabitant.cs:133 | going home is due when working and the time has reached the end of the hours |
| Inhabitants.WorkDue | Assets/Scripts/Inhabitant.cs:137 | going to work is due when chilling and the time lies within the hours, both ends included |
| Inhabitants.Step | Assets/Scripts/Inhabitant.cs:113-143 | one frame, for any set of standing buildings: a moving agent enters its destination when the distance is below 0.3, else nothing happens; a stationary agent goes home if that is due, otherwise goes to work if that is due, otherwise nothing happens |
| Inhabitants.InitialState | Assets/Scripts/Inhabitant.cs:19-38 | a new agent after `Init` is chilling, not working, not moving, with no workplace and no destination |
| Inhabitants.StepKeepsExclusive | Assets/Scripts/Inhabitant.cs:74-101 | working and chilling are never both set, and neither is set while moving |
| Inhabitants.MovingIgnoresTime | Assets/Scripts/Inhabitant.cs:124-128 | while moving, the time of day plays no part |
| Inhabitants.Arrival | Assets/Scripts/Inhabitant.cs:63-76 | on arrival the agent stops, and enters exactly when the destination stands. It works exactly if the destination stands and is the workplace, and chills exactly if it stands and is the home and not the workplace |
| Inhabitants.DepartHome | Assets/Scripts/Inhabitant.cs:98-134 | a stationary working agent stops working exactly when the time has reached the end of its hours, and sets off toward home, leaving the workplace, exactly when in addition both buildings stand |
| Inhabitants.DepartWork | Assets/Scripts/Inhabitant.cs:82-138 | a stationary agent not working stops chilling exactly when it is chilling and start <= time <= end, and sets off toward the workplace, leaving home, exactly when in addition both buildings stand |
| Inhabitants.DeadDepartureStrands | Assets/Scripts/Inhabitant.cs:82-138 | a due departure with a dead home or workplace leaves the agent neither moving nor at an activity, and the next step changes nothing |
| Inhabitants.IdleStays | Assets/Scripts/Inhabitant.cs:121-143 | an agent neither moving nor at an activity never changes and never touches a building again |
| Inhabitants.ActivityOnlyOnArrival | Assets/Scripts/Inhabitant.cs:74-143 | an activity is only taken up by an agent that was moving, so working and chilling never follow each other directly |
| Inhabitants.StepKeepsReferences | Assets/Scripts/Inhabitant.cs:121-143 | a step never changes the home, the workplace or the working hours |
| Inhabitants.DayScenario | Assets/Scripts/Inhabitant.cs:82-143 | a day with hours 0.2 to 0.7 runs: chilling, leaving at 0.2, working on arrival, leaving at 0.7, chilling on arrival |
| Inhabitants.DestroyedWorkplaceScenario | Assets/Scripts/Inhabitant.cs:82-96 | with the workplace destroyed, the agent switches a light off at home at 0.2 but never sets off, and stays so |
| Density.Copies | Assets/Scripts/buildCity.cs:117-119 | the inner loop adds exactly `n` copies of the cell |
| Density.CopiesCount | Assets/Scripts/buildCity.cs:117-119 | the copies of one cell hold that cell `n` times and nothing else |
| Density.WeightenFromCount | Assets/Scripts/buildCity.cs:108-123 | from any cell onward, each later cell occurs exactly its weight times and nothing else occurs |
| Density.WeightenFromOrdered | Assets/Scripts/buildCity.cs:108-123 | from any cell onward, the emitted cells lie in the grid at or after it, in row-major order |
| Density.Weight | Assets/Scripts/buildCity.cs:111-117 | a cell inside the central disk gets no copies; any other gets `(int)(100 * density)`, none when that is not positive |
| Density.WeightenMap | Assets/Scripts/buildCity.cs:104-126 | the expansion of the whole grid in row-major order, each cell repeated by its weight |
| Density.WeightenMapSpec | Assets/Scripts/buildCity.cs:104-126 | no cell inside the central disk occurs; every other cell occurs exactly `(int)(100 * density)` times (none when that is not positive); only grid cells occur; row-major order |
| Cities.EmptyCity | Assets/Scripts/buildCity.cs:48-76 | at start every list is empty and the build is not done |
| Cities.EmptyCityValid | Assets/Scripts/buildCity.cs:48-58 | the empty city satisfies the invariant, and vacuously everyone is housed and employed |
| Cities.Classify | Assets/Scripts/buildCity.cs:136-153 | density below 0.90 calls for a house, below 0.95 for an office building, anything higher for a skyscraper |
| Cities.NewBuilding | Assets/Scripts/buildCity.cs:136-160 | read at the local width 0.1, a house has capacity 2 and is a habitation; an office building is a workplace of capacity 9 to 13, a skyscraper one of capacity at least 15; every new building is empty and satisfies the building invariants |
| Cities.LocalCapacity | Assets/Scripts/Building.cs:35 | a building at least `n` local widths tall holds at least `n`, and its capacity in widths never exceeds its height |
| Cities.Register | Assets/Scripts/buildCity.cs:143-159 | the new building gets a fresh identifier and is appended to its category list only |
| Cities.CreateBuildings | Assets/Scripts/buildCity.cs:129-161 | a site off the map changes nothing. Otherwise density < 0.90 gives a house of capacity 2, density < 0.95 an office building of capacity 9 to 13, and anything higher a skyscraper of capacity at least 15. Exactly one empty building is added, to exactly one category list, and nothing else changes |
| Cities.CreateBuildingsValid | Assets/Scripts/buildCity.cs:129-161 | placing a building keeps the city invariant |
| Cities.KindNamed | Assets/Scripts/buildCity.cs:183-203 | the names House, Building and Skyscraper stand for the three kinds; any other name for none |
| Cities.RemoveFromCategory | Assets/Scripts/buildCity.cs:183-203 | one copy of the building leaves the category list of that kind; the other category lists are unchanged |
| Cities.RemoveFromRole | Assets/Scripts/buildCity.cs:205-206 | one copy of the building leaves the habitations if it is habitable, else the workplaces; the other role list is unchanged |
| Cities.RemoveBuildingFromList | Assets/Scripts/buildCity.cs:181-207 | one copy leaves the category list the name stands for (none when the name is unknown), and one copy leaves the role list its role selects; every other list is unchanged |
| Cities.RemovedFromDistinct | Assets/Scripts/buildCity.cs:205-206 | after removal from a list without repetitions, no copy of the building remains, no repetition appears, and nothing new appears |
| Cities.RoleListsAfterRemoval | Assets/Scripts/buildCity.cs:205-206 | after the removal the role lists stay consistent and hold neither copy of the building |
| Cities.RemoveBuildingValid | Assets/Scripts/buildCity.cs:181-207 | removal keeps the city invariant and takes the building out of both role lists |
| Cities.Partition | Assets/Scripts/buildCity.cs:387-401 | one pass over a category splits it into habitable and non-habitable buildings, losing and adding none |
| Cities.PartitionOne | Assets/Scripts/buildCity.cs:387-401 | a single building goes to the part its role selects |
| Cities.PartitionSnoc | Assets/Scripts/buildCity.cs:387-401 | one more building at the end of the pass is appended to the part its role selects |
| Cities.PartitionAppend | Assets/Scripts/buildCity.cs:387-401 | the pass keeps list order: the parts of a concatenation are the concatenations of the parts, so each part is the category filtered by role |
| Cities.SplitHabitationWorkplace | Assets/Scripts/buildCity.cs:381-402 | the habitations become the old habitations, then the houses, then the habitable office buildings, then the habitable skyscrapers, each in list order; the workplaces become the old workplaces, then the other office buildings, then the other skyscrapers. The lists grow by exactly the three categories, as multisets and in total length |
| Cities.AddHomeless | Assets/Scripts/buildCity.cs:320 | appends the agent to the homeless queue and changes nothing else |
| Cities.AddWorkless | Assets/Scripts/buildCity.cs:323 | appends the agent to the workless queue and changes nothing else |
| Cities.AddHomelessValid | Assets/Scripts/buildCity.cs:320 | queueing an existing agent as homeless keeps the city invariant; whoever was housed still is, and employment is unaffected |
| Cities.AddWorklessValid | Assets/Scripts/buildCity.cs:323 | queueing an existing agent as workless keeps the city invariant; whoever was employed still is, and housing is unaffected |
| Lights.ApplyNotice | Assets/Scripts/Building.cs:64-88 | an enter notice for a standing building runs `OnAgentEnter` on its windows, a leave notice `OnAgentLeave`; nothing else of that building or of the city changes, and a quiet step or a destroyed building changes nothing |
| Lights.ApplyNoticeValid | Assets/Scripts/Building.cs:64-88 | applying a notice keeps the city invariant; the building gains one lit window on an enter unless all were lit, and loses one on a leave unless none was |
| Lights.NewWindowsValid | Assets/Scripts/Building.cs:64-88 | replacing one building's windows by a lit prefix of the same length keeps the city invariant |
| Lights.LeaveUndoesEnterNotice | Assets/Scripts/Building.cs:64-88 | an agent entering a building with a dark window and then leaving it leaves the city as it was |
| Lights.AgentFrame | Assets/Scripts/Inhabitant.cs:121-143 | one frame of an agent in the city: the agent steps with the city's buildings as the standing ones, the city stores the new agent and switches the light its notice names, nothing else changes, and the invariant is kept |
| Assignment.Indices | Assets/Scripts/buildCity.cs:259 | `Enumerable.Range(0, n)` holds exactly the indices below `n` |
| Assignment.Capacities | Assets/Scripts/buildCity.cs:272 | the capacities of the candidates, in list order |
| Assignment.UsedSumTake | Assets/Scripts/buildCity.cs:275 | removing a drawn index from the available ones adds its capacity to the capacity used |
| Assignment.UsedSumBound | Assets/Scripts/buildCity.cs:255-317 | the capacity used never exceeds the total |
| Assignment.FillingStart | Assets/Scripts/buildCity.cs:259-267 | before the first agent, every index is available, the drawn building is empty and nothing is used |
| Assignment.FillingCurrent | Assets/Scripts/buildCity.cs:272-274 | the drawn building has room for at least one. Under the invariant, its count reaching the capacity is exactly `IsFull`, so the two tests of the source agree |
| Assignment.FillingStep | Assets/Scripts/buildCity.cs:310-311 | one more member in the drawn building counts one more and touches no other candidate |
| Assignment.FillingNext | Assets/Scripts/buildCity.cs:274-291 | once the drawn building is full, its index leaves the pool and the next one drawn is untouched and empty |
| Assignment.FillingExhausted | Assets/Scripts/buildCity.cs:276 | a full drawn building with no index left means exactly the total capacity was assigned, and the next draw throws |
| Assignment.FillingBound | Assets/Scripts/buildCity.cs:255-317 | at every point no more than the total capacity has been assigned |
| Occupants.Settle | Assets/Scripts/buildCity.cs:339-340 | `SetHome` plus `AddInhabitant`: the agent's home is the building, which lists it last; nothing else about other agents or buildings changes |
| Occupants.Employ | Assets/Scripts/buildCity.cs:426-427 | `SetWorkPlace` plus `AddWorker`: the agent's workplace is the building, which lists it last; nothing else about other agents or buildings changes |
| Occupants.SettleValid | Assets/Scripts/buildCity.cs:339-340 | settling an agent in a building with room keeps the city invariant |
| Occupants.EmployValid | Assets/Scripts/buildCity.cs:426-427 | employing an agent in a building with room keeps the city invariant |
| Occupants.SettleKeeps | Assets/Scripts/buildCity.cs:339-340 | settling keeps every housed agent housed and every employed agent employed |
| Occupants.EmployKeeps | Assets/Scripts/buildCity.cs:426-427 | employing keeps every housed agent housed and every employed agent employed |
| Population.AddResident | Assets/Scripts/buildCity.cs:294-314 | one iteration: a new agent is `Init`ed with its home and hours and appended to the population; the home is switched to habitation if it was not one and lists the agent last; no other building changes |
| Population.DueForWork | Assets/Scripts/buildCity.cs:302-303 | a new agent with hours in the drawn ranges is due to leave for work, and not due home, at any time from 0.30 to 0.70 |
| Population.AddResidentValid | Assets/Scripts/buildCity.cs:306-314 | adding a resident to a house with room keeps the city invariant |
| Population.AddResidentHoused | Assets/Scripts/buildCity.cs:306-314 | adding a resident keeps every housed agent housed |
| Population.SettledStep | Assets/Scripts/buildCity.cs:269-315 | each iteration extends the settled population by exactly one agent |
| Population.ReplaySettled | Assets/Scripts/buildCity.cs:269-315 | any sequence of houses the loop can pick yields a city where the new agents are numbered consecutively, carry the drawn hours in order, and live in a house that lists them; no existing agent or non-house building changed |
| Population.CreatePopulation | Assets/Scripts/buildCity.cs:255-317 | succeeds exactly when the houses' total capacity reaches 100; otherwise a draw throws. On success exactly 100 new agents are appended to the population, numbered consecutively and carrying the drawn hours in order, each in a house that lists it. The invariant holds, and nothing that existed changed except the houses' inhabitants, windows and roles |
| Population.PlaceResident | Assets/Scripts/buildCity.cs:294-314 | placing the current agent in the drawn house, which has room, advances the loop state by one agent and one member |
| Population.NextHouse | Assets/Scripts/buildCity.cs:272-292 | once the drawn house is full, another available one is drawn; the draw fails exactly when the whole capacity is used |
| Population.FillHouses | Assets/Scripts/buildCity.cs:269-315 | from any reachable loop state, the loop succeeds exactly when the total capacity covers the population, and its result is the replay of the houses picked |
| Workplaces.OnlyWorkplacesStep | Assets/Scripts/buildCity.cs:426-427 | employing one more agent changes only workplaces and worker lists |
| Workplaces.EmployedPrefixStep | Assets/Scripts/buildCity.cs:414-430 | employing agent `n` keeps the first `n` agents employed and adds agent `n` |
| Workplaces.AssignedStep | Assets/Scripts/buildCity.cs:414-430 | each iteration keeps the invariant and the homes, and employs one more agent |
| Workplaces.ReplayAssigned | Assets/Scripts/buildCity.cs:414-430 | any sequence of workplaces the loop can pick employs the agents of the population in order and changes nothing but workplaces and worker lists |
| Workplaces.AssignedEmployed | Assets/Scripts/buildCity.cs:414-430 | once the whole population is assigned, every agent works at a workplace that lists it |
| Workplaces.AffectWorkplaces | Assets/Scripts/buildCity.cs:406-432 | succeeds exactly when there is a workplace and their total capacity covers the population. On success every agent works at a workplace that lists it, homes are kept, and only workplaces and worker lists changed |
| Workplaces.PlaceWorker | Assets/Scripts/buildCity.cs:423-428 | employing the current agent at the drawn workplace, which has room, advances the loop state by one agent and one member |
| Workplaces.NextWorkplace | Assets/Scripts/buildCity.cs:417-422 | only when the drawn workplace `IsFull` is another drawn, at most once per agent; the draw fails exactly when the whole capacity is used |
| Workplaces.FillWorkplaces | Assets/Scripts/buildCity.cs:414-430 | from any reachable loop state, the loop succeeds exactly when the total capacity covers the population, and its result is the replay of the workplaces picked |
| Repair.Place | Assets/Scripts/buildCity.cs:339-340 | the relocation step of either side: the agent's reference is set to the building, which lists it last; nothing else about other agents or buildings changes |
| Repair.RoomIfNotFull | Assets/Scripts/buildCity.cs:335 | a building within capacity that is not full has room on either side, so the assertion of the append holds |
| Repair.HighestRoom | Assets/Scripts/buildCity.cs:330-335 | the candidate a visit picks: an index whose building has room, none above it having room, or -1 when none has |
| Repair.LastNotFull | Assets/Scripts/buildCity.cs:330-335 | the inner scan, from the last candidate down, stops at the highest-index candidate that is not full, or at -1 when every candidate is full: the index `HighestRoom` picks |
| Repair.Move | Assets/Scripts/buildCity.cs:338-345 | a successful visit: the agent is placed in the building and one copy of it leaves the queue |
| Repair.MoveEffect | Assets/Scripts/buildCity.cs:338-345 | after a move the agent refers to the building, which lists it last; the queue lost one copy of the agent; no other agent or building changed |
| Repair.MoveValid | Assets/Scripts/buildCity.cs:338-345 | placing a queued agent and dequeuing it keeps the city invariant |
| Repair.MoveDequeued | Assets/Scripts/buildCity.cs:338-345 | the agent leaving the queue is placed in a candidate that lists it, and every agent placed earlier stays placed |
| Repair.MoveKeeps | Assets/Scripts/buildCity.cs:338-345 | relocating keeps housed agents housed and employed agents employed |
| Repair.RelocatingMove | Assets/Scripts/buildCity.cs:335-346 | a visit that finds room places the agent and keeps the loop invariant |
| Repair.RelocatingStay | Assets/Scripts/buildCity.cs:326-378 | a visit that finds every candidate full leaves the agent queued, and records that all candidates are full |
| Repair.VisitRoom | Assets/Scripts/buildCity.cs:335-340 | in a valid city the queued agent exists, and a candidate that is not full has room for one more on the side filled |
| Repair.VisitedChoice | Assets/Scripts/buildCity.cs:328-347 | a visit of a queue position changes nothing when every candidate is full; otherwise it moves the agent at that position into the highest-index candidate that is not full |
| Repair.VisitedRelocating | Assets/Scripts/buildCity.cs:328-347 | a visit keeps the loop invariant with one position fewer left |
| Repair.Visit | Assets/Scripts/buildCity.cs:326-378 | one visit of a queue position keeps the loop invariant, and its result is the visit `VisitedChoice` describes |
| Repair.Relocate | Assets/Scripts/buildCity.cs:326-378 | the result is the visits of the queue positions from the last down to the first, in that order. The invariant is kept and only that side changes. No agent leaves the queue without being placed in a candidate that lists it, and an agent still queued means every candidate is full. Housed and employed agents stay so |
| Repair.DequeuedAcross | Assets/Scripts/buildCity.cs:507-510 | relocating the workless leaves the homeless placements and queue as they were |
| Repair.RelocateIfQueued | Assets/Scripts/buildCity.cs:507-510 | the result is `Relocated` over the whole queue of that side (an empty queue leaves the city unchanged); an agent still queued afterward means every candidate is full |
| Repair.RelocateBoth | Assets/Scripts/buildCity.cs:507-510 | the result is `Relocated` over the homeless queue, then `Relocated` over the workless queue of that city; `done` is untouched, and with both queues empty nothing changes |
| Repair.LatchKeeps | Assets/Scripts/buildCity.cs:513 | setting the latch changes nothing else the repair promises |
| Repair.Update | Assets/Scripts/buildCity.cs:504-515 | the result is the homeless relocated, then the workless, with `done` set when both queues end up empty. `done` afterward holds exactly when it held before or both queues are now empty, so once set it stays set. The invariant is kept, no agent is dropped from either queue without being placed, and housed and employed agents stay so |
| Sensor.QueueHomeless | Assets/Scripts/sensor.cs:21-26 | the inhabitants are appended to the homeless queue in list order, and nothing else changes |
| Sensor.QueueWorkless | Assets/Scripts/sensor.cs:29-34 | the workers are appended to the workless queue in list order, and nothing else changes |
| Sensor.DestroyBuilding | Assets/Scripts/sensor.cs:8-37 | a collision with anything but House, Building, Skyscraper or Road changes nothing. Otherwise the building leaves the lists (by the sensor's own name), its inhabitants join the homeless queue and its workers the workless queue, each queue growing by exactly that list, and the building is removed |
| Sensor.DestroyValid | Assets/Scripts/sensor.cs:8-37 | destruction keeps the city invariant and leaves the building in neither role list |
| Sensor.DestroyKeeps | Assets/Scripts/sensor.cs:18-36 | no agent is lost: whoever lived or worked in the destroyed building is queued, and whoever was housed or employed elsewhere still is |
| Basics.DistinctSnoc | Assets/Scripts/buildCity.cs:143-159 | appending a building not yet listed keeps a list without repetitions |
| Basics.DistinctAppend | Assets/Scripts/buildCity.cs:387-401 | two lists without repetitions and without a common element concatenate to one |
| Startup.EmptyBuilt | Assets/Scripts/buildCity.cs:48-58 | the empty city is built and valid |
| Startup.BuiltGrow | Assets/Scripts/buildCity.cs:129-161 | a new unused building appended to one category list, a workplace unless it is a house, keeps the city built |
| Startup.CreateBuildingsBuilt | Assets/Scripts/buildCity.cs:129-161 | placing a building at any site keeps the city built: empty role lists, category lists without repetitions or overlap, every listed building empty with room for one |
| Startup.BuiltFreshHouses | Assets/Scripts/buildCity.cs:255-267 | a built city meets what `createPopulation` requires of its houses |
| Startup.PartitionDistinct | Assets/Scripts/buildCity.cs:387-401 | the non-habitable part of a list without repetitions has none, and holds only elements of the list |
| Startup.FreshSub | Assets/Scripts/buildCity.cs:406-412 | a list without repetitions drawn from fresh candidates is fresh |
| Startup.FreshAppend | Assets/Scripts/buildCity.cs:387-401 | two fresh lists without a common element concatenate to a fresh list |
| Startup.WorkplacePartsFresh | Assets/Scripts/buildCity.cs:387-401 | the non-habitable office buildings followed by the non-habitable skyscrapers form a fresh list |
| Startup.SettledKeepsBuilt | Assets/Scripts/buildCity.cs:494 | `createPopulation` on a built city leaves the category lists, the empty role lists, and the office buildings and skyscrapers as they were |
| Startup.SplitFreshWorkplaces | Assets/Scripts/buildCity.cs:494-500 | after `createPopulation` on a built city, `splitHabitationWorkplace` lists as workplaces the non-habitable office buildings then skyscrapers, each once and all empty: what `affectWorkplaces` requires |

## Left out

- `createMap` (Perlin noise blended with a float distance to the centre) is not modelled. The density map is a given grid of reals.
- `Start`'s seeding of the circle points, the Voronoi, Delaunay and spanning-tree library, and the geometry of `createStructures` (angles, perpendiculars, the `ResizeToScene`/`ResizeToMap` scaling) are not modelled. Only the classification of a site, `createBuildings`, is modelled; the site coordinates are inputs.
- Engine calls are not modelled: `Instantiate`, transforms, positions, the navigation mesh and agent, renderers, and material emission. Windows are booleans, and relocation does not move the agent's position.
- `Debug.Log` output is left out. The assertions of `AddInhabitant` and `AddWorker` are preconditions, which every caller in the model is proved to meet.
- `Destroy` in the sensor takes effect at the end of the frame; the model removes the building at once. A second forbidden collision of the same building in the same frame, which would queue its occupants twice, is outside the model.
- An exception thrown by a draw from an empty index list leaves the source's state partly updated; the model returns `Failure` without that partial state.
- After `removeBuildingFromList` under an unknown name, the destroyed building stays in its category list; the city invariant therefore does not cover the category lists.
- Population.CreatePopulation: the fallback to the office buildings (`buildCity.cs:278-287`) and the switch to habitation of a building taken from there are not modelled, because the draw at `:276` throws first.
- Buildings.Init: windows start unlit. `Init` only sets the emission colour, and no emission keyword is enabled until an agent enters.
- Random draws are nondeterministic choices, and the drawn reals (heights, working hours) are inputs. The model does not restrict the hours to their ranges except in Population.DueForWork.
- The root `sensor.cs` only destroys its parent object, and `VoronoiDemo.cs` duplicates the map code with no occupancy state; neither is modelled.
- Occupants.SettleKeeps and Occupants.EmployKeeps hold without a proof body; they are stated for use by the relocation and assignment proofs.
- Single-precision floats are computed as exact reals: `100 * density` (`buildCity.cs:115`), the ratio `height / width` in `Init` (`Building.cs:35`), and the comparisons with the 0.90 and 0.95 thresholds. A value that rounding would push across an integer or a threshold may be classified differently by the source.
- Inhabitants.Step: an exception thrown in `GetOut`, `GoToWork`, `GoHome` or `GetIn` (a destroyed home, workplace or destination, `Inhabitant.cs:54, 71, 91, 107`) is modelled as the frame stopping at the throw. What the engine does with the exception, and any log it prints, are not modelled.
- Agents are not told when a building is destroyed; the set of standing buildings is an input of each step, not derived from the sensor's removals.
- Startup.SplitFreshWorkplaces: proves the freshness `affectWorkplaces` requires of its workplaces, not the whole city invariant of the split city; the roles of the houses after `createPopulation` are not tracked that far.
