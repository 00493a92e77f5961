# NPC controller and NPC state

A Dafny model of the autonomous NPC behaviour of the mindcraft agent: the controller that,
whenever the agent is idle, either works towards its goals (by day) or walks home and goes to
bed (by night), and the persisted NPC state record with its sparse serialisation.

- `data.dfy` (module `Data`): the state record `NPCData` (base goals, the ledger `built` of
  placed structures, the home, the previous and current goal), its defaults, the sparse
  `toObject` serialisation and the `fromObject` parser, with the round trip between them.
- `spatial.dfy` (module `Spatial`): structure definitions (a block grid indexed `[y][z][x]`,
  a vertical offset, a home flag), footprints of placed structures with the x/z exchange for odd
  orientations under JavaScript's truncating `%`, the front-to-back door scan with its
  `includes('door')` test, and the box-filling loop of `getBuiltPositions`.
- `cycle.dfy` (module `Cycle`): one scheduling cycle of `executeGoal` as a function `Run` of
  the goal list, the structure definitions, the world's answers and the ledger, returning the
  new ledger, the new home, the next cycle's temporary goals and the calls made on the world,
  with the lemmas that say what a cycle does; and `goalSatisfied`.
- `controller.dfy` (module `Controller`): the class `NPCController` whose fields `data` and
  `temp_goals` its methods update in place; `ExecuteNext`, `ExecuteGoal` (proved equal to
  `Run`), `CurrentBuilding`, `GetBuildingDoor` and `GetBuiltPositions`.

The calls the controller makes on the world (acquire an item, one build step, use a door, go
to bed) are returned as a trace of `Action` values in call order. The world's answers are
parameters: `World.holds` stands for `itemSatisfied`, `World.build` for one
`BuildGoal.executeNext` step, `proposal` for the parsed answer of the goal proposer, `bot` for
the agent's position and `rotate` for `rotateXZ`.

## Model

| member | source | states |
|---|---|---|
| Data.Fresh | src/agent/npc/data.js:2-8 | a new record has no base goals, an empty ledger, and no home, previous or current goal |
| Data.ToObject | src/agent/npc/data.js:10-23 | each key is present exactly when its field is non-empty (base goals, ledger) or truthy (home, goals); the base goals are stored in order as objects with their name and quantity only, and the other present keys carry the field's value |
| Data.FromObject | src/agent/npc/data.js:25-46 | null exactly for a missing object; otherwise the defaults overwritten by the keys present, each stored base goal normalised in order (the loop is proved equal to `Parse`) |
| Data.ParseNormalisesGoals | src/agent/npc/data.js:28-35 | parsing keeps the number and order of the stored base goals; a bare name becomes quantity 1, an object keeps its name and quantity only |
| Data.ParseKeepsDefaults | src/agent/npc/data.js:27-44 | an absent (or falsy) key leaves the corresponding default in place |
| Data.DefaultRoundTrip | src/agent/npc/data.js:2-45 | the default record serialises to the empty object and the empty object parses back to the default record |
| Data.RoundTrip | src/agent/npc/data.js:10-45 | `fromObject(toObject(d))` gives back `d` if and only if the home is null or a non-empty name |
| Spatial.JsRem | src/agent/npc/controller.js:202 | JavaScript's `%` for a positive divisor: the remainder lies strictly between minus and plus the divisor and agrees with Dafny's for a non-negative dividend |
| Spatial.IncludesIffOccurs | src/agent/npc/controller.js:220-221 | the substring test holds exactly when the text occurs at some index of the label |
| Spatial.FindDoor | src/agent/npc/controller.js:217-232 | the scan returns the first cell in y, z, x order whose label contains "door", and none exactly when no cell's label does |
| Spatial.FirstDoorUnique | src/agent/npc/controller.js:217-231 | the first door cell in scan order is unique, so the scan's answer is determined by the grid |
| Spatial.AppendBox | src/agent/npc/controller.js:29-35 | the triple loop keeps the positions already collected as a prefix and appends `Box`: one position per cell, `sy * sz * sx` of them, in y, z, x order (x innermost), each lifted by the offset |
| Spatial.BoxMembers | src/agent/npc/controller.js:29-35 | a position is appended by the triple loop exactly when it lies in the box lifted by the offset |
| Spatial.SwapsExactlyForNonNegativeOdd | src/agent/npc/controller.js:202 | under JavaScript's `%`, the extents are exchanged exactly for a non-negative odd orientation; a negative odd one leaves them as they are |
| Spatial.GridBoxIgnoresOrientation | src/agent/npc/controller.js:21-38 | a two-by-one structure at orientation 1 has a cell in its grid box that lies outside its footprint |
| Spatial.FootprintFaces | src/agent/npc/controller.js:202-205 | the footprint test is half-open on every face: the cells just past each face lie outside |
| Cycle.Candidates | src/agent/npc/controller.js:127-128 | the candidate list is the temporary goals, then the base goals, then the current goal if set |
| Cycle.GoalSatisfied | src/agent/npc/controller.js:185-192 | an empty name is never satisfied; a structure is satisfied exactly when it is in the ledger and finished; an item exactly when the inventory holds it |
| Cycle.Run | src/agent/npc/controller.js:127-179 | the specification of one `executeGoal` cycle over the candidate list; it has no contract of its own, and what it does is stated by the lemmas below and by `ExecuteGoal`, which is proved equal to it |
| Cycle.RunStopsAtFirstAction | src/agent/npc/controller.js:131-179 | the cycle stops at its first acquisition or acting build step: every call before the last is a build step that did not act; acquisitions are only for items not held, build steps only for known structures; at most one call per goal |
| Cycle.RunCallOrder | src/agent/npc/controller.js:131-179 | the calls are made for goals in list order: the k-th call is for a goal at a strictly later index than the call before it, and it is the call that goal asks for (an acquisition of that item or a build step of that structure) |
| Cycle.RunSkipsHeldBeforeLast | src/agent/npc/controller.js:131-141 | a goal passed over before the last call is an item already held |
| Cycle.RunSkipsHeldToEnd | src/agent/npc/controller.js:131-178 | when no call ends the cycle (no call at all, or the last is a build step that did not act), every goal given no call is an item already held |
| Cycle.RunGoesOn | src/agent/npc/controller.js:131-178 | the cycle runs through the whole list unless something stops it: when the last call is not an acquisition or an acting build step, every goal is a held item or got a build step |
| Cycle.AtMostOneAcquisition | src/agent/npc/controller.js:134-140 | an acquisition is always the last call of a cycle |
| Cycle.RunTempIsMissing | src/agent/npc/controller.js:129-166 | the next temporary goals are exactly the missing materials of this cycle's build steps, in call order; nothing carries over |
| Cycle.RunLedgerKeys | src/agent/npc/controller.js:146-160 | the ledger gains an entry exactly for each structure given a build step, and loses none |
| Cycle.RunKeepsEntries | src/agent/npc/controller.js:146-171 | existing ledger entries keep name, position and orientation, and entries no step touched are unchanged |
| Cycle.RunResumesStored | src/agent/npc/controller.js:146-151 | a build step on a structure already in the ledger is given its stored position and orientation |
| Cycle.RunCreatesFromResult | src/agent/npc/controller.js:152-159 | a new ledger entry comes from a first build step with no placement and records the position and orientation that step returned, whether or not it acted |
| Cycle.RunFinished | src/agent/npc/controller.js:167-171 | an entry is finished after the cycle exactly when it was before or the cycle ended with an acting build step of it with nothing missing |
| Cycle.RunHome | src/agent/npc/controller.js:167-170 | the home changes only when the cycle ends by completing a structure flagged as a home, and then becomes that structure |
| Cycle.FirstLackingItemIsAcquired | src/agent/npc/controller.js:131-141 | when the goals before it are held items, the first item not held is acquired and the cycle stops with nothing else changed |
| Cycle.AllHeldIsIdle | src/agent/npc/controller.js:131-141 | when every goal is a held item, the cycle makes no call and changes nothing |
| Cycle.CycleSatisfies | src/agent/npc/controller.js:167-192 | a structure the cycle completes satisfies its goal afterwards, and a satisfied structure goal stays satisfied |
| Controller.NPCController.constructor | src/agent/npc/controller.js:12-19 | a controller over loaded state and definitions starts with no temporary goals |
| Controller.NPCController.ExecuteNext | src/agent/npc/controller.js:66-123 | nothing happens unless idle; by night the current goal is archived and the last call is going to bed; by day the goal is adopted and the state and calls are those of one `Run` cycle, after at most one door exit |
| Controller.NPCController.Daytime | src/agent/npc/controller.js:69-103 | the proposal is adopted only when no goal is set; a door exit happens only when the NPC stands in a built structure with a non-empty name, through that structure's placed door; standing in exactly one built footprint, it exits exactly when that structure has a non-empty name and a door; then exactly one cycle as `Run` states it |
| Controller.NPCController.LeaveBuilding | src/agent/npc/controller.js:89-98 | at most one call, a door use through the placed door of a named structure whose footprint contains the position; none outside every footprint; standing in exactly one footprint, a door is used exactly when that structure has a non-empty name and a door |
| Controller.NPCController.Nighttime | src/agent/npc/controller.js:103-122 | the current goal becomes the previous one and is cleared; a door is used only when a home is set, and it is the home's placed door (null when the home has none); standing in the home alone, the NPC goes straight to bed; the last call is going to bed |
| Controller.NPCController.ExecuteGoal | src/agent/npc/controller.js:125-179 | the ledger, home, temporary goals and calls made are exactly those of `Run` over the candidate list; nothing else in the state changes |
| Controller.NPCController.Attempt | src/agent/npc/controller.js:131-178 | one pass of the goal loop agrees with one step of `Run`: either the cycle stops there, or it continues with `Run` from the next goal |
| Controller.NPCController.BuildStep | src/agent/npc/controller.js:145-166 | a build step resumes at the stored placement, enters a new structure unfinished at the returned placement, and queues its missing materials |
| Controller.NPCController.PushMissing | src/agent/npc/controller.js:161-166 | one temporary goal per entry of the missing report, appended in order |
| Controller.NPCController.CurrentBuilding | src/agent/npc/controller.js:194-210 | a returned name is in the ledger and its footprint contains the position; null only when no footprint does |
| Controller.NPCController.GetBuildingDoor | src/agent/npc/controller.js:212-245 | null for no name, an unknown structure, or a grid with no door; otherwise the first door cell in scan order placed by the rotation, lifted by the layer and offset |
| Controller.NPCController.GetBuiltPositions | src/agent/npc/controller.js:21-38 | as written: exactly the cells of each ledger entry's unrotated grid box, lifted by the offset |
| Controller.NPCController.GetBuiltPositionsOriented | src/agent/npc/controller.js:21-38 | corrected: exactly the cells of each ledger entry's footprint, the same region `currentBuilding` tests |

## Left out

- Loading the structure definitions from JSON files in `init` (file I/O): `constructions` is a constructor argument, and every definition is assumed to have a first layer and a first row (`Spatial.WellFormed`); `init`'s early return for a missing record is left out with it, since the controller is only built over a present record.
- The idle event handler, its two-second wait, `history.save`, the log lines and the history messages: timers, persistence and chat have no bearing on the state modelled.
- The goal proposer (an LLM prompt) and its `JSON.parse`: replaced by the `proposal` parameter, already parsed; a failed parse is `None`.
- `ItemGoal.executeNext`, `BuildGoal.executeNext`, `useDoor`, `goToBed` and `coder.execute`: recorded as `Action` values in the returned trace; their effects on the world are not modelled, and `World.holds` and `World.build` are fixed for the duration of one cycle.
- The re-emitted `idle` event at the end of `executeGoal`.
- `rotateXZ`: a function parameter whose formula is not part of this model.
- Positions are integers; the agent's position in the world is a float in the source.
- The enumeration order of `built` in `currentBuilding` and `getBuiltPositions`: the model picks the keys in an unspecified order, so `CurrentBuilding` returns some structure containing the position, not a particular one when footprints overlap.
- Controller.NPCController.GetBuiltPositions: its contract states which positions are listed, not their order; the order within one structure (y, z, x) is stated by `Spatial.AppendBox`, and the order across structures follows key enumeration, which is not modelled.
- The order of the `missing` entries: kept as a sequence in the builder's order; JavaScript's integer-like key ordering of objects is not modelled.
- Extra keys of ledger entries and goal objects, `null` as a goal name, and goals stored as anything but name and quantity: the model has typed records.
- A ledger entry whose structure definition was not loaded (`init` skips a file it cannot read or parse, lines 45-49): `currentBuilding`, `getBuildingDoor` and `getBuiltPositions` would then throw on the missing definition (lines 198, 217 and 25). The model's `Valid` requires every ledger entry to have a loaded, well-formed definition, so that failure is not modelled.
- A call into `ItemGoal.executeNext` or `BuildGoal.executeNext` that throws (lines 136, 147 and 153): in the source the exception ends the cycle with `temp_goals` already emptied (line 129) and the ledger entries made by earlier steps kept. `World.build` and the acquire step always return, so the model has no such outcome.
- Aliasing: the source shares the `data` object with `ItemGoal`; the model has one owner.
- Controller.NPCController.CurrentBuilding: does not say which structure is returned when footprints overlap, because the source's answer depends on key enumeration order.

## Findings

| source | as written | input that shows it | evidently intended | confidence | as-written member | corrected member |
|---|---|---|---|---|---|---|
| src/agent/npc/controller.js:26-35 | `getBuiltPositions` fills the box of `sizex` by `sizez` without exchanging them for an odd orientation, although `currentBuilding` (line 202) does | a structure one deep and two wide (`blocks = [[[null, null]]]`) at orientation 1: the position x+1 is listed as built, but it lies outside the footprint `currentBuilding` tests, and the cell at z+1 inside that footprint is not listed | the listed positions are the structure's footprint, the same region `currentBuilding` tests | medium; not executed | Controller.NPCController.GetBuiltPositions, Spatial.GridBoxIgnoresOrientation | Controller.NPCController.GetBuiltPositionsOriented |
