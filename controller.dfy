/** The NPC controller (class NPCContoller in src/agent/npc/controller.js): its state, the
    day/night switch, one goal cycle, and the spatial queries over the structures it built. */
module Controller {
  import opened Data
  import opened Spatial
  import opened Cycle

  /** From this time of day on, the NPC stops pursuing goals and goes home to sleep. */
  const NightTime := 13000

  class NPCController {
    /** The persisted state. */
    var data: NPCData
    /** Shortages found by the last cycle's build steps, tried first in the next cycle. */
    var temp_goals: seq<Goal>
    /** The structure definitions, by name; loaded once. */
    const constructions: map<string, Construction>

    /** Every ledger entry has a definition, and every definition has a first layer and a
        first row to take its sizes from. */
    ghost predicate Valid()
      reads this
    {
      && (forall n :: n in data.built ==> n in constructions)
      && (forall n :: n in constructions ==> WellFormed(constructions[n]))
    }

    /** `door` is what `getBuildingDoor` gives for structure `name` over the ledger `built`:
        none for a structure not in the ledger or a grid with no door, otherwise the first door
        cell in scan order placed in the world. */
    ghost predicate IsDoorOf(built: map<string, Instance>, name: string, door: Option<Pos>, rotate: Rotation) {
      if name in built && name in constructions && WellFormed(constructions[name]) then
        && (door.None? <==> NoDoor(constructions[name].blocks))
        && (door.Some? ==> exists cell :: FirstDoorAt(constructions[name].blocks, cell)
                             && DoorPlaced(door.value, built[name], constructions[name], cell, rotate))
      else door.None?
    }

    /** The position lies in the footprint of ledger entry `n` and of no other entry. */
    ghost predicate StandsOnlyIn(built: map<string, Instance>, bot: Pos, n: string) {
      && n in built && n in constructions && WellFormed(constructions[n])
      && InFootprint(bot, built[n], constructions[n])
      && forall m :: (m in built && m in constructions && WellFormed(constructions[m])
                      && InFootprint(bot, built[m], constructions[m])) ==> m == n
    }

    /** A controller over loaded state and loaded definitions, with no temporary goals. */
    constructor (data: NPCData, constructions: map<string, Construction>)
      requires forall n :: n in data.built ==> n in constructions
      requires forall n :: n in constructions ==> WellFormed(constructions[n])
      ensures Valid()
      ensures this.data == data && this.constructions == constructions && temp_goals == []
    {
      this.data := data;
      this.constructions := constructions;
      temp_goals := [];
    }

    /** `executeNext`: nothing unless the agent is idle; by day `Daytime`, by night `Nighttime`.
        `proposal` is what the goal proposer returned, parsed (None when it returned nothing or
        something unparsable). */
    method ExecuteNext(idle: bool, timeOfDay: int, proposal: Option<Goal>, bot: Pos, world: World, rotate: Rotation)
      returns (actions: seq<Action>)
      requires Valid()
      modifies this
      ensures Valid()
      ensures !idle ==> data == old(data) && temp_goals == old(temp_goals) && actions == []
      ensures idle && timeOfDay >= NightTime ==>
        && data == old(data).(prev_goal := old(data).curr_goal, curr_goal := None)
        && temp_goals == old(temp_goals)
        && 1 <= |actions| <= 2 && actions[|actions| - 1] == GoToBed
      ensures idle && timeOfDay < NightTime ==>
        var goal := if old(data).curr_goal.None? then proposal else old(data).curr_goal;
        var out := Run(Candidates(old(temp_goals), old(data).base_goals, goal), 0, constructions, world,
                       old(data).built, old(data).home);
        && data == old(data).(curr_goal := goal, built := out.built, home := out.home)
        && temp_goals == out.temp
        && |out.trace| <= |actions| <= |out.trace| + 1
        && actions[|actions| - |out.trace|..] == out.trace
    {
      actions := [];
      if !idle {
        return;
      }
      if timeOfDay < NightTime {
        actions := Daytime(proposal, bot, world, rotate);
      } else {
        actions := Nighttime(bot, rotate);
      }
    }

    /** The day branch of `executeNext`: adopt the proposed goal if none is set, leave the
        building the NPC stands in through its door if it has one, then run one goal cycle. */
    method Daytime(proposal: Option<Goal>, bot: Pos, world: World, rotate: Rotation)
      returns (actions: seq<Action>)
      requires Valid()
      modifies this
      ensures Valid()
      ensures var goal := if old(data).curr_goal.None? then proposal else old(data).curr_goal;
        var out := Run(Candidates(old(temp_goals), old(data).base_goals, goal), 0, constructions, world,
                       old(data).built, old(data).home);
        && data == old(data).(curr_goal := goal, built := out.built, home := out.home)
        && temp_goals == out.temp
        && |out.trace| <= |actions| <= |out.trace| + 1
        && actions[|actions| - |out.trace|..] == out.trace
        && (|actions| > |out.trace| ==>
              && actions[0].UseDoor? && actions[0].door.Some?
              && exists n :: n in old(data).built && n != "" && InFootprint(bot, old(data).built[n], constructions[n])
                   && IsDoorOf(old(data).built, n, actions[0].door, rotate))
        && ((forall n :: n in old(data).built ==> !InFootprint(bot, old(data).built[n], constructions[n]))
              ==> actions == out.trace)
        && (forall n :: StandsOnlyIn(old(data).built, bot, n) ==>
              (|actions| == |out.trace| + 1 <==> n != "" && !NoDoor(constructions[n].blocks)))
    {
      ghost var goal := if data.curr_goal.None? then proposal else data.curr_goal;
      if data.curr_goal.None? && proposal.Some? {
        data := data.(curr_goal := proposal);
      }
      assert data == old(data).(curr_goal := goal);
      var exit := LeaveBuilding(bot, rotate);
      ghost var out := Run(Candidates(temp_goals, data.base_goals, goal), 0, constructions, world, data.built, data.home);
      var trace := ExecuteGoal(world);
      assert data == old(data).(curr_goal := goal, built := out.built, home := out.home);
      actions := exit + trace;
      assert actions[|exit|..] == trace;
    }

    /** The exit step of the day branch: when the position lies in a ledger entry with a
        non-empty name whose grid has a door, one call to use that door; otherwise none. */
    method LeaveBuilding(bot: Pos, rotate: Rotation) returns (exit: seq<Action>)
      requires Valid()
      ensures |exit| <= 1
      ensures exit != [] ==>
        && exit[0].UseDoor? && exit[0].door.Some?
        && exists n :: n in data.built && n != "" && InFootprint(bot, data.built[n], constructions[n])
             && IsDoorOf(data.built, n, exit[0].door, rotate)
      ensures (forall n :: n in data.built ==> !InFootprint(bot, data.built[n], constructions[n])) ==> exit == []
      ensures forall n :: StandsOnlyIn(data.built, bot, n) ==>
        (exit != [] <==> n != "" && !NoDoor(constructions[n].blocks))
    {
      exit := [];
      var building := CurrentBuilding(bot);
      if building.Some? && building.value != "" {
        var door := GetBuildingDoor(building, rotate);
        if door.Some? {
          exit := [UseDoor(door)];
        }
      }
    }

    /** The night branch of `executeNext`: archive the current goal as the previous one, head
        for the home's door unless the NPC stands in the home already, and go to bed. */
    method Nighttime(bot: Pos, rotate: Rotation) returns (actions: seq<Action>)
      requires Valid()
      modifies this
      ensures Valid()
      ensures data == old(data).(prev_goal := old(data).curr_goal, curr_goal := None)
      ensures temp_goals == old(temp_goals)
      ensures 1 <= |actions| <= 2 && actions[|actions| - 1] == GoToBed
      ensures |actions| == 2 ==>
        && data.home.Some? && actions[0].UseDoor?
        && IsDoorOf(data.built, data.home.value, actions[0].door, rotate)
      ensures data.home.Some? && StandsOnlyIn(data.built, bot, data.home.value) ==> actions == [GoToBed]
      ensures data.home.None? ==> actions == [GoToBed]
      ensures data.home.Some? && data.home.value !in data.built ==> actions == [UseDoor(None), GoToBed]
      ensures data.home.Some? && data.home.value in data.built
              && !InFootprint(bot, data.built[data.home.value], constructions[data.home.value])
              ==> |actions| == 2 && (actions[0].door.Some? <==> !NoDoor(constructions[data.home.value].blocks))
    {
      data := data.(prev_goal := data.curr_goal, curr_goal := None);
      var building := CurrentBuilding(bot);
      actions := [];
      if data.home.Some? && (building.None? || building.value != data.home.value) {
        var door := GetBuildingDoor(data.home, rotate);
        actions := actions + [UseDoor(door)];
      }
      actions := actions + [GoToBed];
    }

    /** `executeGoal`: one cycle over temporary, base and current goals, as `Run` states it;
        the temporary goals are replaced by the shortages this cycle's build steps report. */
    method ExecuteGoal(world: World) returns (trace: seq<Action>)
      requires Valid()
      modifies this
      ensures Valid()
      ensures var out := Run(Candidates(old(temp_goals), old(data).base_goals, old(data).curr_goal), 0,
                             constructions, world, old(data).built, old(data).home);
        && data == old(data).(built := out.built, home := out.home)
        && temp_goals == out.temp
        && trace == out.trace
    {
      var goals := temp_goals + data.base_goals;
      if data.curr_goal.Some? {
        goals := goals + [data.curr_goal.value];
      }
      assert goals == Candidates(old(temp_goals), old(data).base_goals, old(data).curr_goal);
      temp_goals := [];
      trace := [];
      ghost var full := Run(goals, 0, constructions, world, data.built, data.home);
      var i := 0;
      while i < |goals|
        invariant 0 <= i <= |goals|
        invariant Valid()
        invariant data == old(data).(built := data.built, home := data.home)
        invariant var rest := Run(goals, i, constructions, world, data.built, data.home);
          full == Outcome(rest.built, rest.home, temp_goals + rest.temp, trace + rest.trace)
      {
        ghost var temp0, trace0 := temp_goals, trace;
        var stop, steps, added := Attempt(goals, i, world);
        trace := trace + steps;
        if stop {
          break;
        }
        ghost var rest := Run(goals, i + 1, constructions, world, data.built, data.home);
        AppendAssoc(temp0, added, rest.temp);
        AppendAssoc(trace0, steps, rest.trace);
        i := i + 1;
      }
    }

    /** The body of the goal loop for `goals[i]`: an item the inventory lacks is acquired and
        stops the cycle; a satisfied item does nothing; a structure gets one build step, which
        stops the cycle if it acted and then, with nothing missing, finishes the structure and
        makes it the home if it is one. `added` are the temporary goals queued, `steps` the
        calls made; the rest of the cycle, when it goes on, is `Run` from `i + 1`. */
    method Attempt(goals: seq<Goal>, i: nat, world: World)
      returns (stop: bool, steps: seq<Action>, ghost added: seq<Goal>)
      requires Valid() && i < |goals|
      modifies this`data, this`temp_goals
      ensures Valid()
      ensures data == old(data).(built := data.built, home := data.home)
      ensures temp_goals == old(temp_goals) + added
      ensures var r := Run(goals, i, constructions, world, old(data).built, old(data).home);
        if stop then r == Outcome(data.built, data.home, added, steps)
        else var rest := Run(goals, i + 1, constructions, world, data.built, data.home);
             r == Outcome(rest.built, rest.home, added + rest.temp, steps + rest.trace)
    {
      var goal := goals[i];
      stop, steps, added := false, [], [];
      if goal.name !in constructions {
        if !world.holds(goal.name, goal.quantity) {
          stop, steps := true, [Acquire(goal)];
        }
      } else {
        var placement, res := BuildStep(goal.name, world);
        steps, added := [Build(goal.name, placement, res)], MissingGoals(res.missing);
        if res.acted {
          if |res.missing| == 0 {
            if constructions[goal.name].is_home {
              data := data.(home := Some(goal.name));
            }
            data := data.(built := data.built[goal.name := data.built[goal.name].(finished := true)]);
          }
          stop := true;
        }
      }
    }

    /** One build step: resume the structure at its ledger placement if it has one, call the
        builder, enter a new structure in the ledger unfinished at the placement the builder
        returned, and queue its missing materials as temporary goals. */
    method BuildStep(name: string, world: World) returns (placement: Option<Placement>, res: BuildResult)
      requires Valid() && name in constructions
      modifies this`data, this`temp_goals
      ensures Valid()
      ensures placement == Resume(old(data).built, name)
      ensures res == world.build(constructions[name], placement)
      ensures data == old(data).(built := Enter(old(data).built, name, res))
      ensures temp_goals == old(temp_goals) + MissingGoals(res.missing)
    {
      if name in data.built {
        placement := Some(Placement(data.built[name].position, data.built[name].orientation));
        res := world.build(constructions[name], placement);
      } else {
        placement := None;
        res := world.build(constructions[name], placement);
        data := data.(built := data.built[name := Instance(name, res.position, res.orientation, false)]);
      }
      PushMissing(res.missing);
    }

    /** Appends one temporary goal per entry of a build step's `missing` report, in order. */
    method PushMissing(missing: seq<(string, int)>)
      modifies this`temp_goals
      ensures temp_goals == old(temp_goals) + MissingGoals(missing)
    {
      var j := 0;
      while j < |missing|
        invariant 0 <= j <= |missing|
        invariant temp_goals == old(temp_goals) + MissingGoals(missing[..j])
      {
        temp_goals := temp_goals + [Goal(missing[j].0, missing[j].1)];
        j := j + 1;
      }
      assert missing[..j] == missing;
    }

    /** `currentBuilding`: a structure from the ledger whose footprint holds the position,
        or None when no footprint does. */
    method CurrentBuilding(bot: Pos) returns (r: Option<string>)
      requires Valid()
      ensures r.Some? ==> r.value in data.built && InFootprint(bot, data.built[r.value], constructions[r.value])
      ensures r.None? ==> forall n :: n in data.built ==> !InFootprint(bot, data.built[n], constructions[n])
    {
      var names := data.built.Keys;
      while names != {}
        invariant names <= data.built.Keys
        invariant forall n :: n in data.built && n !in names ==> !InFootprint(bot, data.built[n], constructions[n])
        decreases names
      {
        var name :| name in names;
        var pos := data.built[name].position;
        var c := constructions[name];
        var sizex, sizez, sizey := |c.blocks[0][0]|, |c.blocks[0]|, |c.blocks|;
        if JsRem(data.built[name].orientation, 2) == 1 {
          sizex, sizez := sizez, sizex;
        }
        if && pos.x <= bot.x < pos.x + sizex
           && pos.y + c.offset <= bot.y < pos.y + sizey + c.offset
           && pos.z <= bot.z < pos.z + sizez
        {
          return Some(name);
        }
        names := names - {name};
      }
      return None;
    }

    /** `getBuildingDoor`: None for no name, a structure not in the ledger, or a grid with no
        door; otherwise the first door cell in y, z, x order, placed in the world. */
    method GetBuildingDoor(name: Option<string>, rotate: Rotation) returns (door: Option<Pos>)
      requires Valid()
      ensures name.None? || name.value !in data.built ==> door.None?
      ensures name.Some? && name.value in data.built ==>
        (door.None? <==> NoDoor(constructions[name.value].blocks))
      ensures door.Some? ==>
        && name.Some? && name.value in data.built
        && exists cell :: FirstDoorAt(constructions[name.value].blocks, cell)
             && DoorPlaced(door.value, data.built[name.value], constructions[name.value], cell, rotate)
      ensures name.Some? ==> IsDoorOf(data.built, name.value, door, rotate)
    {
      if name.None? || name.value !in data.built {
        return None;
      }
      var c := constructions[name.value];
      var found := FindDoor(c.blocks);
      if found.None? {
        return None;
      }
      var cell := found.value;
      var inst := data.built[name.value];
      var sizex, sizez := |c.blocks[0][0]|, |c.blocks[0]|;
      var (dx, dz) := rotate(cell.x, cell.z, inst.orientation, sizex, sizez);
      var dy := cell.y + c.offset;
      door := Some(Pos(inst.position.x + dx, inst.position.y + dy, inst.position.z + dz));
      assert DoorPlaced(door.value, inst, c, cell, rotate);
    }

    /** `getBuiltPositions`, as written: every cell of the grid box of every ledger entry,
        lifted by the offset, with no regard to the entry's orientation. */
    method GetBuiltPositions() returns (positions: seq<Pos>)
      requires Valid()
      ensures forall p :: p in positions <==>
        exists n :: n in data.built && InGridBox(p, data.built[n], constructions[n])
    {
      positions := [];
      var names := data.built.Keys;
      while names != {}
        invariant names <= data.built.Keys
        invariant forall p :: p in positions <==>
          exists n :: n in data.built && n !in names && InGridBox(p, data.built[n], constructions[n])
        decreases names
      {
        var name :| name in names;
        var c := constructions[name];
        positions := AppendBox(positions, data.built[name].position, c.offset, |c.blocks[0][0]|, |c.blocks|, |c.blocks[0]|);
        names := names - {name};
      }
    }

    /** `getBuiltPositions` with the x and z extents exchanged for an odd orientation, as
        `currentBuilding` does: exactly the cells that lie in some ledger entry's footprint. */
    method GetBuiltPositionsOriented() returns (positions: seq<Pos>)
      requires Valid()
      ensures forall p :: p in positions <==>
        exists n :: n in data.built && InFootprint(p, data.built[n], constructions[n])
    {
      positions := [];
      var names := data.built.Keys;
      while names != {}
        invariant names <= data.built.Keys
        invariant forall p :: p in positions <==>
          exists n :: n in data.built && n !in names && InFootprint(p, data.built[n], constructions[n])
        decreases names
      {
        var name :| name in names;
        var c := constructions[name];
        var sizex, sizez := |c.blocks[0][0]|, |c.blocks[0]|;
        if JsRem(data.built[name].orientation, 2) == 1 {
          sizex, sizez := sizez, sizex;
        }
        positions := AppendBox(positions, data.built[name].position, c.offset, sizex, |c.blocks|, sizez);
        names := names - {name};
      }
    }
  }
}
