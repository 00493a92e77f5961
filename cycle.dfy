/** One scheduling cycle of the NPC (`executeGoal` in src/agent/npc/controller.js), stated as a
    function of the goal list, the known constructions, the world's answers and the ledger. */
module Cycle {
  import opened Data
  import opened Spatial

  /** Where a structure sits and how it is turned. */
  datatype Placement = Placement(position: Pos, orientation: int)

  /** What one build step reports. `missing` lists the entries of the returned
      {block name: count} object in enumeration order. */
  datatype BuildResult = BuildResult(acted: bool, position: Pos, orientation: int, missing: seq<(string, int)>)

  /** A call the controller makes on the world, in the order made. A build step resumed
      from the ledger carries its stored placement; a first build step carries none. */
  datatype Action =
    | Acquire(goal: Goal)
    | Build(name: string, placement: Option<Placement>, result: BuildResult)
    | UseDoor(door: Option<Pos>)
    | GoToBed

  /** The collaborators as the world answers them during a cycle: whether the inventory already
      holds an item in a quantity (`itemSatisfied`), and what a build step does (`BuildGoal`). */
  datatype World = World(holds: (string, int) -> bool, build: (Construction, Option<Placement>) -> BuildResult)

  /** What a cycle leaves behind: the ledger, the home, the next cycle's temporary goals,
      and the calls made. */
  datatype Outcome = Outcome(built: map<string, Instance>, home: Option<string>, temp: seq<Goal>, trace: seq<Action>)

  /** The candidate list: temporary goals, then base goals, then the current goal if set. */
  function Candidates(temp: seq<Goal>, base: seq<Goal>, curr: Option<Goal>): (r: seq<Goal>)
    ensures |r| == |temp| + |base| + (if curr.Some? then 1 else 0)
    ensures r[..|temp|] == temp && r[|temp|..|temp| + |base|] == base
    ensures curr.Some? ==> r[|r| - 1] == curr.value
  {
    temp + base + (if curr.Some? then [curr.value] else [])
  }

  /** The temporary goals made from a `missing` report, one per entry, in order. */
  function MissingGoals(missing: seq<(string, int)>): seq<Goal> {
    seq(|missing|, k requires 0 <= k < |missing| => Goal(missing[k].0, missing[k].1))
  }

  /** The placement a build step is given: the stored one for a structure in the ledger
      (finished or not), none for a structure built for the first time. */
  function Resume(built: map<string, Instance>, name: string): Option<Placement> {
    if name in built then Some(Placement(built[name].position, built[name].orientation)) else None
  }

  /** The ledger after a build step: a structure built for the first time is entered,
      unfinished, at the placement the step returned, whether or not the step acted. */
  function Enter(built: map<string, Instance>, name: string, res: BuildResult): map<string, Instance> {
    if name in built then built else built[name := Instance(name, res.position, res.orientation, false)]
  }

  /** The goals from index `i` on, processed until one stops the cycle: an item the inventory
      lacks is acquired once and stops it; a satisfied item is skipped; a structure gets one
      build step, its missing materials become temporary goals, and the cycle stops if the step
      acted, marking the structure finished (and the home, for a home) when nothing is missing. */
  function Run(goals: seq<Goal>, i: nat, cons: map<string, Construction>, world: World,
               built: map<string, Instance>, home: Option<string>): (r: Outcome)
    requires i <= |goals|
    decreases |goals| - i
  {
    if i == |goals| then Outcome(built, home, [], [])
    else
      var goal := goals[i];
      if goal.name !in cons then
        if !world.holds(goal.name, goal.quantity) then Outcome(built, home, [], [Acquire(goal)])
        else Run(goals, i + 1, cons, world, built, home)
      else
        var placement := Resume(built, goal.name);
        var res := world.build(cons[goal.name], placement);
        var ledger := Enter(built, goal.name, res);
        var step := Build(goal.name, placement, res);
        if res.acted then
          if res.missing == [] then
            Outcome(ledger[goal.name := ledger[goal.name].(finished := true)],
                    if cons[goal.name].is_home then Some(goal.name) else home,
                    MissingGoals(res.missing), [step])
          else Outcome(ledger, home, MissingGoals(res.missing), [step])
        else
          var rest := Run(goals, i + 1, cons, world, ledger, home);
          Outcome(rest.built, rest.home, MissingGoals(res.missing) + rest.temp, [step] + rest.trace)
  }

  /** The missing materials of the build steps in a trace, in call order. */
  function MissingOf(trace: seq<Action>): seq<Goal> {
    if trace == [] then []
    else (if trace[0].Build? then MissingGoals(trace[0].result.missing) else []) + MissingOf(trace[1..])
  }

  /** The structures a trace made build steps for. */
  function BuiltNames(trace: seq<Action>): set<string> {
    if trace == [] then {}
    else (if trace[0].Build? then {trace[0].name} else {}) + BuiltNames(trace[1..])
  }

  /** A build step that acted and reported nothing missing. */
  predicate Completes(a: Action) {
    a.Build? && a.result.acted && a.result.missing == []
  }

  /** The trace ends with a build step that completed structure `n`. */
  predicate FinishedBy(trace: seq<Action>, n: string) {
    |trace| > 0 && Completes(trace[|trace| - 1]) && trace[|trace| - 1].name == n
  }

  /** `goalSatisfied`: false for an empty name; a structure is satisfied when it is in the
      ledger and finished, an item when the inventory holds it. */
  function GoalSatisfied(cons: map<string, Construction>, built: map<string, Instance>,
                         holds: (string, int) -> bool, name: string, quantity: int): (r: bool)
    ensures name == "" ==> !r
    ensures name != "" && name in cons ==> (r <==> name in built && built[name].finished)
    ensures name != "" && name !in cons ==> (r <==> holds(name, quantity))
  {
    if name == "" then false
    else if name !in cons then holds(name, quantity)
    else name in built && built[name].finished
  }

  /** Every call but the last is a build step that did not act: nothing follows an acquisition
      or a build step that acted. Acquisitions are only for items the inventory lacks, build
      steps only for known structures, and there is at most one call per goal. */
  lemma {:induction false} RunStopsAtFirstAction(goals: seq<Goal>, i: nat, cons: map<string, Construction>,
                                                 world: World, built: map<string, Instance>, home: Option<string>)
    requires i <= |goals|
    ensures var tr := Run(goals, i, cons, world, built, home).trace;
      && |tr| <= |goals| - i
      && (forall j :: 0 <= j < |tr| - 1 ==> tr[j].Build? && !tr[j].result.acted)
      && (forall j :: 0 <= j < |tr| ==> tr[j].Acquire? || tr[j].Build?)
      && (forall j :: 0 <= j < |tr| && tr[j].Acquire? ==>
            tr[j].goal.name !in cons && !world.holds(tr[j].goal.name, tr[j].goal.quantity))
      && (forall j :: 0 <= j < |tr| && tr[j].Build? ==> tr[j].name in cons)
    decreases |goals| - i
  {
    if i < |goals| {
      var goal := goals[i];
      if goal.name !in cons {
        if world.holds(goal.name, goal.quantity) {
          RunStopsAtFirstAction(goals, i + 1, cons, world, built, home);
        }
      } else {
        var placement := Resume(built, goal.name);
        var res := world.build(cons[goal.name], placement);
        var ledger := Enter(built, goal.name, res);
        if !res.acted {
          RunStopsAtFirstAction(goals, i + 1, cons, world, ledger, home);
          var rest := Run(goals, i + 1, cons, world, ledger, home).trace;
          var tr := [Build(goal.name, placement, res)] + rest;
          assert forall j :: 1 <= j < |tr| ==> tr[j] == rest[j - 1];
        }
      }
    }
  }

  /** A goal the cycle passes over without a call: an item the inventory already holds. */
  predicate Held(g: Goal, cons: map<string, Construction>, world: World) {
    g.name !in cons && world.holds(g.name, g.quantity)
  }

  /** The cycle went on to the end of the list: it made no call, or its last call was a build
      step that did not act. */
  predicate Continues(tr: seq<Action>) {
    tr == [] || (tr[|tr| - 1].Build? && !tr[|tr| - 1].result.acted)
  }

  /** Call `a` was made for goal `g`. */
  predicate CallFor(a: Action, g: Goal) {
    (a.Acquire? && a.goal == g) || (a.Build? && a.name == g.name)
  }

  /** The index in `goals` of the goal each call of `Run(goals, i, ...)` is made for. */
  ghost function CallIndices(goals: seq<Goal>, i: nat, cons: map<string, Construction>, world: World,
                             built: map<string, Instance>, home: Option<string>): seq<int>
    requires i <= |goals|
    decreases |goals| - i
  {
    if i == |goals| then []
    else
      var goal := goals[i];
      if goal.name !in cons then
        if !world.holds(goal.name, goal.quantity) then [i]
        else CallIndices(goals, i + 1, cons, world, built, home)
      else
        var res := world.build(cons[goal.name], Resume(built, goal.name));
        if res.acted then [i]
        else [i] + CallIndices(goals, i + 1, cons, world, Enter(built, goal.name, res), home)
  }

  /** The calls are made in list order: call `j` is for the goal at a strictly increasing
      index, from `i` on. */
  lemma {:induction false} RunCallOrder(goals: seq<Goal>, i: nat, cons: map<string, Construction>,
                                        world: World, built: map<string, Instance>, home: Option<string>)
    requires i <= |goals|
    ensures var tr := Run(goals, i, cons, world, built, home).trace;
      var idx := CallIndices(goals, i, cons, world, built, home);
      && |idx| == |tr|
      && (forall j :: 0 <= j < |idx| ==> i <= idx[j] < |goals| && CallFor(tr[j], goals[idx[j]]))
      && (forall j1, j2 :: 0 <= j1 < j2 < |idx| ==> idx[j1] < idx[j2])
    decreases |goals| - i
  {
    if i < |goals| {
      var goal := goals[i];
      if goal.name !in cons {
        if world.holds(goal.name, goal.quantity) {
          RunCallOrder(goals, i + 1, cons, world, built, home);
        }
      } else {
        var placement := Resume(built, goal.name);
        var res := world.build(cons[goal.name], placement);
        var ledger := Enter(built, goal.name, res);
        if !res.acted {
          RunCallOrder(goals, i + 1, cons, world, ledger, home);
          var rest := Run(goals, i + 1, cons, world, ledger, home).trace;
          var ridx := CallIndices(goals, i + 1, cons, world, ledger, home);
          var tr := [Build(goal.name, placement, res)] + rest;
          var idx := [i] + ridx;
          assert forall j :: 1 <= j < |tr| ==> tr[j] == rest[j - 1] && idx[j] == ridx[j - 1];
        }
      }
    }
  }

  /** Every goal passed over before the last call is an item the inventory already holds. */
  lemma {:induction false} RunSkipsHeldBeforeLast(goals: seq<Goal>, i: nat, cons: map<string, Construction>,
                                                  world: World, built: map<string, Instance>, home: Option<string>)
    requires i <= |goals|
    ensures var idx := CallIndices(goals, i, cons, world, built, home);
      forall k :: i <= k < |goals| && |idx| > 0 && k < idx[|idx| - 1] && k !in idx ==> Held(goals[k], cons, world)
    decreases |goals| - i
  {
    if i < |goals| {
      var goal := goals[i];
      if goal.name !in cons {
        if world.holds(goal.name, goal.quantity) {
          RunSkipsHeldBeforeLast(goals, i + 1, cons, world, built, home);
        }
      } else {
        var res := world.build(cons[goal.name], Resume(built, goal.name));
        var ledger := Enter(built, goal.name, res);
        if !res.acted {
          RunSkipsHeldBeforeLast(goals, i + 1, cons, world, ledger, home);
          var ridx := CallIndices(goals, i + 1, cons, world, ledger, home);
          var idx := [i] + ridx;
          if ridx != [] {
            assert idx[|idx| - 1] == ridx[|ridx| - 1];
          }
          forall k | i <= k < |goals| && k < idx[|idx| - 1] && k !in idx
            ensures Held(goals[k], cons, world)
          {
            assert k != i && k !in ridx;
          }
        }
      }
    }
  }

  /** In a cycle that went on to the end of the list, every goal passed over without a call is
      an item the inventory already holds. */
  lemma {:induction false} RunSkipsHeldToEnd(goals: seq<Goal>, i: nat, cons: map<string, Construction>,
                                             world: World, built: map<string, Instance>, home: Option<string>)
    requires i <= |goals|
    ensures var tr := Run(goals, i, cons, world, built, home).trace;
      var idx := CallIndices(goals, i, cons, world, built, home);
      Continues(tr) ==> forall k :: i <= k < |goals| && k !in idx ==> Held(goals[k], cons, world)
    decreases |goals| - i
  {
    if i < |goals| {
      var goal := goals[i];
      if goal.name !in cons {
        if world.holds(goal.name, goal.quantity) {
          RunSkipsHeldToEnd(goals, i + 1, cons, world, built, home);
        }
      } else {
        var placement := Resume(built, goal.name);
        var res := world.build(cons[goal.name], placement);
        var ledger := Enter(built, goal.name, res);
        if !res.acted {
          RunSkipsHeldToEnd(goals, i + 1, cons, world, ledger, home);
          var rest := Run(goals, i + 1, cons, world, ledger, home).trace;
          var ridx := CallIndices(goals, i + 1, cons, world, ledger, home);
          assert Continues([Build(goal.name, placement, res)] + rest) <==> Continues(rest);
          forall k | i <= k < |goals| && k !in [i] + ridx
            ensures k !in ridx
          {
          }
        }
      }
    }
  }

  /** A cycle that went on to the end of the list (no call, or a last build step that did not
      act) passed every goal from `i` on: each is an item already held or a structure given a
      build step. A held item and a build step that did not act let the cycle go on. */
  lemma RunGoesOn(goals: seq<Goal>, i: nat, cons: map<string, Construction>,
                  world: World, built: map<string, Instance>, home: Option<string>)
    requires i <= |goals|
    ensures var tr := Run(goals, i, cons, world, built, home).trace;
      Continues(tr) ==>
        forall k :: i <= k < |goals| ==> Held(goals[k], cons, world) || goals[k].name in BuiltNames(tr)
  {
    var tr := Run(goals, i, cons, world, built, home).trace;
    var idx := CallIndices(goals, i, cons, world, built, home);
    RunCallOrder(goals, i, cons, world, built, home);
    RunSkipsHeldToEnd(goals, i, cons, world, built, home);
    RunStopsAtFirstAction(goals, i, cons, world, built, home);
    if Continues(tr) {
      forall k | i <= k < |goals| && !Held(goals[k], cons, world)
        ensures goals[k].name in BuiltNames(tr)
      {
        var j :| 0 <= j < |idx| && idx[j] == k;
        assert tr[j].Build?;
        BuiltNamesHas(tr, j);
      }
    }
  }

  /** At most one item is acquired per cycle, and an acquisition is always the last call. */
  lemma AtMostOneAcquisition(goals: seq<Goal>, i: nat, cons: map<string, Construction>,
                             world: World, built: map<string, Instance>, home: Option<string>)
    requires i <= |goals|
    ensures var tr := Run(goals, i, cons, world, built, home).trace;
      forall j :: 0 <= j < |tr| && tr[j].Acquire? ==> j == |tr| - 1
  {
    RunStopsAtFirstAction(goals, i, cons, world, built, home);
  }

  /** The next cycle's temporary goals are exactly the missing materials of the build steps
      made in this cycle, in call order; nothing carries over from earlier cycles. */
  lemma {:induction false} RunTempIsMissing(goals: seq<Goal>, i: nat, cons: map<string, Construction>,
                                            world: World, built: map<string, Instance>, home: Option<string>)
    requires i <= |goals|
    ensures var out := Run(goals, i, cons, world, built, home);
      out.temp == MissingOf(out.trace)
    decreases |goals| - i
  {
    if i < |goals| {
      var goal := goals[i];
      if goal.name !in cons {
        if world.holds(goal.name, goal.quantity) {
          RunTempIsMissing(goals, i + 1, cons, world, built, home);
        } else {
          assert MissingOf([Acquire(goal)]) == [] + MissingOf([]);
        }
      } else {
        var placement := Resume(built, goal.name);
        var res := world.build(cons[goal.name], placement);
        var ledger := Enter(built, goal.name, res);
        var step := Build(goal.name, placement, res);
        if res.acted {
          assert MissingOf([step]) == MissingGoals(res.missing) + MissingOf([]);
        } else {
          RunTempIsMissing(goals, i + 1, cons, world, ledger, home);
          var rest := Run(goals, i + 1, cons, world, ledger, home).trace;
          assert ([step] + rest)[1..] == rest;
        }
      }
    }
  }

  /** The ledger after a cycle gains an entry exactly for the structures first built in the
      cycle, and loses none. */
  lemma {:induction false} RunLedgerKeys(goals: seq<Goal>, i: nat, cons: map<string, Construction>,
                                         world: World, built: map<string, Instance>, home: Option<string>)
    requires i <= |goals|
    ensures var out := Run(goals, i, cons, world, built, home);
      out.built.Keys == built.Keys + BuiltNames(out.trace)
    decreases |goals| - i
  {
    if i < |goals| {
      var goal := goals[i];
      if goal.name !in cons {
        if world.holds(goal.name, goal.quantity) {
          RunLedgerKeys(goals, i + 1, cons, world, built, home);
        }
      } else {
        var placement := Resume(built, goal.name);
        var res := world.build(cons[goal.name], placement);
        var ledger := Enter(built, goal.name, res);
        var out := Run(goals, i, cons, world, built, home);
        if res.acted {
          assert BuiltNames(out.trace) == {goal.name} + BuiltNames([]);
        } else {
          RunLedgerKeys(goals, i + 1, cons, world, ledger, home);
          var rest := Run(goals, i + 1, cons, world, ledger, home);
          assert out.trace[1..] == rest.trace;
          assert BuiltNames(out.trace) == {goal.name} + BuiltNames(rest.trace);
        }
      }
    }
  }

  /** Existing ledger entries keep their name, position and orientation through a cycle, and
      an entry that no step touched is unchanged. */
  lemma {:induction false} RunKeepsEntries(goals: seq<Goal>, i: nat, cons: map<string, Construction>,
                                           world: World, built: map<string, Instance>, home: Option<string>)
    requires i <= |goals|
    ensures var out := Run(goals, i, cons, world, built, home);
      && (forall n :: n in built ==>
            && n in out.built
            && out.built[n].name == built[n].name
            && out.built[n].position == built[n].position
            && out.built[n].orientation == built[n].orientation)
      && (forall n :: n in built && n !in BuiltNames(out.trace) ==> out.built[n] == built[n])
    decreases |goals| - i
  {
    if i < |goals| {
      var goal := goals[i];
      if goal.name !in cons {
        if world.holds(goal.name, goal.quantity) {
          RunKeepsEntries(goals, i + 1, cons, world, built, home);
        }
      } else {
        var placement := Resume(built, goal.name);
        var res := world.build(cons[goal.name], placement);
        var ledger := Enter(built, goal.name, res);
        var out := Run(goals, i, cons, world, built, home);
        if res.acted {
          assert BuiltNames(out.trace) == {goal.name} + BuiltNames([]);
        } else {
          RunKeepsEntries(goals, i + 1, cons, world, ledger, home);
          var rest := Run(goals, i + 1, cons, world, ledger, home);
          assert out.trace[1..] == rest.trace;
          assert BuiltNames(out.trace) == {goal.name} + BuiltNames(rest.trace);
        }
      }
    }
  }

  /** A build step on a structure in `built` is made at the placement stored there. */
  predicate ResumesFrom(a: Action, built: map<string, Instance>) {
    a.Build? && a.name in built ==> a.placement == Some(Placement(built[a.name].position, built[a.name].orientation))
  }

  /** A build step on a structure already in the ledger resumes at its stored placement,
      whether or not it is finished. */
  lemma {:induction false} RunResumesStored(goals: seq<Goal>, i: nat, cons: map<string, Construction>,
                                            world: World, built: map<string, Instance>, home: Option<string>)
    requires i <= |goals|
    ensures forall j :: 0 <= j < |Run(goals, i, cons, world, built, home).trace| ==>
      ResumesFrom(Run(goals, i, cons, world, built, home).trace[j], built)
    decreases |goals| - i
  {
    if i < |goals| {
      var goal := goals[i];
      if goal.name !in cons {
        if world.holds(goal.name, goal.quantity) {
          RunResumesStored(goals, i + 1, cons, world, built, home);
        }
      } else {
        var placement := Resume(built, goal.name);
        var res := world.build(cons[goal.name], placement);
        var ledger := Enter(built, goal.name, res);
        if !res.acted {
          RunResumesStored(goals, i + 1, cons, world, ledger, home);
          var rest := Run(goals, i + 1, cons, world, ledger, home).trace;
          var tr := [Build(goal.name, placement, res)] + rest;
          forall j | 0 <= j < |tr| ensures ResumesFrom(tr[j], built) {
            if j > 0 {
              assert tr[j] == rest[j - 1];
              assert ResumesFrom(rest[j - 1], ledger);
            }
          }
        }
      }
    }
  }

  /** Step `j` of a trace is the first build step of `n`, made with no placement, and `inst`
      records the placement it returned. */
  ghost predicate PlacedBy(trace: seq<Action>, j: int, n: string, inst: Instance) {
    && 0 <= j < |trace| && trace[j].Build? && trace[j].name == n && trace[j].placement.None?
    && inst == Instance(n, trace[j].result.position, trace[j].result.orientation, inst.finished)
  }

  /** A ledger entry created in the cycle comes from a build step made with no placement, and
      takes the position and orientation that step returned, whether or not the step acted. */
  lemma {:induction false} RunCreatesFromResult(goals: seq<Goal>, i: nat, cons: map<string, Construction>,
                                                world: World, built: map<string, Instance>, home: Option<string>)
    requires i <= |goals|
    ensures var out := Run(goals, i, cons, world, built, home);
      forall n :: n in out.built && n !in built ==> exists j :: PlacedBy(out.trace, j, n, out.built[n])
    decreases |goals| - i
  {
    if i < |goals| {
      var goal := goals[i];
      if goal.name !in cons {
        if world.holds(goal.name, goal.quantity) {
          RunCreatesFromResult(goals, i + 1, cons, world, built, home);
        }
      } else {
        var placement := Resume(built, goal.name);
        var res := world.build(cons[goal.name], placement);
        var ledger := Enter(built, goal.name, res);
        var step := Build(goal.name, placement, res);
        var out := Run(goals, i, cons, world, built, home);
        if res.acted {
          if goal.name !in built {
            assert PlacedBy(out.trace, 0, goal.name, out.built[goal.name]);
          }
        } else {
          RunCreatesFromResult(goals, i + 1, cons, world, ledger, home);
          RunLedgerKeys(goals, i + 1, cons, world, ledger, home);
          RunKeepsEntries(goals, i + 1, cons, world, ledger, home);
          var rest := Run(goals, i + 1, cons, world, ledger, home);
          assert out.trace == [step] + rest.trace;
          forall n | n in out.built && n !in built
            ensures exists j :: PlacedBy(out.trace, j, n, out.built[n])
          {
            if n in ledger {
              assert PlacedBy(out.trace, 0, n, out.built[n]);
            } else {
              var j :| PlacedBy(rest.trace, j, n, rest.built[n]);
              assert out.trace[j + 1] == rest.trace[j];
              assert PlacedBy(out.trace, j + 1, n, out.built[n]);
            }
          }
        }
      }
    }
  }

  /** Nothing clears `finished`, and the build step that ends a cycle by completing a
      structure sets it. */
  lemma {:induction false} RunFinishedSet(goals: seq<Goal>, i: nat, cons: map<string, Construction>,
                                          world: World, built: map<string, Instance>, home: Option<string>)
    requires i <= |goals|
    ensures var out := Run(goals, i, cons, world, built, home);
      forall n :: ((n in built && built[n].finished) || FinishedBy(out.trace, n)) ==>
        n in out.built && out.built[n].finished
    decreases |goals| - i
  {
    if i < |goals| {
      var goal := goals[i];
      if goal.name !in cons {
        if world.holds(goal.name, goal.quantity) {
          RunFinishedSet(goals, i + 1, cons, world, built, home);
        }
      } else {
        var placement := Resume(built, goal.name);
        var res := world.build(cons[goal.name], placement);
        var ledger := Enter(built, goal.name, res);
        if !res.acted {
          RunFinishedSet(goals, i + 1, cons, world, ledger, home);
          RunLedgerKeys(goals, i + 1, cons, world, ledger, home);
          var rest := Run(goals, i + 1, cons, world, ledger, home);
          var out := Run(goals, i, cons, world, built, home);
          assert out.trace == [Build(goal.name, placement, res)] + rest.trace;
          if rest.trace != [] {
            assert out.trace[|out.trace| - 1] == rest.trace[|rest.trace| - 1];
          }
        }
      }
    }
  }

  /** Only the build step that ends a cycle by completing a structure sets `finished`: an entry
      finished after the cycle was finished before or was completed by the last call. */
  lemma {:induction false} RunFinishedOnlyBy(goals: seq<Goal>, i: nat, cons: map<string, Construction>,
                                             world: World, built: map<string, Instance>, home: Option<string>)
    requires i <= |goals|
    ensures var out := Run(goals, i, cons, world, built, home);
      forall n :: n in out.built && out.built[n].finished ==> (n in built && built[n].finished) || FinishedBy(out.trace, n)
    decreases |goals| - i
  {
    if i < |goals| {
      var goal := goals[i];
      if goal.name !in cons {
        if world.holds(goal.name, goal.quantity) {
          RunFinishedOnlyBy(goals, i + 1, cons, world, built, home);
        }
      } else {
        var placement := Resume(built, goal.name);
        var res := world.build(cons[goal.name], placement);
        var ledger := Enter(built, goal.name, res);
        if !res.acted {
          RunFinishedOnlyBy(goals, i + 1, cons, world, ledger, home);
          var rest := Run(goals, i + 1, cons, world, ledger, home);
          var out := Run(goals, i, cons, world, built, home);
          assert out.trace == [Build(goal.name, placement, res)] + rest.trace;
          if rest.trace != [] {
            assert out.trace[|out.trace| - 1] == rest.trace[|rest.trace| - 1];
          }
          assert forall n :: n in ledger && ledger[n].finished ==> n in built && built[n].finished;
        }
      }
    }
  }

  /** An entry is finished after the cycle exactly when it was finished before or the cycle
      ended with a build step that completed it. */
  lemma RunFinished(goals: seq<Goal>, i: nat, cons: map<string, Construction>,
                    world: World, built: map<string, Instance>, home: Option<string>)
    requires i <= |goals|
    ensures var out := Run(goals, i, cons, world, built, home);
      forall n :: n in out.built ==>
        (out.built[n].finished <==> (n in built && built[n].finished) || FinishedBy(out.trace, n))
  {
    RunFinishedSet(goals, i, cons, world, built, home);
    RunFinishedOnlyBy(goals, i, cons, world, built, home);
  }

  /** The home changes only when the cycle ends with a build step that completed a structure
      flagged as a home, and then it becomes that structure. */
  lemma {:induction false} RunHome(goals: seq<Goal>, i: nat, cons: map<string, Construction>,
                                   world: World, built: map<string, Instance>, home: Option<string>)
    requires i <= |goals|
    ensures var out := Run(goals, i, cons, world, built, home);
      var tr := out.trace;
      out.home ==
        if |tr| > 0 && Completes(tr[|tr| - 1]) && tr[|tr| - 1].name in cons && cons[tr[|tr| - 1].name].is_home
        then Some(tr[|tr| - 1].name)
        else home
    decreases |goals| - i
  {
    if i < |goals| {
      var goal := goals[i];
      if goal.name !in cons {
        if world.holds(goal.name, goal.quantity) {
          RunHome(goals, i + 1, cons, world, built, home);
        }
      } else {
        var placement := Resume(built, goal.name);
        var res := world.build(cons[goal.name], placement);
        var ledger := Enter(built, goal.name, res);
        if !res.acted {
          RunHome(goals, i + 1, cons, world, ledger, home);
          var rest := Run(goals, i + 1, cons, world, ledger, home);
          var out := Run(goals, i, cons, world, built, home);
          assert out.trace == [Build(goal.name, placement, res)] + rest.trace;
          if rest.trace != [] {
            assert out.trace[|out.trace| - 1] == rest.trace[|rest.trace| - 1];
          }
        }
      }
    }
  }

  /** Priority order: when the goals before index `m` are all items already held and the goal
      at `m` is an item the inventory lacks, the cycle acquires exactly that item and changes
      nothing else. */
  lemma {:induction false} FirstLackingItemIsAcquired(goals: seq<Goal>, i: nat, m: nat, cons: map<string, Construction>,
                                                      world: World, built: map<string, Instance>, home: Option<string>)
    requires i <= m < |goals|
    requires forall k :: i <= k < m ==> goals[k].name !in cons && world.holds(goals[k].name, goals[k].quantity)
    requires goals[m].name !in cons && !world.holds(goals[m].name, goals[m].quantity)
    ensures Run(goals, i, cons, world, built, home) == Outcome(built, home, [], [Acquire(goals[m])])
    decreases m - i
  {
    if i < m {
      FirstLackingItemIsAcquired(goals, i + 1, m, cons, world, built, home);
    }
  }

  /** When every remaining goal is an item already held, the cycle makes no call and changes
      nothing. */
  lemma {:induction false} AllHeldIsIdle(goals: seq<Goal>, i: nat, cons: map<string, Construction>,
                                         world: World, built: map<string, Instance>, home: Option<string>)
    requires i <= |goals|
    requires forall k :: i <= k < |goals| ==> goals[k].name !in cons && world.holds(goals[k].name, goals[k].quantity)
    ensures Run(goals, i, cons, world, built, home) == Outcome(built, home, [], [])
    decreases |goals| - i
  {
    if i < |goals| {
      AllHeldIsIdle(goals, i + 1, cons, world, built, home);
    }
  }

  /** A structure the cycle completes satisfies its goal afterwards, and a structure goal that
      was satisfied before the cycle stays satisfied. */
  lemma CycleSatisfies(goals: seq<Goal>, cons: map<string, Construction>, world: World,
                       built: map<string, Instance>, home: Option<string>, n: string, q: int)
    requires n != "" && n in cons
    ensures var out := Run(goals, 0, cons, world, built, home);
      && (FinishedBy(out.trace, n) ==> GoalSatisfied(cons, out.built, world.holds, n, q))
      && (GoalSatisfied(cons, built, world.holds, n, q) ==> GoalSatisfied(cons, out.built, world.holds, n, q))
  {
    RunFinished(goals, 0, cons, world, built, home);
    RunLedgerKeys(goals, 0, cons, world, built, home);
    var out := Run(goals, 0, cons, world, built, home);
    if FinishedBy(out.trace, n) {
      RunStopsAtFirstAction(goals, 0, cons, world, built, home);
      if n !in built {
        assert n in BuiltNames(out.trace) by {
          BuiltNamesHas(out.trace, |out.trace| - 1);
        }
      }
    }
  }

  /** A build step's structure is among the trace's built names. */
  lemma {:induction false} BuiltNamesHas(trace: seq<Action>, j: nat)
    requires j < |trace| && trace[j].Build?
    ensures trace[j].name in BuiltNames(trace)
  {
    if j > 0 {
      BuiltNamesHas(trace[1..], j - 1);
    }
  }
}
