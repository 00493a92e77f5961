/** The NPC's persisted state record and its sparse stored form
    (class NPCData in src/agent/npc/data.js). */
module Data {

  datatype Option<T> = None | Some(value: T)

  /** A block position in the world. */
  datatype Pos = Pos(x: int, y: int, z: int)

  /** A goal: an item name with a quantity, or the name of a structure. */
  datatype Goal = Goal(name: string, quantity: int)

  /** One entry of the ledger `built`: where a structure was placed and whether it is complete. */
  datatype Instance = Instance(name: string, position: Pos, orientation: int, finished: bool)

  /** The NPC's state. `None` stands for JavaScript's `null`. */
  datatype NPCData = NPCData(
    base_goals: seq<Goal>,
    built: map<string, Instance>,
    home: Option<string>,
    prev_goal: Option<Goal>,
    curr_goal: Option<Goal>)

  /** An entry of a stored `base_goals` list: a bare item name, or an object with a name,
      a quantity and possibly further keys (`others` names them). */
  datatype RawGoal = Bare(item: string) | Record(name: string, quantity: int, others: set<string>)

  /** The stored plain object. `None` stands for a key that is absent (or holds null). */
  datatype Obj = Obj(
    base_goals: Option<seq<RawGoal>>,
    built: Option<map<string, Instance>>,
    home: Option<string>,
    prev_goal: Option<Goal>,
    curr_goal: Option<Goal>)

  /** The object with no keys at all. */
  const EmptyObj := Obj(None, None, None, None, None)

  /** JavaScript truthiness of a string-or-null field: null and the empty string are falsy. */
  predicate Truthy(s: Option<string>) {
    s.Some? && s.value != ""
  }

  /** The state a new NPCData starts in. */
  function Fresh(): (d: NPCData)
    ensures d.base_goals == [] && d.built == map[]
    ensures d.home.None? && d.prev_goal.None? && d.curr_goal.None?
  {
    NPCData([], map[], None, None, None)
  }

  /** A goal written out as the object {name, quantity}. */
  function Stored(goals: seq<Goal>): seq<RawGoal> {
    seq(|goals|, k requires 0 <= k < |goals| => Record(goals[k].name, goals[k].quantity, {}))
  }

  /** Sparse serialisation: a key is emitted only when its field is non-empty or truthy
      (goal objects are always truthy). */
  function ToObject(d: NPCData): (o: Obj)
    ensures o.base_goals.Some? <==> d.base_goals != []
    ensures o.built.Some? <==> d.built != map[]
    ensures o.home.Some? <==> Truthy(d.home)
    ensures o.prev_goal == d.prev_goal && o.curr_goal == d.curr_goal
    ensures o.base_goals.Some? ==>
      && |o.base_goals.value| == |d.base_goals|
      && forall k :: 0 <= k < |d.base_goals| ==>
           o.base_goals.value[k] == Record(d.base_goals[k].name, d.base_goals[k].quantity, {})
    ensures o.built.Some? ==> o.built.value == d.built
    ensures o.home.Some? ==> o.home == d.home
  {
    Obj(
      if d.base_goals != [] then Some(Stored(d.base_goals)) else None,
      if d.built != map[] then Some(d.built) else None,
      if Truthy(d.home) then d.home else None,
      d.prev_goal,
      d.curr_goal)
  }

  /** How `fromObject` reads one stored base goal: a bare name gets quantity 1,
      an object keeps only its name and quantity. */
  function Normalize(g: RawGoal): Goal {
    match g
    case Bare(s) => Goal(s, 1)
    case Record(n, q, _) => Goal(n, q)
  }

  /** What `fromObject` builds from a present object: every key that is absent or falsy
      leaves the default of `Fresh()` in place. */
  function Parse(o: Obj): NPCData {
    NPCData(
      if o.base_goals.Some? then
        seq(|o.base_goals.value|, k requires 0 <= k < |o.base_goals.value| => Normalize(o.base_goals.value[k]))
      else Fresh().base_goals,
      if o.built.Some? then o.built.value else Fresh().built,
      if Truthy(o.home) then o.home else Fresh().home,
      if o.prev_goal.Some? then o.prev_goal else Fresh().prev_goal,
      if o.curr_goal.Some? then o.curr_goal else Fresh().curr_goal)
  }

  /** The parser: null for a missing object, otherwise the defaults overwritten by the
      keys present, with the base goals normalised one by one in order. */
  method FromObject(obj: Option<Obj>) returns (npc: Option<NPCData>)
    ensures obj.None? <==> npc.None?
    ensures obj.Some? ==> npc == Some(Parse(obj.value))
  {
    if obj.None? {
      return None;
    }
    var o := obj.value;
    var d := Fresh();
    if o.base_goals.Some? {
      var raw := o.base_goals.value;
      var goals: seq<Goal> := [];
      var i := 0;
      while i < |raw|
        invariant 0 <= i <= |raw|
        invariant |goals| == i
        invariant forall k :: 0 <= k < i ==> goals[k] == Normalize(raw[k])
      {
        match raw[i] {
          case Bare(s) =>
            goals := goals + [Goal(s, 1)];
          case Record(n, q, _) =>
            goals := goals + [Goal(n, q)];
        }
        i := i + 1;
      }
      assert goals == Parse(o).base_goals;
      d := d.(base_goals := goals);
    }
    if o.built.Some? {
      d := d.(built := o.built.value);
    }
    if Truthy(o.home) {
      d := d.(home := o.home);
    }
    if o.prev_goal.Some? {
      d := d.(prev_goal := o.prev_goal);
    }
    if o.curr_goal.Some? {
      d := d.(curr_goal := o.curr_goal);
    }
    return Some(d);
  }

  /** Parsing keeps the length and order of the stored base goals: a bare name `s` becomes
      {s, 1}, an object keeps its name and quantity and loses its other keys. */
  lemma ParseNormalisesGoals(o: Obj, k: int)
    requires o.base_goals.Some? && 0 <= k < |o.base_goals.value|
    ensures |Parse(o).base_goals| == |o.base_goals.value|
    ensures o.base_goals.value[k].Bare? ==> Parse(o).base_goals[k] == Goal(o.base_goals.value[k].item, 1)
    ensures o.base_goals.value[k].Record? ==>
      Parse(o).base_goals[k] == Goal(o.base_goals.value[k].name, o.base_goals.value[k].quantity)
  {
  }

  /** A key that is absent leaves the corresponding default in place. */
  lemma ParseKeepsDefaults(o: Obj)
    ensures o.base_goals.None? ==> Parse(o).base_goals == []
    ensures o.built.None? ==> Parse(o).built == map[]
    ensures !Truthy(o.home) ==> Parse(o).home.None?
    ensures o.prev_goal.None? ==> Parse(o).prev_goal.None?
    ensures o.curr_goal.None? ==> Parse(o).curr_goal.None?
  {
  }

  /** The default state serialises to the empty object, and the empty object parses back
      to the default state. */
  lemma DefaultRoundTrip()
    ensures ToObject(Fresh()) == EmptyObj
    ensures Parse(EmptyObj) == Fresh()
  {
  }

  /** Parsing undoes serialising exactly when the home, if any, is a non-empty name:
      an empty home name is dropped by the sparse serialisation and read back as null. */
  lemma RoundTrip(d: NPCData)
    ensures Parse(ToObject(d)) == d <==> (d.home.None? || Truthy(d.home))
  {
  }
}
