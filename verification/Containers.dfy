/** libVarContainer.hpp: variables, processes and memories, their JSON form and
    their newest-wins merge. */
module Containers {
  import opened Common

  datatype Json = Null | Bool(b: bool) | Number(n: int) | Str(s: string) | Arr(elems: seq<Json>)
    | Obj(members: map<string, Json>)

  datatype Var = Var(name: string, value: string, timestamp: int)

  datatype Process = Process(vars: map<string, Var>, timestamp: int)

  datatype Memory = Memory(processes: map<string, Process>, timestamp: int)

  // --------------------------------------------------------------- to_json

  function VarToJson(v: Var): Json {
    Obj(map["Name" := Str(v.name), "Value" := Str(v.value), "Timestamp" := Number(v.timestamp)])
  }

  /** A JSON value that nothing was ever put into stays null. */
  function ObjectOf(members: map<string, Json>): Json {
    if members == map[] then Null else Obj(members)
  }

  function VarsToJson(vars: map<string, Var>): map<string, Json> {
    map k | k in vars :: VarToJson(vars[k])
  }

  function ProcessToJson(p: Process): Json {
    Obj(map["vars" := ObjectOf(VarsToJson(p.vars)), "Timestamp" := Number(p.timestamp)])
  }

  function ProcessesToJson(processes: map<string, Process>): map<string, Json> {
    map k | k in processes :: ProcessToJson(processes[k])
  }

  function MemoryToJson(m: Memory): Json {
    Obj(map["process_container" := ObjectOf(ProcessesToJson(m.processes)), "Timestamp" := Number(m.timestamp)])
  }

  // -------------------------------------------------------------- from_json

  /** `json::value(key, 0)`: the default is an int, so the number is cut to 32
      bits. Anything but a number or a bool throws, as does a non-object. */
  function IntField(j: Json, key: string): Option<int> {
    if !j.Obj? then None
    else if key !in j.members then Some(0)
    else match j.members[key]
      case Number(n) => Some(ToInt32(n))
      case Bool(b) => Some(if b then 1 else 0)
      case _ => None
  }

  function ToInt32(n: int): (r: int)
    ensures -0x8000_0000 <= r < 0x8000_0000
    ensures r == n <==> -0x8000_0000 <= n < 0x8000_0000
    ensures (r - n) % 0x1_0000_0000 == 0
  {
    (n + 0x8000_0000) % 0x1_0000_0000 - 0x8000_0000
  }

  /** `json::value(key, "")`. */
  function TextField(j: Json, key: string): Option<string> {
    if !j.Obj? then None
    else if key !in j.members then Some("")
    else match j.members[key]
      case Str(s) => Some(s)
      case _ => None
  }

  function VarFromJson(j: Json): Option<Var> {
    match (TextField(j, "Name"), TextField(j, "Value"), IntField(j, "Timestamp"))
    case (Some(name), Some(value), Some(timestamp)) => Some(Var(name, value, timestamp))
    case _ => None
  }

  /** The members of an object-valued field; a field that is missing or not an
      object counts as empty. */
  function ObjectField(j: Json, key: string): map<string, Json> {
    if j.Obj? && key in j.members && j.members[key].Obj? then j.members[key].members else map[]
  }

  function VarsFromJson(members: map<string, Json>): Option<map<string, Var>> {
    if forall k :: k in members ==> VarFromJson(members[k]).Some?
    then Some(map k | k in members :: VarFromJson(members[k]).value)
    else None
  }

  function ProcessFromJson(j: Json): Option<Process> {
    match (VarsFromJson(ObjectField(j, "vars")), IntField(j, "Timestamp"))
    case (Some(vars), Some(timestamp)) => Some(Process(vars, timestamp))
    case _ => None
  }

  function ProcessesFromJson(members: map<string, Json>): Option<map<string, Process>> {
    if forall k :: k in members ==> ProcessFromJson(members[k]).Some?
    then Some(map k | k in members :: ProcessFromJson(members[k]).value)
    else None
  }

  function MemoryFromJson(j: Json): Option<Memory> {
    match (ProcessesFromJson(ObjectField(j, "process_container")), IntField(j, "Timestamp"))
    case (Some(processes), Some(timestamp)) => Some(Memory(processes, timestamp))
    case _ => None
  }

  // ------------------------------------------------------- names and defaults

  /** The fields of a variable under their names. */
  lemma VarFields(v: Var)
    ensures
      var j := VarToJson(v);
      && j.Obj? && j.members.Keys == {"Name", "Value", "Timestamp"}
      && j.members["Name"] == Str(v.name) && j.members["Value"] == Str(v.value)
      && j.members["Timestamp"] == Number(v.timestamp)
  {
  }

  /** A process holds its variables under their ids, in "vars"; a memory its
      processes, in "process_container". */
  lemma ProcessFields(p: Process)
    ensures
      var j := ProcessToJson(p);
      && j.Obj? && j.members.Keys == {"vars", "Timestamp"} && j.members["Timestamp"] == Number(p.timestamp)
      && (p.vars == map[] ==> j.members["vars"] == Null)
      && (p.vars != map[] ==>
            && j.members["vars"].Obj? && j.members["vars"].members.Keys == p.vars.Keys
            && forall id :: id in p.vars ==> j.members["vars"].members[id] == VarToJson(p.vars[id]))
  {
    hide VarToJson;
    assert VarsToJson(p.vars).Keys == p.vars.Keys;
  }

  lemma MemoryFields(m: Memory)
    ensures
      var j := MemoryToJson(m);
      && j.Obj? && j.members.Keys == {"process_container", "Timestamp"}
      && j.members["Timestamp"] == Number(m.timestamp)
      && (m.processes == map[] ==> j.members["process_container"] == Null)
      && (m.processes != map[] ==>
            && j.members["process_container"].Obj? && j.members["process_container"].members.Keys == m.processes.Keys
            && forall pid :: pid in m.processes ==>
                 j.members["process_container"].members[pid] == ProcessToJson(m.processes[pid]))
  {
    hide ProcessToJson;
    assert ProcessesToJson(m.processes).Keys == m.processes.Keys;
  }

  /** What reading makes of missing fields, and what it does not accept. */
  lemma ReadingDefaults(j: Json)
    ensures VarFromJson(Obj(map[])) == Some(Var("", "", 0))
    ensures ProcessFromJson(Obj(map[])) == Some(Process(map[], 0))
    ensures MemoryFromJson(Obj(map[])) == Some(Memory(map[], 0))
    ensures forall b :: VarFromJson(Obj(map["Timestamp" := Bool(b)])) == Some(Var("", "", if b then 1 else 0))
    ensures !j.Obj? ==> VarFromJson(j).None? && ProcessFromJson(j).None? && MemoryFromJson(j).None?
    ensures VarFromJson(j).Some? <==>
      && j.Obj?
      && (forall key :: key in j.members && (key == "Name" || key == "Value") ==> j.members[key].Str?)
      && ("Timestamp" in j.members ==> j.members["Timestamp"].Number? || j.members["Timestamp"].Bool?)
  {
    assert VarsFromJson(map[]) == Some(map[]);
    assert ProcessesFromJson(map[]) == Some(map[]);
  }

  // -------------------------------------------------------------- round trips

  predicate Fits(timestamp: int) {
    -0x8000_0000 <= timestamp < 0x8000_0000
  }

  predicate ProcessFits(p: Process) {
    Fits(p.timestamp) && forall k :: k in p.vars ==> Fits(p.vars[k].timestamp)
  }

  predicate MemoryFits(m: Memory) {
    Fits(m.timestamp) && forall k :: k in m.processes ==> ProcessFits(m.processes[k])
  }

  lemma FitsIff(v: Var)
    ensures v.(timestamp := ToInt32(v.timestamp)) == v <==> Fits(v.timestamp)
  {
  }

  lemma VarThroughJson(v: Var)
    ensures VarFromJson(VarToJson(v)) == Some(v.(timestamp := ToInt32(v.timestamp)))
  {
  }

  lemma ObjectFieldOfObject(key: string, members: map<string, Json>, timestamp: int)
    requires key != "Timestamp"
    ensures ObjectField(Obj(map[key := ObjectOf(members), "Timestamp" := Number(timestamp)]), key) == members
  {
  }

  lemma VarsRoundTrip(vars: map<string, Var>)
    ensures VarsFromJson(VarsToJson(vars)).Some?
    ensures VarsFromJson(VarsToJson(vars)).value == vars <==> forall k :: k in vars ==> Fits(vars[k].timestamp)
  {
    hide VarFromJson, VarToJson;
    var members := VarsToJson(vars);
    forall k | k in vars
      ensures VarFromJson(members[k]) == Some(vars[k].(timestamp := ToInt32(vars[k].timestamp)))
    {
      VarThroughJson(vars[k]);
    }
    var back := VarsFromJson(members).value;
    assert back.Keys == vars.Keys;
    forall k | k in vars
      ensures back[k] == vars[k] <==> Fits(vars[k].timestamp)
    {
      FitsIff(vars[k]);
    }
  }

  /** Reading a process back gives the same process if and only if all its
      timestamps fit in 32 bits; no variables at all travel as null. */
  lemma ProcessRoundTrip(p: Process)
    ensures ProcessFromJson(ProcessToJson(p)).Some?
    ensures ProcessFromJson(ProcessToJson(p)) == Some(p) <==> ProcessFits(p)
  {
    ObjectFieldOfObject("vars", VarsToJson(p.vars), p.timestamp);
    VarsRoundTrip(p.vars);
  }

  lemma ProcessesRoundTrip(processes: map<string, Process>)
    ensures ProcessesFromJson(ProcessesToJson(processes)).Some?
    ensures ProcessesFromJson(ProcessesToJson(processes)).value == processes
      <==> forall k :: k in processes ==> ProcessFits(processes[k])
  {
    hide ProcessFits, ProcessFromJson, ProcessToJson;
    var members := ProcessesToJson(processes);
    forall k | k in processes
      ensures ProcessFromJson(members[k]).Some?
      ensures ProcessFromJson(members[k]).value == processes[k] <==> ProcessFits(processes[k])
    {
      ProcessRoundTrip(processes[k]);
    }
    var back := ProcessesFromJson(members).value;
    assert back.Keys == processes.Keys;
    assert forall k :: k in processes ==> (back[k] == processes[k] <==> ProcessFits(processes[k]));
  }

  /** The same for whole memories. */
  lemma MemoryRoundTrip(m: Memory)
    ensures MemoryFromJson(MemoryToJson(m)).Some?
    ensures MemoryFromJson(MemoryToJson(m)) == Some(m) <==> MemoryFits(m)
  {
    ObjectFieldOfObject("process_container", ProcessesToJson(m.processes), m.timestamp);
    ProcessesRoundTrip(m.processes);
  }

  // --------------------------------------------------------------------- Sync

  /** The side `Sync` keeps: the newer one, and the other side on a tie. */
  function NewerVar(mine: Var, other: Var): Var {
    if other.timestamp >= mine.timestamp then other else mine
  }

  function NewerProcess(mine: Process, other: Process): Process {
    if other.timestamp >= mine.timestamp then other else mine
  }

  // ---------------------------------------------------------------- classes

  class VarContainer {
    var name: string
    var value: string
    var timestamp: int

    function Contents(): Var
      reads this
    {
      Var(name, value, timestamp)
    }

    constructor (v: Var)
      ensures Contents() == v
    {
      name, value, timestamp := v.name, v.value, v.timestamp;
    }

    /** libVarContainer.hpp:19-25: both sides end up with the newer content. */
    method Sync(other: VarContainer)
      modifies this, other
      ensures Contents() == other.Contents() == NewerVar(old(Contents()), old(other.Contents()))
    {
      if other.timestamp >= timestamp {
        name, value, timestamp := other.name, other.value, other.timestamp;
      } else {
        other.name, other.value, other.timestamp := name, value, timestamp;
      }
    }

    /** libVarContainer.hpp:37-41; `ok` is false where the library throws. */
    method FromJson(j: Json) returns (ok: bool)
      modifies this
      ensures ok <==> VarFromJson(j).Some?
      ensures ok ==> Contents() == VarFromJson(j).value
    {
      var n := TextField(j, "Name");
      if n.None? {
        return false;
      }
      name := n.value;
      var v := TextField(j, "Value");
      if v.None? {
        return false;
      }
      value := v.value;
      var t := IntField(j, "Timestamp");
      if t.None? {
        return false;
      }
      timestamp := t.value;
      return true;
    }
  }

  class ProcessContainer {
    var vars: map<string, Var>
    var timestamp: int

    function Contents(): Process
      reads this
    {
      Process(vars, timestamp)
    }

    constructor (p: Process)
      ensures Contents() == p
    {
      vars, timestamp := p.vars, p.timestamp;
    }

    /** libVarContainer.hpp:50-56. */
    method Sync(other: ProcessContainer)
      modifies this, other
      ensures Contents() == other.Contents() == NewerProcess(old(Contents()), old(other.Contents()))
    {
      if other.timestamp >= timestamp {
        vars, timestamp := other.vars, other.timestamp;
      } else {
        other.vars, other.timestamp := vars, timestamp;
      }
    }

    /** libVarContainer.hpp:59-68. */
    method ToJson() returns (j: Json)
      ensures j == ProcessToJson(Contents())
    {
      var members: map<string, Json> := map[];
      var left := vars.Keys;
      while left != {}
        invariant left <= vars.Keys && members.Keys == vars.Keys - left
        invariant forall k :: k in members ==> members[k] == VarToJson(vars[k])
        decreases left
      {
        var k :| k in left;
        members := members[k := VarToJson(vars[k])];
        left := left - {k};
      }
      assert members == VarsToJson(vars);
      j := Obj(map["vars" := ObjectOf(members), "Timestamp" := Number(timestamp)]);
    }

    /** libVarContainer.hpp:71-82. */
    method FromJson(j: Json) returns (ok: bool)
      modifies this
      ensures ok <==> ProcessFromJson(j).Some?
      ensures ok ==> Contents() == ProcessFromJson(j).value
    {
      vars := map[];
      var members := ObjectField(j, "vars");
      var left := members.Keys;
      while left != {}
        invariant left <= members.Keys && vars.Keys == members.Keys - left
        invariant forall k :: k in vars ==> VarFromJson(members[k]) == Some(vars[k])
        decreases left
      {
        var k :| k in left;
        var v := new VarContainer(Var("", "", 0));
        ok := v.FromJson(members[k]);
        if !ok {
          return;
        }
        vars := vars[k := v.Contents()];
        left := left - {k};
      }
      assert vars == VarsFromJson(members).value;
      var t := IntField(j, "Timestamp");
      if t.None? {
        return false;
      }
      timestamp := t.value;
      return true;
    }
  }

  class MemoryContainer {
    var processes: map<string, Process>
    var timestamp: int

    function Contents(): Memory
      reads this
    {
      Memory(processes, timestamp)
    }

    constructor (m: Memory)
      ensures Contents() == m
    {
      processes, timestamp := m.processes, m.timestamp;
    }

    /** libVarContainer.hpp:100-109. */
    method ToJson() returns (j: Json)
      ensures j == MemoryToJson(Contents())
    {
      var members: map<string, Json> := map[];
      var left := processes.Keys;
      while left != {}
        invariant left <= processes.Keys && members.Keys == processes.Keys - left
        invariant forall k :: k in members ==> members[k] == ProcessToJson(processes[k])
        decreases left
      {
        var k :| k in left;
        var p := new ProcessContainer(processes[k]);
        var encoded := p.ToJson();
        members := members[k := encoded];
        left := left - {k};
      }
      assert members == ProcessesToJson(processes);
      j := Obj(map["process_container" := ObjectOf(members), "Timestamp" := Number(timestamp)]);
    }

    /** libVarContainer.hpp:112-123. */
    method FromJson(j: Json) returns (ok: bool)
      modifies this
      ensures ok <==> MemoryFromJson(j).Some?
      ensures ok ==> Contents() == MemoryFromJson(j).value
    {
      processes := map[];
      var members := ObjectField(j, "process_container");
      var left := members.Keys;
      while left != {}
        invariant left <= members.Keys && processes.Keys == members.Keys - left
        invariant forall k :: k in processes ==> ProcessFromJson(members[k]) == Some(processes[k])
        decreases left
      {
        var k :| k in left;
        var p := new ProcessContainer(Process(map[], 0));
        ok := p.FromJson(members[k]);
        if !ok {
          return;
        }
        processes := processes[k := p.Contents()];
        left := left - {k};
      }
      assert processes == ProcessesFromJson(members).value;
      var t := IntField(j, "Timestamp");
      if t.None? {
        return false;
      }
      timestamp := t.value;
      return true;
    }

    /** libVarContainer.hpp:126-129. */
    method Clear()
      modifies this
      ensures Contents() == Memory(map[], 0)
    {
      processes := map[];
      timestamp := 0;
    }
  }

  /** A memory written out and read into another container arrives unchanged
      whenever all its timestamps fit. */
  method Transfer(source: MemoryContainer, target: MemoryContainer) returns (ok: bool)
    requires source != target
    modifies target
    ensures ok && (target.Contents() == source.Contents() <==> MemoryFits(source.Contents()))
  {
    var j := source.ToJson();
    MemoryRoundTrip(source.Contents());
    ok := target.FromJson(j);
  }
}
