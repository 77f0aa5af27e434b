/** The commands on whole processes, registration, waiting and hanging up, each
    run by its thread alone: what they leave behind, field by field. */
module Processes {
  import opened Common
  import opened Containers
  import opened Sections
  import opened Threads
  import opened Waiting
  import opened Server
  import opened Alone

  // ------------------------------------------------------- several steps

  lemma StepsNone(s: State, c: Client)
    ensures Steps(s, c, []) == s
  {
  }

  /** A step with a known plan, and the steps after it. */
  lemma MoveThen(s: State, c: Client, g: Globals, pc: Pc, a: Action, section: Section, next: Pc,
                 lock: Option<Client>, rest: seq<Action>)
    requires Silent(section)
    requires NextPlan(g, s.lock, c, ThreadOf(s, c).(pc := pc), a) == Plan(section, next, ThreadOf(s, c).sub, lock)
    ensures Steps(At(s, c, g, pc), c, [a] + rest) == Steps(At(s.(lock := lock), c, Do(g, c, section), next), c, rest)
  {
    hide NextPlan, Do, Steps;
    assert s.threads[c := ThreadOf(s, c).(pc := pc)][c := ThreadOf(s, c).(pc := next)]
      == s.threads[c := ThreadOf(s, c).(pc := next)];
    assert Step(At(s, c, g, pc), c, a) == At(s.(lock := lock), c, Do(g, c, section), next);
    StepsFirst(At(s, c, g, pc), c, a, rest);
  }

  /** The same for a step that only looks. */
  lemma LookThen(s: State, c: Client, g: Globals, pc: Pc, a: Action, next: Pc, rest: seq<Action>)
    requires NextPlan(g, s.lock, c, ThreadOf(s, c).(pc := pc), a) == Plan(Nothing, next, ThreadOf(s, c).sub, s.lock)
    ensures Steps(At(s, c, g, pc), c, [a] + rest) == Steps(At(s, c, g, next), c, rest)
  {
    hide NextPlan, Steps;
    MoveThen(s, c, g, pc, a, Nothing, next, s.lock, rest);
    assert s.(lock := s.lock) == s;
  }

  /** A command of a client with a session, up to where its process id is read. */
  lemma AdmittedThen(s: State, c: Client, cmd: Command, rest: seq<Action>)
    requires s.lock.None? && ThreadOf(s, c).pc.Idle? && c in s.g.sessions
    requires !cmd.RegProcess? && !cmd.Login? && !cmd.RegSub? && !cmd.WaitProcess?
    ensures Steps(s, c, [Begin(cmd)] + ([Proceed] + rest)) == Steps(At(s, c, s.g, Bound(cmd, s.g.sessions[c])), c, rest)
  {
    hide Steps;
    FirstMove(s, c, cmd, Admitted(cmd));
    StepsFirst(s, c, Begin(cmd), [Proceed] + rest);
    LookThen(s, c, s.g, Admitted(cmd), Proceed, Bound(cmd, s.g.sessions[c]), rest);
  }

  // ------------------------------------------------------- many signals

  /** How often the key has been signalled. */
  function Version(g: Globals, key: Key): nat {
    if key in g.states then SignalsOf(g, g.states[key]) else 0
  }

  ghost predicate IsOrder(order: seq<Key>, keys: set<Key>) {
    (forall i, j :: 0 <= i < j < |order| ==> order[i] != order[j]) && (forall k :: k in keys <==> k in order)
  }

  function EachSignal(order: seq<Key>, rest: seq<Action>): seq<Action> {
    if order == [] then rest else [Signal(order[0])] + ([Proceed] + EachSignal(order[1..], rest))
  }

  function SignalledAll(g: Globals, c: Client, order: seq<Key>): Globals
    decreases |order|
  {
    if order == [] then g else SignalledAll(Signalled(g, c, order[0]), c, order[1..])
  }

  lemma OneSignal(s: State, c: Client, g: Globals, key: Key, keys: set<Key>, erasing: Option<string>, rest: seq<Action>)
    requires key in keys
    ensures Steps(At(s, c, g, Signalling(keys, erasing)), c, [Signal(key)] + ([Proceed] + rest))
      == Steps(At(s, c, Signalled(g, c, key), Signalling(keys - {key}, erasing)), c, rest)
  {
    hide Do, Steps;
    var ref := RefAfterIntern(g, key);
    var left := keys - {key};
    InternGivesRef(g, c, key);
    MoveThen(s, c, g, Signalling(keys, erasing), Signal(key), Intern(key), Bumping(ref, key, left, erasing), s.lock,
      [Proceed] + rest);
    assert s.(lock := s.lock) == s;
    MoveThen(s, c, Do(g, c, Intern(key)), Bumping(ref, key, left, erasing), Proceed, Bump(ref),
      Signalling(left, erasing), s.lock, rest);
  }

  lemma OrderTail(order: seq<Key>, keys: set<Key>)
    requires IsOrder(order, keys) && order != []
    ensures order[0] in keys && IsOrder(order[1..], keys - {order[0]})
  {
    assert order == [order[0]] + order[1..];
  }

  /** Keys are signalled in any order, one after the other. */
  lemma {:induction false} SignalsInOrder(s: State, c: Client, g: Globals, keys: set<Key>, erasing: Option<string>,
                                          order: seq<Key>, rest: seq<Action>)
    requires IsOrder(order, keys)
    ensures Steps(At(s, c, g, Signalling(keys, erasing)), c, EachSignal(order, rest))
      == Steps(At(s, c, SignalledAll(g, c, order), Signalling({}, erasing)), c, rest)
    decreases |order|
  {
    hide Steps, Signalled;
    if order == [] {
      assert keys == {};
    } else {
      OrderTail(order, keys);
      OneSignal(s, c, g, order[0], keys, erasing, EachSignal(order[1..], rest));
      SignalsInOrder(s, c, Signalled(g, c, order[0]), keys - {order[0]}, erasing, order[1..], rest);
    }
  }

  lemma SignalledVersion(g: Globals, c: Client, key: Key, k: Key)
    requires StatesInv(g)
    ensures Version(Signalled(g, c, key), k) == Version(g, k) + if k == key then 1 else 0
  {
    hide Signalled;
    SignalledKeeps(g, c, key);
    if k != key {
      OtherVersion(g, c, key, k);
    }
  }

  lemma OtherVersion(g: Globals, c: Client, key: Key, k: Key)
    requires StatesInv(g) && k != key
    ensures Version(Signalled(g, c, key), k) == Version(g, k)
  {
    hide Do, StatesInv;
    InternOther(g, c, key, k);
    SectionGrowsStates(g, c, Intern(key));
    var h := Do(g, c, Intern(key));
    Interned(g, c, key);
    BumpOther(h, c, key, k);
  }

  lemma InternOther(g: Globals, c: Client, key: Key, k: Key)
    requires StatesInv(g) && k != key
    ensures Version(Do(g, c, Intern(key)), k) == Version(g, k)
  {
  }

  lemma BumpOther(g: Globals, c: Client, key: Key, k: Key)
    requires StatesInv(g) && k != key && key in g.states
    ensures Version(Do(g, c, Bump(g.states[key])), k) == Version(g, k)
  {
  }

  /** Each of them moves its own version by one, and nothing else changes. */
  lemma {:induction false} AllVersions(g: Globals, c: Client, keys: set<Key>, order: seq<Key>)
    requires StatesInv(g) && IsOrder(order, keys)
    ensures
      var h := SignalledAll(g, c, order);
      && StatesInv(h) && h == g.(states := h.states, signals := h.signals)
      && forall k :: Version(h, k) == Version(g, k) + if k in keys then 1 else 0
    decreases |order|
  {
    hide Signalled, StatesInv, Version;
    if order == [] {
    } else {
      var next := Signalled(g, c, order[0]);
      OrderTail(order, keys);
      SignalledKeeps(g, c, order[0]);
      forall k
        ensures Version(next, k) == Version(g, k) + if k == order[0] then 1 else 0
      {
        SignalledVersion(g, c, order[0], k);
      }
      AllVersions(next, c, keys - {order[0]}, order[1..]);
    }
  }

  // ------------------------------------------------------- del process

  /** server.cpp:397-437, with the variables signalled in the given order. */
  function DelActions(pid: string, order: seq<Key>): seq<Action> {
    [Begin(DelProcess)] + ([Proceed] + ([Proceed] + ([Proceed]
      + EachSignal(order, [Proceed] + ([Proceed] + EachSignal([ProcKey(pid)], [Proceed] + []))))))
  }

  /** The globals after the variables were signalled, the process erased and the
      registry cleaned up. */
  function Deleted(g: Globals, c: Client, pid: string, order: seq<Key>): Globals {
    var erased := Do(SignalledAll(g, c, order), c, EraseProcess(pid));
    SignalledAll(Do(erased, c, CleanUp(pid)), c, [ProcKey(pid)])
  }

  lemma OneKey(key: Key)
    ensures IsOrder([key], {key})
  {
  }

  /** The plans of `del process`, step by step. */
  lemma DelPlans(g: Globals, lock: Option<Client>, c: Client, t: Thread, pid: string)
    ensures
      var cmd := DelProcess;
      var keys := VarKeys(pid, VarsAt(g, pid));
      && (lock.None? && pid in g.store ==>
            && NextPlan(g, lock, c, t.(pc := Bound(cmd, pid)), Proceed) == Plan(Nothing, Found(cmd, pid), t.sub, None)
            && NextPlan(g, lock, c, t.(pc := Found(cmd, pid)), Proceed)
              == Plan(Nothing, Signalling(keys, Some(pid)), t.sub, Some(c)))
      && NextPlan(g, lock, c, t.(pc := Signalling({}, Some(pid))), Proceed)
        == Plan(EraseProcess(pid), Cleaning(pid), t.sub, None)
      && NextPlan(g, lock, c, t.(pc := Cleaning(pid)), Proceed)
        == Plan(CleanUp(pid), Signalling({ProcKey(pid)}, None), t.sub, lock)
  {
  }

  /** With nothing left to signal and nothing to erase the command is done. */
  lemma DonePlan(g: Globals, lock: Option<Client>, c: Client, t: Thread)
    ensures NextPlan(g, lock, c, t.(pc := Signalling({}, None)), Proceed) == Plan(Nothing, Idle, t.sub, lock)
  {
  }

  lemma DelRuns(s: State, c: Client, pid: string, order: seq<Key>)
    requires s.lock.None? && ThreadOf(s, c).pc.Idle? && c in s.g.sessions && s.g.sessions[c] == pid
    requires pid in s.g.store && IsOrder(order, VarKeys(pid, VarsAt(s.g, pid)))
    ensures Steps(s, c, DelActions(pid, order)) == At(s, c, Deleted(s.g, c, pid, order), Idle)
  {
    hide Steps, Do, Signalled, NextPlan;
    var g := s.g;
    var t := ThreadOf(s, c);
    var held := s.(lock := Some(c));
    var last := [Proceed] + [];
    var cleaned := [Proceed] + ([Proceed] + EachSignal([ProcKey(pid)], last));
    var keys := VarKeys(pid, VarsAt(g, pid));
    var h := SignalledAll(g, c, order);
    var erased := Do(h, c, EraseProcess(pid));
    var clean := Do(erased, c, CleanUp(pid));
    DelPlans(g, None, c, t, pid);
    DelPlans(h, Some(c), c, t, pid);
    DelPlans(erased, None, c, t, pid);
    DonePlan(SignalledAll(clean, c, [ProcKey(pid)]), None, c, t);
    AdmittedThen(s, c, DelProcess, [Proceed] + ([Proceed] + EachSignal(order, cleaned)));
    LookThen(s, c, g, Bound(DelProcess, pid), Proceed, Found(DelProcess, pid), [Proceed] + EachSignal(order, cleaned));
    NothingDone(g, c);
    MoveThen(s, c, g, Found(DelProcess, pid), Proceed, Nothing, Signalling(keys, Some(pid)), Some(c),
      EachSignal(order, cleaned));
    SignalsInOrder(held, c, g, keys, Some(pid), order, cleaned);
    MoveThen(held, c, h, Signalling({}, Some(pid)), Proceed, EraseProcess(pid), Cleaning(pid), None,
      [Proceed] + EachSignal([ProcKey(pid)], last));
    assert held.(lock := None) == s;
    MoveThen(s, c, erased, Cleaning(pid), Proceed, CleanUp(pid), Signalling({ProcKey(pid)}, None), None,
      EachSignal([ProcKey(pid)], last));
    assert s.(lock := None) == s;
    OneKey(ProcKey(pid));
    SignalsInOrder(s, c, clean, {ProcKey(pid)}, None, [ProcKey(pid)], last);
    LookThen(s, c, SignalledAll(clean, c, [ProcKey(pid)]), Signalling({}, None), Proceed, Idle, []);
    StepsNone(At(s, c, SignalledAll(clean, c, [ProcKey(pid)]), Idle), c);
  }

  lemma EraseDoes(g: Globals, c: Client, pid: string)
    ensures Do(g, c, EraseProcess(pid)) == g.(store := g.store - {pid})
  {
  }

  lemma SameStates(g: Globals, h: Globals)
    requires g.states == h.states && g.signals == h.signals
    ensures StatesInv(g) ==> StatesInv(h)
    ensures forall k :: Version(g, k) == Version(h, k)
  {
  }

  /** `del process`, run to its end: the process is gone from the store, with its
      subprocess list, the listed proofs and the client's session; every other
      entry stays; and each of its variables, and its own end, has been signalled
      exactly once. */
  lemma DelProcessAlone(s: State, c: Client, pid: string, order: seq<Key>)
    requires s.lock.None? && ThreadOf(s, c).pc.Idle? && StatesInv(s.g)
    requires c in s.g.sessions && s.g.sessions[c] == pid && pid in s.g.store
    requires IsOrder(order, VarKeys(pid, s.g.store[pid].vars.Keys))
    ensures
      var t := Steps(s, c, DelActions(pid, order));
      var listed := if pid in s.g.subs then s.g.subs[pid] else {};
      && ThreadOf(t, c) == ThreadOf(s, c) && t.lock.None?
      && t.g.store == s.g.store - {pid} && t.g.sessions == s.g.sessions - {c}
      && t.g.subs == s.g.subs - {pid} && t.g.proofs == s.g.proofs - listed
      && forall k :: Version(t.g, k) == Version(s.g, k)
           + if k == ProcKey(pid) || (k.VarKey? && k.pid == pid && k.id in s.g.store[pid].vars) then 1 else 0
  {
    hide Steps, Do, Signalled, StatesInv, Version, DelActions;
    var g := s.g;
    var keys := VarKeys(pid, VarsAt(g, pid));
    DelRuns(s, c, pid, order);
    var h := SignalledAll(g, c, order);
    AllVersions(g, c, keys, order);
    var erased := Do(h, c, EraseProcess(pid));
    EraseDoes(h, c, pid);
    var clean := Do(erased, c, CleanUp(pid));
    CleanUpDoes(erased, c, pid);
    SameStates(h, clean);
    OneKey(ProcKey(pid));
    AllVersions(clean, c, {ProcKey(pid)}, [ProcKey(pid)]);
  }

  lemma LookPlans(g: Globals, c: Client, t: Thread, pid: string, cmd: Command)
    ensures pid in g.store ==>
      NextPlan(g, None, c, t.(pc := Bound(GetProcess, pid)), Proceed) == Plan(Nothing, Idle, t.sub, None)
    ensures pid !in g.store && (cmd.GetProcess? || cmd.DelProcess? || cmd.SyncProcess?) ==>
      NextPlan(g, None, c, t.(pc := Bound(cmd, pid)), Proceed) == Plan(Nothing, Missing, t.sub, None)
    ensures NextPlan(g, None, c, t.(pc := Missing), Proceed) == Plan(EraseSession, Idle, t.sub, None)
  {
  }

  /** A command on a process that is not there ends the session and does nothing
      else. */
  lemma MissingProcessAlone(s: State, c: Client, cmd: Command)
    requires s.lock.None? && ThreadOf(s, c).pc.Idle? && c in s.g.sessions && s.g.sessions[c] !in s.g.store
    requires cmd.GetProcess? || cmd.DelProcess? || cmd.SyncProcess?
    ensures Steps(s, c, [Begin(cmd)] + ([Proceed] + ([Proceed] + ([Proceed] + []))))
      == At(s, c, s.g.(sessions := s.g.sessions - {c}), Idle)
  {
    hide Steps, NextPlan;
    var g, pid := s.g, s.g.sessions[c];
    LookPlans(g, c, ThreadOf(s, c), pid, cmd);
    AdmittedThen(s, c, cmd, [Proceed] + ([Proceed] + []));
    LookThen(s, c, g, Bound(cmd, pid), Proceed, Missing, [Proceed] + []);
    MoveThen(s, c, g, Missing, Proceed, EraseSession, Idle, None, []);
    assert s.(lock := None) == s;
    StepsNone(At(s, c, g.(sessions := g.sessions - {c}), Idle), c);
  }

  /** `get process` changes nothing. */
  lemma GetProcessAlone(s: State, c: Client)
    requires s.lock.None? && ThreadOf(s, c).pc.Idle? && c in s.g.sessions && s.g.sessions[c] in s.g.store
    ensures Steps(s, c, [Begin(GetProcess)] + ([Proceed] + ([Proceed] + []))) == At(s, c, s.g, Idle)
  {
    hide Steps, NextPlan;
    LookPlans(s.g, c, ThreadOf(s, c), s.g.sessions[c], GetProcess);
    AdmittedThen(s, c, GetProcess, [Proceed] + []);
    LookThen(s, c, s.g, Bound(GetProcess, s.g.sessions[c]), Proceed, Idle, []);
    StepsNone(At(s, c, s.g, Idle), c);
  }

  /** Without a session every command but registering and logging in is refused. */
  lemma RefusedAlone(s: State, c: Client, cmd: Command)
    requires s.lock.None? && ThreadOf(s, c).pc.Idle? && c !in s.g.sessions && !cmd.RegProcess? && !cmd.Login?
    ensures Steps(s, c, [Begin(cmd)] + []) == At(s, c, s.g, Idle)
  {
    hide Steps;
    FirstMove(s, c, cmd, Idle);
    StepsFirst(s, c, Begin(cmd), []);
    StepsNone(At(s, c, s.g, Idle), c);
  }

  // ------------------------------------------------------- set and sync process

  /** The steps of a command on a process from where it stores, on. */
  function StoreActions(order: seq<Key>): seq<Action> {
    [Proceed] + EachSignal(order, [Proceed] + [])
  }

  /** The plans of the two commands up to there. */
  lemma StorePlans(g: Globals, c: Client, t: Thread, pid: string, process: Process)
    ensures
      var before := VarsAt(g, pid);
      var merged := NewerProcess(ProcessAt(g, pid), process);
      var setting, syncing := SetProcess(process), SyncProcess(process);
      && NextPlan(g, None, c, t.(pc := Bound(setting, pid)), Proceed)
        == Plan(Nothing, Replacing(pid, process, before), t.sub, None)
      && NextPlan(g, None, c, t.(pc := Replacing(pid, process, before)), Proceed)
        == Plan(PutProcess(pid, process), Signalling(VarKeys(pid, before + process.vars.Keys), None), t.sub, None)
      && (pid in g.store ==>
            NextPlan(g, None, c, t.(pc := Bound(syncing, pid)), Proceed)
              == Plan(Nothing, Found(syncing, pid), t.sub, None))
      && NextPlan(g, None, c, t.(pc := Found(syncing, pid)), Proceed)
        == Plan(Nothing, Merging(pid, process, before), t.sub, None)
      && NextPlan(g, None, c, t.(pc := Merging(pid, process, before)), Proceed)
        == Plan(SyncProcessIn(pid, process), Signalling(VarKeys(pid, before + merged.vars.Keys), None), t.sub, None)
  {
  }

  lemma StoreDoes(g: Globals, c: Client, pid: string, process: Process)
    ensures Do(g, c, PutProcess(pid, process)) == g.(store := g.store[pid := process])
    ensures pid in g.store ==>
      Do(g, c, SyncProcessIn(pid, process)) == g.(store := g.store[pid := NewerProcess(g.store[pid], process)])
  {
  }

  lemma StoreRuns(s: State, c: Client, pc: Pc, section: Section, keys: set<Key>, order: seq<Key>)
    requires pc.Replacing? || pc.Merging?
    requires s.lock.None? && Silent(section) && IsOrder(order, keys)
    requires NextPlan(s.g, None, c, ThreadOf(s, c).(pc := pc), Proceed)
      == Plan(section, Signalling(keys, None), ThreadOf(s, c).sub, None)
    ensures Steps(At(s, c, s.g, pc), c, StoreActions(order))
      == At(s, c, SignalledAll(Do(s.g, c, section), c, order), Idle)
  {
    hide Steps, Do, Signalled, NextPlan;
    var last := [Proceed] + [];
    var h := Do(s.g, c, section);
    DonePlan(SignalledAll(h, c, order), None, c, ThreadOf(s, c));
    MoveThen(s, c, s.g, pc, Proceed, section, Signalling(keys, None), None, EachSignal(order, last));
    assert s.(lock := None) == s;
    SignalsInOrder(s, c, h, keys, None, order, last);
    LookThen(s, c, SignalledAll(h, c, order), Signalling({}, None), Proceed, Idle, []);
    StepsNone(At(s, c, SignalledAll(h, c, order), Idle), c);
  }

  /** What the two commands leave: one process stored, and a signal for each
      variable it had or has. */
  ghost predicate Stored(g: Globals, h: Globals, pid: string, process: Process) {
    && h.store == g.store[pid := process]
    && h.sessions == g.sessions && h.subs == g.subs && h.proofs == g.proofs
    && forall k :: Version(h, k) == Version(g, k)
         + if k.VarKey? && k.pid == pid && (k.id in process.vars || (pid in g.store && k.id in g.store[pid].vars))
           then 1 else 0
  }

  lemma StoredAll(g: Globals, c: Client, pid: string, process: Process, section: Section, keys: set<Key>,
                  order: seq<Key>)
    requires StatesInv(g) && IsOrder(order, keys) && Do(g, c, section) == g.(store := g.store[pid := process])
    requires keys == VarKeys(pid, VarsAt(g, pid) + process.vars.Keys)
    ensures Stored(g, SignalledAll(Do(g, c, section), c, order), pid, process)
  {
    hide StatesInv, Version, SignalledAll, Do;
    SameStates(g, Do(g, c, section));
    AllVersions(Do(g, c, section), c, keys, order);
  }

  /** `set process`, run to its end, stores the given process. */
  lemma SetProcessAlone(s: State, c: Client, process: Process, order: seq<Key>)
    requires s.lock.None? && ThreadOf(s, c).pc.Idle? && StatesInv(s.g) && c in s.g.sessions
    requires
      var pid := s.g.sessions[c];
      IsOrder(order, VarKeys(pid, VarsAt(s.g, pid) + process.vars.Keys))
    ensures
      var t := Steps(s, c, [Begin(SetProcess(process))] + ([Proceed] + ([Proceed] + StoreActions(order))));
      ThreadOf(t, c) == ThreadOf(s, c) && t.lock.None? && Stored(s.g, t.g, s.g.sessions[c], process)
  {
    hide Steps, StatesInv, Stored, StoreActions, NextPlan, Do;
    var g, pid, cmd := s.g, s.g.sessions[c], SetProcess(process);
    StorePlans(g, c, ThreadOf(s, c), pid, process);
    StoreDoes(g, c, pid, process);
    var before := VarsAt(g, pid);
    AdmittedThen(s, c, cmd, [Proceed] + StoreActions(order));
    LookThen(s, c, g, Bound(cmd, pid), Proceed, Replacing(pid, process, before), StoreActions(order));
    StoreRuns(s, c, Replacing(pid, process, before), PutProcess(pid, process), VarKeys(pid, before + process.vars.Keys),
      order);
    StoredAll(g, c, pid, process, PutProcess(pid, process), VarKeys(pid, before + process.vars.Keys), order);
  }

  /** `sync process`, run to its end, stores the given process unless the stored
      one is newer; on equal timestamps the given one wins. */
  lemma SyncProcessAlone(s: State, c: Client, process: Process, order: seq<Key>)
    requires s.lock.None? && ThreadOf(s, c).pc.Idle? && StatesInv(s.g) && c in s.g.sessions
    requires s.g.sessions[c] in s.g.store
    requires
      var pid := s.g.sessions[c];
      var stored := s.g.store[pid];
      var kept := if stored.timestamp > process.timestamp then stored else process;
      IsOrder(order, VarKeys(pid, stored.vars.Keys + kept.vars.Keys))
    ensures
      var pid := s.g.sessions[c];
      var stored := s.g.store[pid];
      var kept := if stored.timestamp > process.timestamp then stored else process;
      var acts := [Begin(SyncProcess(process))] + ([Proceed] + ([Proceed] + ([Proceed] + StoreActions(order))));
      var t := Steps(s, c, acts);
      ThreadOf(t, c) == ThreadOf(s, c) && t.lock.None? && Stored(s.g, t.g, pid, kept)
  {
    hide Steps, StatesInv, Stored, StoreActions, NextPlan, Do;
    var g, pid, cmd := s.g, s.g.sessions[c], SyncProcess(process);
    StorePlans(g, c, ThreadOf(s, c), pid, process);
    StoreDoes(g, c, pid, process);
    var before := VarsAt(g, pid);
    var kept := NewerProcess(g.store[pid], process);
    AdmittedThen(s, c, cmd, [Proceed] + ([Proceed] + StoreActions(order)));
    LookThen(s, c, g, Bound(cmd, pid), Proceed, Found(cmd, pid), [Proceed] + StoreActions(order));
    LookThen(s, c, g, Found(cmd, pid), Proceed, Merging(pid, process, before), StoreActions(order));
    StoreRuns(s, c, Merging(pid, process, before), SyncProcessIn(pid, process), VarKeys(pid, before + kept.vars.Keys),
      order);
    StoredAll(g, c, pid, kept, SyncProcessIn(pid, process), VarKeys(pid, before + kept.vars.Keys), order);
  }

  // ------------------------------------------------------- coming in

  /** `reg process` binds the client and stores an empty process, unless the client
      has a session or the process exists: then it changes nothing. */
  lemma RegProcessAlone(s: State, c: Client, pid: string, junk: int)
    requires s.lock.None? && ThreadOf(s, c).pc.Idle?
    ensures
      var cmd := RegProcess(pid, junk);
      var g := s.g;
      if c in g.sessions then Steps(s, c, [Begin(cmd)] + []) == At(s, c, g, Idle)
      else if pid in g.store then Steps(s, c, [Begin(cmd)] + ([Proceed] + [])) == At(s, c, g, Idle)
      else
        var h := g.(sessions := g.sessions[c := pid], store := g.store[pid := Process(map[], junk)]);
        Steps(s, c, [Begin(cmd)] + ([Proceed] + ([Proceed] + ([Proceed] + [])))) == At(s, c, h, Idle)
  {
    hide Steps;
    var g, cmd, check, free := s.g, RegProcess(pid, junk), RegChecked(pid, junk), RegFree(pid, junk);
    if c in g.sessions {
      FirstMove(s, c, cmd, Idle);
      StepsFirst(s, c, Begin(cmd), []);
      StepsNone(At(s, c, g, Idle), c);
    } else if pid in g.store {
      FirstMove(s, c, cmd, check);
      StepsFirst(s, c, Begin(cmd), [Proceed] + []);
      LookThen(s, c, g, check, Proceed, Idle, []);
      StepsNone(At(s, c, g, Idle), c);
    } else {
      FirstMove(s, c, cmd, check);
      StepsFirst(s, c, Begin(cmd), [Proceed] + ([Proceed] + ([Proceed] + [])));
      LookThen(s, c, g, check, Proceed, free, [Proceed] + ([Proceed] + []));
      RegistersFree(s, c, pid, junk);
    }
  }

  lemma RegistersFree(s: State, c: Client, pid: string, junk: int)
    requires s.lock.None?
    ensures
      var g := s.g;
      var h := g.(sessions := g.sessions[c := pid], store := g.store[pid := Process(map[], junk)]);
      Steps(At(s, c, g, RegFree(pid, junk)), c, [Proceed] + ([Proceed] + [])) == At(s, c, h, Idle)
  {
    hide Steps;
    var g := s.g;
    var bound := g.(sessions := g.sessions[c := pid]);
    var h := bound.(store := g.store[pid := Process(map[], junk)]);
    assert s.(lock := None) == s;
    MoveThen(s, c, g, RegFree(pid, junk), Proceed, BindSession(pid), RegBound(pid, junk), None, [Proceed] + []);
    MoveThen(s, c, bound, RegBound(pid, junk), Proceed, PutProcess(pid, Process(map[], junk)), Idle, None, []);
    StepsNone(At(s, c, h, Idle), c);
  }

  /** `reg subprocess` is one registration, `login` one login after which the
      thread knows which subprocess it is. */
  lemma RegSubAlone(s: State, c: Client, sub: string)
    requires s.lock.None? && ThreadOf(s, c).pc.Idle? && c in s.g.sessions
    ensures
      var t := Step(Step(s, c, Begin(RegSub(sub))), c, Proceed);
      t.g == Do(s.g, c, RegisterSub(sub)) && ThreadOf(t, c) == ThreadOf(s, c) && t.lock.None?
  {
    hide DoRegister;
    NothingDone(s.g, c);
  }

  lemma LoginAlone(s: State, c: Client, sub: string)
    requires s.lock.None? && ThreadOf(s, c).pc.Idle?
    ensures
      var t := Step(s, c, Begin(Login(sub)));
      var u := Step(t, c, Proceed);
      if sub in s.g.proofs then
        u.g == Do(s.g, c, LoginSub(sub)) && ThreadOf(u, c) == Thread(Idle, sub) && u.lock.None?
      else t.g == s.g && ThreadOf(t, c) == ThreadOf(s, c)
  {
    hide DoLogin;
    LoginDoes(s.g, c, sub);
  }

  /** Hanging up closes the session of the subprocess the thread is, if any. */
  lemma CloseAlone(s: State, c: Client)
    requires s.lock.None? && ThreadOf(s, c).pc.Idle?
    ensures
      var t := Step(s, c, Disconnect);
      t.g == Do(s.g, c, CloseSession(ThreadOf(s, c).sub)) && ThreadOf(t, c).pc.Closed?
  {
    hide DoClose;
  }

  // ------------------------------------------------------- waiting

  /** `wait var` waits if the variable is there, from the version it has then, and
      returns at once if it is not. */
  lemma WaitVarAlone(s: State, c: Client, id: string)
    requires s.lock.None? && ThreadOf(s, c).pc.Idle? && StatesInv(s.g) && c in s.g.sessions
    ensures
      var pid := s.g.sessions[c];
      var key := VarKey(pid, id);
      var t := Steps(s, c, [Begin(WaitVar(id))] + ([Proceed] + ([Proceed] + ([Proceed] + []))));
      && t.g == Do(s.g, c, Intern(key)) && key in t.g.states
      && ThreadOf(t, c).pc
        == if pid in s.g.store && id in s.g.store[pid].vars then Await(key, t.g.states[key], Version(s.g, key))
           else Idle
  {
    hide Steps;
    var g, pid, cmd := s.g, s.g.sessions[c], WaitVar(id);
    var key := VarKey(pid, id);
    AdmittedThen(s, c, cmd, [Proceed] + ([Proceed] + []));
    WaitRuns(s, c, Bound(cmd, pid), key);
  }

  /** The same for the end of a process. */
  lemma WaitProcessAlone(s: State, c: Client, pid: string)
    requires s.lock.None? && ThreadOf(s, c).pc.Idle? && StatesInv(s.g) && c in s.g.sessions
    ensures
      var key := ProcKey(pid);
      var t := Steps(s, c, [Begin(WaitProcess(pid))] + ([Proceed] + ([Proceed] + [])));
      && t.g == Do(s.g, c, Intern(key)) && key in t.g.states
      && ThreadOf(t, c).pc
        == if pid in s.g.store then Await(key, t.g.states[key], Version(s.g, key)) else Idle
  {
    hide Steps;
    var cmd := WaitProcess(pid);
    FirstMove(s, c, cmd, Admitted(cmd));
    StepsFirst(s, c, Begin(cmd), [Proceed] + ([Proceed] + []));
    WaitRuns(s, c, Admitted(cmd), ProcKey(pid));
  }

  lemma WaitRuns(s: State, c: Client, pc: Pc, key: Key)
    requires s.lock.None? && StatesInv(s.g)
    requires NextPlan(s.g, None, c, ThreadOf(s, c).(pc := pc), Proceed)
      == Plan(Intern(key), WaitReady(key, RefAfterIntern(s.g, key)), ThreadOf(s, c).sub, None)
    ensures
      var t := Steps(At(s, c, s.g, pc), c, [Proceed] + ([Proceed] + []));
      var there := match key
        case ProcKey(pid) => pid in s.g.store
        case VarKey(pid, id) => pid in s.g.store && id in s.g.store[pid].vars;
      && t.g == Do(s.g, c, Intern(key)) && key in t.g.states
      && ThreadOf(t, c).pc == if there then Await(key, t.g.states[key], Version(s.g, key)) else Idle
  {
    hide Steps;
    var g := s.g;
    var ref := RefAfterIntern(g, key);
    var h := Do(g, c, Intern(key));
    InternGivesRef(g, c, key);
    Interned(g, c, key);
    var (section, next) := PlanWait(h, key, ref);
    assert s.(lock := None) == s;
    MoveThen(s, c, g, pc, Proceed, Intern(key), WaitReady(key, ref), None, [Proceed] + []);
    LookThen(s, c, h, WaitReady(key, ref), Proceed, next, []);
    StepsNone(At(s, c, h, next), c);
  }

  /** A waiter goes on exactly when the version is not the one it saw, counted
      modulo 2^64, and otherwise nothing happens. */
  lemma WaiterWakesIff(s: State, c: Client, key: Key, ref: Ref, base: nat)
    requires IsWaiting(s, c, key, ref, base)
    ensures
      var t := Step(s, c, Proceed);
      t.g == s.g && ThreadOf(t, c).pc == if SignalsOf(s.g, ref) % U64 != base % U64 then Idle else ThreadOf(s, c).pc
  {
    NothingDone(s.g, c);
  }
}
