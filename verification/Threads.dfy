/** The commands of server.cpp as threads over the locked sections: every client
    runs one command at a time, and any thread may run its next section. */
module Threads {
  import opened Common
  import opened Containers
  import opened Sections

  /** A parsed command; ids are the letters `number2ABC` made of its argument.
      `junk` is the timestamp that `reg process` leaves uninitialised. */
  datatype Command =
    | SetProcess(process: Process) | SetVar(id: string, v: Var)
    | GetProcess | GetVar(id: string)
    | DelProcess | DelVar(id: string)
    | SyncProcess(process: Process) | SyncVar(id: string, v: Var)
    | RegProcess(pid: string, junk: int) | RegSub(sub: string) | Login(sub: string)
    | WaitProcess(pid: string) | WaitVar(id: string)

  /** Where a thread is between two sections, with its local variables. */
  datatype Pc =
    | Idle
    | Admitted(cmd: Command)                     // server.cpp:242-248 passed
    | Bound(cmd: Command, pid: string)           // the process id was read
    | Found(cmd: Command, pid: string)           // the process exists
    | Missing                                    // it does not: drop the session
    | Replacing(pid: string, process: Process, before: set<string>)
    | Merging(pid: string, process: Process, before: set<string>)
    | Signalling(keys: set<Key>, erasing: Option<string>)
    | Bumping(ref: Ref, key: Key, keys: set<Key>, erasing: Option<string>)
    | Cleaning(pid: string)                      // server.cpp:424, process erased
    | Restart(cmd: Command)                      // server.cpp:562-566
    | RegChecked(pid: string, junk: int)
    | RegFree(pid: string, junk: int)
    | RegBound(pid: string, junk: int)
    | LoggedIn(sub: string)
    | WaitReady(key: Key, ref: Ref)
    | Await(key: Key, ref: Ref, base: nat)       // inside cv.wait
    | Closed

  datatype Thread = Thread(pc: Pc, sub: string)

  /** What the scheduler picks: a new command, the next section, the next key to
      signal, or the end of the connection. */
  datatype Action = Begin(cmd: Command) | Proceed | Signal(key: Key) | Disconnect

  /** The section to run and where the thread is afterwards; `lock` says who
      holds process_mutex across sections. */
  datatype Plan = Plan(section: Section, pc: Pc, sub: string, lock: Option<Client>)

  function VarKeys(pid: string, ids: set<string>): set<Key> {
    set id | id in ids :: VarKey(pid, id)
  }

  /** `version.load()`: the counter is 64 bits wide. */
  function Load(g: Globals, ref: Ref): nat {
    SignalsOf(g, ref) % U64
  }

  function PlanBegin(g: Globals, c: Client, cmd: Command): (Section, Pc) {
    match cmd
    case RegProcess(pid, junk) => (Nothing, if c in g.sessions then Idle else RegChecked(pid, junk))
    case Login(sub) => (LoginSub(sub), if sub in g.proofs then LoggedIn(sub) else Idle)
    case _ => (Nothing, if c in g.sessions then Admitted(cmd) else Idle)
  }

  function PlanAdmitted(g: Globals, c: Client, cmd: Command): (Section, Pc) {
    match cmd
    case RegSub(sub) => (RegisterSub(sub), Idle)
    case WaitProcess(pid) =>
      var key := ProcKey(pid);
      (Intern(key), WaitReady(key, RefAfterIntern(g, key)))
    case _ => (Nothing, if c in g.sessions then Bound(cmd, g.sessions[c]) else Idle)
  }

  function RefAfterIntern(g: Globals, key: Key): Ref {
    if key in g.states then g.states[key] else |g.signals|
  }

  function PlanBound(g: Globals, cmd: Command, pid: string): (Section, Pc) {
    match cmd
    case SetProcess(process) => (Nothing, Replacing(pid, process, VarsAt(g, pid)))
    case SetVar(id, v) => (PutVar(pid, id, v), Signalling({VarKey(pid, id)}, None))
    case DelVar(id) =>
      if pid in g.store then (DropVar(pid, id), Signalling({VarKey(pid, id)}, None)) else (Nothing, Missing)
    case WaitVar(id) =>
      var key := VarKey(pid, id);
      (Intern(key), WaitReady(key, RefAfterIntern(g, key)))
    case DelProcess => (Nothing, if pid in g.store then Found(cmd, pid) else Missing)
    case SyncProcess(_) => (Nothing, if pid in g.store then Found(cmd, pid) else Missing)
    case SyncVar(_, _) => (Nothing, if pid in g.store then Found(cmd, pid) else Missing)
    case _ => (Nothing, if pid in g.store then Idle else Missing)
  }

  function PlanFound(g: Globals, c: Client, cmd: Command, pid: string): (Section, Pc, Option<Client>) {
    match cmd
    case DelProcess =>
      if pid in g.store then (Nothing, Signalling(VarKeys(pid, VarsAt(g, pid)), Some(pid)), Some(c))
      else (Nothing, Cleaning(pid), None)
    case SyncProcess(process) => (Nothing, Merging(pid, process, VarsAt(g, pid)), None)
    case SyncVar(id, v) =>
      (SyncVarIn(pid, id, v), if VarAt(g, pid, id).Some? then Idle else Restart(SetVar(id, v)), None)
    case _ => (Nothing, Idle, None)
  }

  function PlanWait(g: Globals, key: Key, ref: Ref): (Section, Pc) {
    match key
    case ProcKey(pid) => (Nothing, if pid in g.store then Await(key, ref, SignalsOf(g, ref)) else Idle)
    case VarKey(pid, id) => (Nothing, if VarAt(g, pid, id).Some? then Await(key, ref, SignalsOf(g, ref)) else Idle)
  }

  /** The pcs whose next section takes process_mutex. */
  predicate NeedsProcessMutex(pc: Pc) {
    match pc
    case Bound(cmd, _) => !cmd.WaitVar?
    case Found(_, _) => true
    case Replacing(_, _, _) => true
    case Merging(_, _, _) => true
    case RegChecked(_, _) => true
    case RegBound(_, _) => true
    case WaitReady(_, _) => true
    case _ => false
  }

  function Stay(t: Thread, lock: Option<Client>): Plan {
    Plan(Nothing, t.pc, t.sub, lock)
  }

  /** A thread between commands: start one, or hang up. Closing takes
      process_mutex only when it erases a process. */
  function PlanIdle(g: Globals, lock: Option<Client>, c: Client, t: Thread, a: Action): Plan {
    match a
    case Begin(cmd) =>
      var (section, pc) := PlanBegin(g, c, cmd);
      Plan(section, pc, t.sub, lock)
    case Disconnect =>
      if lock.None? || DoClose(g, c, t.sub).store == g.store then Plan(CloseSession(t.sub), Closed, t.sub, lock)
      else Stay(t, lock)
    case _ => Stay(t, lock)
  }

  /** A thread with keys to signal takes them in any order; with none left it
      erases the process it was about to erase, or is done. */
  function PlanSignalling(g: Globals, lock: Option<Client>, t: Thread, a: Action): Plan
    requires t.pc.Signalling?
  {
    var keys, erasing := t.pc.keys, t.pc.erasing;
    match a
    case Signal(key) =>
      if key in keys then Plan(Intern(key), Bumping(RefAfterIntern(g, key), key, keys - {key}, erasing), t.sub, lock)
      else Stay(t, lock)
    case Proceed =>
      if keys != {} then Stay(t, lock)
      else if erasing.Some? then Plan(EraseProcess(erasing.value), Cleaning(erasing.value), t.sub, None)
      else Plan(Nothing, Idle, t.sub, lock)
    case _ => Stay(t, lock)
  }

  /** Every other thread just runs its next section. */
  function PlanProceed(g: Globals, lock: Option<Client>, c: Client, t: Thread): Plan {
    match t.pc
    case Admitted(cmd) =>
      var (section, pc) := PlanAdmitted(g, c, cmd);
      Plan(section, pc, t.sub, lock)
    case Bound(cmd, pid) =>
      var (section, pc) := PlanBound(g, cmd, pid);
      Plan(section, pc, t.sub, lock)
    case Found(cmd, pid) =>
      var (section, pc, held) := PlanFound(g, c, cmd, pid);
      Plan(section, pc, t.sub, held)
    case Missing => Plan(EraseSession, Idle, t.sub, lock)
    case Replacing(pid, process, before) =>
      Plan(PutProcess(pid, process), Signalling(VarKeys(pid, before + process.vars.Keys), None), t.sub, lock)
    case Merging(pid, process, before) =>
      var merged := NewerProcess(ProcessAt(g, pid), process);
      Plan(SyncProcessIn(pid, process), Signalling(VarKeys(pid, before + merged.vars.Keys), None), t.sub, lock)
    case Bumping(ref, key, keys, erasing) => Plan(Bump(ref), Signalling(keys, erasing), t.sub, lock)
    case Cleaning(pid) => Plan(CleanUp(pid), Signalling({ProcKey(pid)}, None), t.sub, lock)
    case Restart(cmd) => Plan(Nothing, if c in g.sessions then Admitted(cmd) else Idle, t.sub, lock)
    case RegChecked(pid, junk) => Plan(Nothing, if pid in g.store then Idle else RegFree(pid, junk), t.sub, lock)
    case RegFree(pid, junk) => Plan(BindSession(pid), RegBound(pid, junk), t.sub, lock)
    case RegBound(pid, junk) => Plan(PutProcess(pid, Process(map[], junk)), Idle, t.sub, lock)
    case LoggedIn(sub) => Plan(Nothing, Idle, sub, lock)
    case WaitReady(key, ref) =>
      var (section, pc) := PlanWait(g, key, ref);
      Plan(section, pc, t.sub, lock)
    case Await(key, ref, base) =>
      if Load(g, ref) != base % U64 then Plan(Nothing, Idle, t.sub, lock) else Stay(t, lock)
    case _ => Stay(t, lock)
  }

  /** The next section of a thread; a thread that cannot move stays put. */
  function NextPlan(g: Globals, lock: Option<Client>, c: Client, t: Thread, a: Action): Plan {
    if NeedsProcessMutex(t.pc) && lock.Some? then Stay(t, lock)
    else if t.pc.Idle? then PlanIdle(g, lock, c, t, a)
    else if t.pc.Signalling? then PlanSignalling(g, lock, t, a)
    else if a.Proceed? then PlanProceed(g, lock, c, t)
    else Stay(t, lock)
  }

  // ------------------------------------------------------------ whole states

  /** History: registrations and logins of subprocesses; a login names the
      registration it used up. */
  datatype Event = Registered(sub: string, pid: string) | UsedProof(sub: string, pid: string, ticket: nat)

  datatype State = State(g: Globals, threads: map<Client, Thread>, lock: Option<Client>, log: seq<Event>,
                         tickets: map<string, nat>)

  function ThreadOf(s: State, c: Client): Thread {
    if c in s.threads then s.threads[c] else Thread(Idle, "")
  }

  function PlanOf(s: State, c: Client, a: Action): Plan {
    NextPlan(s.g, s.lock, c, ThreadOf(s, c), a)
  }

  function NewEvents(s: State, c: Client, section: Section): seq<Event> {
    match section
    case RegisterSub(sub) => if CanRegister(s.g, c, sub) then [Registered(sub, s.g.sessions[c])] else []
    case LoginSub(sub) =>
      if sub in s.g.proofs then [UsedProof(sub, s.g.proofs[sub], if sub in s.tickets then s.tickets[sub] else 0)]
      else []
    case _ => []
  }

  function NewTickets(s: State, c: Client, section: Section): map<string, nat> {
    if section.RegisterSub? && CanRegister(s.g, c, section.sub) then s.tickets[section.sub := |s.log|] else s.tickets
  }

  /** One step of client c. */
  function Step(s: State, c: Client, a: Action): State {
    var p := PlanOf(s, c, a);
    State(Do(s.g, c, p.section), s.threads[c := Thread(p.pc, p.sub)], p.lock,
          s.log + NewEvents(s, c, p.section), NewTickets(s, c, p.section))
  }

  lemma AfterStep(s: State, c: Client, a: Action)
    ensures ThreadOf(Step(s, c, a), c).pc == PlanOf(s, c, a).pc
  {
  }

  const START: State := State(Globals(map[], map[], map[], map[], map[], []), map[], None, [], map[])

  /** A run of the server: any client may take the next step. */
  ghost predicate IsRun(run: seq<State>, who: seq<Client>, acts: seq<Action>) {
    && |run| > 0 && |who| == |acts| == |run| - 1 && run[0] == START
    && forall i :: 0 <= i < |who| ==> run[i + 1] == Step(run[i], who[i], acts[i])
  }
}
