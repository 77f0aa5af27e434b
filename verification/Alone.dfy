/** Threads that run without others in between: the interleaved server does to
    the globals what the sequential one does. */
module Alone {
  import opened Common
  import opened Containers
  import opened Sections
  import opened Threads
  import opened Waiting
  import opened PlainStore
  import opened Server

  /** Several steps of one client in a row. */
  function Steps(s: State, c: Client, acts: seq<Action>): State
    decreases |acts|
  {
    if acts == [] then s else Steps(Step(s, c, acts[0]), c, acts[1..])
  }

  lemma StepsFirst(s: State, c: Client, a: Action, rest: seq<Action>)
    ensures Steps(s, c, [a] + rest) == Steps(Step(s, c, a), c, rest)
  {
    assert ([a] + rest)[1..] == rest;
  }

  /** Everything of s but the globals and the place of client c. */
  function At(s: State, c: Client, g: Globals, pc: Pc): State {
    s.(g := g, threads := s.threads[c := ThreadOf(s, c).(pc := pc)])
  }

  predicate Silent(section: Section) {
    !section.RegisterSub? && !section.LoginSub?
  }

  /** A step with a known plan. */
  lemma Move(s: State, c: Client, g: Globals, pc: Pc, a: Action, section: Section, pc': Pc)
    requires s.lock.None? && Silent(section)
    requires NextPlan(g, None, c, ThreadOf(s, c).(pc := pc), a) == Plan(section, pc', ThreadOf(s, c).sub, None)
    ensures Step(At(s, c, g, pc), c, a) == At(s, c, Do(g, c, section), pc')
  {
    hide NextPlan, Do;
    assert s.threads[c := ThreadOf(s, c).(pc := pc)][c := ThreadOf(s, c).(pc := pc')]
      == s.threads[c := ThreadOf(s, c).(pc := pc')];
  }

  /** The rest of a command that has one key left to signal. */
  function SignalActions(key: Key): seq<Action> {
    [Signal(key)] + ([Proceed] + ([Proceed] + []))
  }

  lemma SignalsAlone(s: State, c: Client, g: Globals, key: Key)
    requires s.lock.None?
    ensures Steps(At(s, c, g, Signalling({key}, None)), c, SignalActions(key)) == At(s, c, Signalled(g, c, key), Idle)
  {
    hide Do, Step;
    var h := Do(g, c, Intern(key));
    var ref := RefAfterIntern(g, key);
    assert h.states[key] == ref by {
      InternGivesRef(g, c, key);
    }
    assert {key} - {key} == {};
    Move(s, c, g, Signalling({key}, None), Signal(key), Intern(key), Bumping(ref, key, {}, None));
    Move(s, c, h, Bumping(ref, key, {}, None), Proceed, Bump(ref), Signalling({}, None));
    Move(s, c, Do(h, c, Bump(ref)), Signalling({}, None), Proceed, Nothing, Idle);
    assert Do(Do(h, c, Bump(ref)), c, Nothing) == Do(h, c, Bump(ref)) by {
      NothingDone(Do(h, c, Bump(ref)), c);
    }
    StepsFirst(At(s, c, g, Signalling({key}, None)), c, Signal(key), [Proceed] + ([Proceed] + []));
    StepsFirst(At(s, c, h, Bumping(ref, key, {}, None)), c, Proceed, [Proceed] + []);
    StepsFirst(At(s, c, Do(h, c, Bump(ref)), Signalling({}, None)), c, Proceed, []);
  }

  lemma NothingDone(g: Globals, c: Client)
    ensures Do(g, c, Nothing) == g
  {
  }

  // ------------------------------------------------------- variable commands

  function CommandOf(cmd: VarCmd): Command {
    match cmd
    case SetCmd(id, v) => SetVar(id, v)
    case GetCmd(id) => GetVar(id)
    case DelCmd(id) => DelVar(id)
    case SyncCmd(id, v) => SyncVar(id, v)
  }

  /** What the scheduler picks for a command once its process id has been read. */
  function InsideActions(g: Globals, pid: string, cmd: VarCmd): seq<Action>
    decreases cmd.SyncCmd?
  {
    if pid !in g.store && !cmd.SetCmd? then [Proceed] + ([Proceed] + [])
    else match cmd
      case SetCmd(id, _) => [Proceed] + SignalActions(VarKey(pid, id))
      case GetCmd(_) => [Proceed] + []
      case DelCmd(id) => [Proceed] + SignalActions(VarKey(pid, id))
      case SyncCmd(id, v) =>
        if VarAt(g, pid, id).Some? then [Proceed] + ([Proceed] + [])
        else [Proceed] + ([Proceed] + ([Proceed] + ([Proceed] + InsideActions(g, pid, SetCmd(id, v)))))
  }

  /** From the start of the command to its end. */
  function AllActions(g: Globals, c: Client, cmd: VarCmd): seq<Action> {
    [Begin(CommandOf(cmd))]
      + if c in g.sessions then [Proceed] + InsideActions(g, g.sessions[c], cmd) else []
  }

  lemma SetAlone(s: State, c: Client, g: Globals, pid: string, id: string, v: Var)
    requires s.lock.None?
    ensures Steps(At(s, c, g, Bound(SetVar(id, v), pid)), c, [Proceed] + SignalActions(VarKey(pid, id)))
      == At(s, c, Signalled(Do(g, c, PutVar(pid, id, v)), c, VarKey(pid, id)), Idle)
  {
    hide Do, Step, SignalActions, Signalled;
    var key := VarKey(pid, id);
    Move(s, c, g, Bound(SetVar(id, v), pid), Proceed, PutVar(pid, id, v), Signalling({key}, None));
    StepsFirst(At(s, c, g, Bound(SetVar(id, v), pid)), c, Proceed, SignalActions(key));
    SignalsAlone(s, c, Do(g, c, PutVar(pid, id, v)), key);
  }

  lemma DelAlone(s: State, c: Client, g: Globals, pid: string, id: string)
    requires s.lock.None? && pid in g.store
    ensures Steps(At(s, c, g, Bound(DelVar(id), pid)), c, [Proceed] + SignalActions(VarKey(pid, id)))
      == At(s, c, Signalled(Do(g, c, DropVar(pid, id)), c, VarKey(pid, id)), Idle)
  {
    hide Do, Step, SignalActions, Signalled;
    var key := VarKey(pid, id);
    Move(s, c, g, Bound(DelVar(id), pid), Proceed, DropVar(pid, id), Signalling({key}, None));
    StepsFirst(At(s, c, g, Bound(DelVar(id), pid)), c, Proceed, SignalActions(key));
    SignalsAlone(s, c, Do(g, c, DropVar(pid, id)), key);
  }

  lemma MissingAlone(s: State, c: Client, g: Globals, pid: string, cmd: VarCmd)
    requires s.lock.None? && pid !in g.store && !cmd.SetCmd?
    ensures Steps(At(s, c, g, Bound(CommandOf(cmd), pid)), c, [Proceed] + ([Proceed] + []))
      == At(s, c, Do(g, c, EraseSession), Idle)
  {
    hide Do, Step;
    NothingDone(g, c);
    Move(s, c, g, Bound(CommandOf(cmd), pid), Proceed, Nothing, Missing);
    Move(s, c, g, Missing, Proceed, EraseSession, Idle);
    StepsFirst(At(s, c, g, Bound(CommandOf(cmd), pid)), c, Proceed, [Proceed] + []);
    StepsFirst(At(s, c, g, Missing), c, Proceed, []);
  }

  /** The merge, and for an absent variable the way back to the start. */
  lemma SyncAlone(s: State, c: Client, g: Globals, pid: string, id: string, v: Var, rest: seq<Action>)
    requires s.lock.None? && pid in g.store
    ensures
      var h := Do(g, c, SyncVarIn(pid, id, v));
      Steps(At(s, c, g, Bound(SyncVar(id, v), pid)), c, [Proceed] + ([Proceed] + rest))
      == Steps(At(s, c, h, if VarAt(g, pid, id).Some? then Idle else Restart(SetVar(id, v))), c, rest)
  {
    hide Do, Step, VarAt;
    NothingDone(g, c);
    var h := Do(g, c, SyncVarIn(pid, id, v));
    var pc := if VarAt(g, pid, id).Some? then Idle else Restart(SetVar(id, v));
    Move(s, c, g, Bound(SyncVar(id, v), pid), Proceed, Nothing, Found(SyncVar(id, v), pid));
    Move(s, c, g, Found(SyncVar(id, v), pid), Proceed, SyncVarIn(pid, id, v), pc);
    StepsFirst(At(s, c, g, Bound(SyncVar(id, v), pid)), c, Proceed, [Proceed] + rest);
    StepsFirst(At(s, c, g, Found(SyncVar(id, v), pid)), c, Proceed, rest);
  }

  lemma RestartAlone(s: State, c: Client, g: Globals, cmd: Command, rest: seq<Action>)
    requires s.lock.None? && c in g.sessions && cmd.SetVar?
    ensures Steps(At(s, c, g, Restart(cmd)), c, [Proceed] + ([Proceed] + rest))
      == Steps(At(s, c, g, Bound(cmd, g.sessions[c])), c, rest)
  {
    hide Do, Step;
    NothingDone(g, c);
    Move(s, c, g, Restart(cmd), Proceed, Nothing, Admitted(cmd));
    Move(s, c, g, Admitted(cmd), Proceed, Nothing, Bound(cmd, g.sessions[c]));
    StepsFirst(At(s, c, g, Restart(cmd)), c, Proceed, [Proceed] + rest);
    StepsFirst(At(s, c, g, Admitted(cmd)), c, Proceed, rest);
  }

  lemma InsideAlone(s: State, c: Client, g: Globals, pid: string, cmd: VarCmd)
    requires s.lock.None? && c in g.sessions && g.sessions[c] == pid
    ensures Steps(At(s, c, g, Bound(CommandOf(cmd), pid)), c, InsideActions(g, pid, cmd))
      == At(s, c, Execute(g, Request(c, cmd)).0, Idle)
  {
    hide Do, Step, SignalActions, Signalled, VarAt;
    if pid !in g.store && !cmd.SetCmd? {
      MissingAlone(s, c, g, pid, cmd);
    } else {
      match cmd
      case SetCmd(id, v) =>
        SetAlone(s, c, g, pid, id, v);
      case GetCmd(id) =>
        NothingDone(g, c);
        Move(s, c, g, Bound(GetVar(id), pid), Proceed, Nothing, Idle);
        StepsFirst(At(s, c, g, Bound(GetVar(id), pid)), c, Proceed, []);
      case DelCmd(id) =>
        DelAlone(s, c, g, pid, id);
      case SyncCmd(id, v) =>
        var h := Do(g, c, SyncVarIn(pid, id, v));
        if VarAt(g, pid, id).Some? {
          SyncAlone(s, c, g, pid, id, v, []);
        } else {
          AbsentNotSynced(g, c, pid, id, v);
          var again := InsideActions(g, pid, SetCmd(id, v));
          SyncAlone(s, c, g, pid, id, v, [Proceed] + ([Proceed] + again));
          RestartAlone(s, c, g, SetVar(id, v), again);
          SetAlone(s, c, g, pid, id, v);
        }
    }
  }

  lemma AbsentNotSynced(g: Globals, c: Client, pid: string, id: string, v: Var)
    requires pid in g.store && VarAt(g, pid, id).None?
    ensures Do(g, c, SyncVarIn(pid, id, v)) == g
  {
    NothingToSync(g, c, pid, id, v);
  }

  /** A variable command that starts when nobody holds process_mutex, and whose
      thread alone is scheduled to its end, changes the globals exactly as the
      sequential server does, whatever state the other threads are in. */
  lemma CommandAlone(s: State, c: Client, cmd: VarCmd)
    requires s.lock.None? && ThreadOf(s, c).pc.Idle?
    ensures Steps(s, c, AllActions(s.g, c, cmd)) == At(s, c, Execute(s.g, Request(c, cmd)).0, Idle)
  {
    hide Do, InsideActions;
    NothingDone(s.g, c);
    var command := CommandOf(cmd);
    if c in s.g.sessions {
      var pid := s.g.sessions[c];
      var inside := InsideActions(s.g, pid, cmd);
      FirstMove(s, c, command, Admitted(command));
      Move(s, c, s.g, Admitted(command), Proceed, Nothing, Bound(command, pid));
      StepsFirst(s, c, Begin(command), [Proceed] + inside);
      StepsFirst(At(s, c, s.g, Admitted(command)), c, Proceed, inside);
      InsideAlone(s, c, s.g, pid, cmd);
    } else {
      FirstMove(s, c, command, Idle);
      StepsFirst(s, c, Begin(command), []);
    }
  }

  lemma FirstMove(s: State, c: Client, cmd: Command, pc: Pc)
    requires s.lock.None? && ThreadOf(s, c).pc.Idle?
    requires NextPlan(s.g, None, c, ThreadOf(s, c), Begin(cmd)) == Plan(Nothing, pc, ThreadOf(s, c).sub, None)
    ensures Step(s, c, Begin(cmd)) == At(s, c, s.g, pc)
  {
    hide NextPlan;
  }

  // -------------------------------------------------------- whole runs

  /** The server's states between requests that are served one at a time. */
  function Served(s: State, rs: seq<Request>): State
    decreases |rs|
  {
    if rs == [] then s else Served(Steps(s, rs[0].c, AllActions(s.g, rs[0].c, rs[0].cmd)), rs[1..])
  }

  ghost predicate AllIdle(s: State) {
    s.lock.None? && forall c :: ThreadOf(s, c).pc.Idle?
  }

  /** Requests served one at a time by the threads leave the globals that the
      sequential server leaves. */
  lemma {:induction false} ServedIsExecuted(s: State, rs: seq<Request>)
    requires AllIdle(s)
    ensures AllIdle(Served(s, rs)) && Served(s, rs).g == ExecuteAll(s.g, rs).0
    decreases |rs|
  {
    hide Execute, AllActions, Steps;
    if rs == [] {
    } else {
      CommandAlone(s, rs[0].c, rs[0].cmd);
      StaysIdle(s, rs[0].c, Execute(s.g, rs[0]).0);
      assert Request(rs[0].c, rs[0].cmd) == rs[0];
      ServedIsExecuted(Steps(s, rs[0].c, AllActions(s.g, rs[0].c, rs[0].cmd)), rs[1..]);
    }
  }

  lemma StaysIdle(s: State, c: Client, g: Globals)
    requires AllIdle(s)
    ensures AllIdle(At(s, c, g, Idle))
  {
    forall d
      ensures ThreadOf(At(s, c, g, Idle), d).pc.Idle?
    {
      assert ThreadOf(s, d).pc.Idle?;
    }
  }

  // -------------------------------------------------------- reachable states

  ghost predicate Reachable(s: State) {
    exists run, who, acts :: IsRun(run, who, acts) && run[|run| - 1] == s
  }

  lemma StartReachable()
    ensures Reachable(START)
  {
    assert IsRun([START], [], []) && [START][0] == START;
  }

  lemma StepReachable(s: State, c: Client, a: Action)
    requires Reachable(s)
    ensures Reachable(Step(s, c, a))
  {
    hide Step;
    var run, who, acts :| IsRun(run, who, acts) && run[|run| - 1] == s;
    var next := run + [Step(s, c, a)];
    assert IsRun(next, who + [c], acts + [a]) && next[|next| - 1] == Step(s, c, a);
  }

  lemma {:induction false} StepsReachable(s: State, c: Client, acts: seq<Action>)
    requires Reachable(s)
    ensures Reachable(Steps(s, c, acts))
    decreases |acts|
  {
    hide Step, Reachable;
    if acts == [] {
    } else {
      StepReachable(s, c, acts[0]);
      StepsReachable(Step(s, c, acts[0]), c, acts[1..]);
    }
  }
}
