/** Which changes are signalled, and that a waiter misses none of those. */
module Changes {
  import opened Common
  import opened Containers
  import opened Sections
  import opened Threads
  import opened Waiting
  import opened PlainStore
  import opened Server
  import opened Alone

  /** What a waiter on the key waits for. */
  ghost predicate Changed(g: Globals, h: Globals, key: Key) {
    match key
    case VarKey(pid, id) => VarAt(g, pid, id) != VarAt(h, pid, id)
    case ProcKey(pid) => pid in g.store && pid !in h.store
  }

  /** The keys a thread is bound to signal before it takes another command. */
  function Owes(pc: Pc): set<Key> {
    match pc
    case Signalling(keys, None) => keys
    case Bumping(_, key, keys, None) => keys + {key}
    case Cleaning(pid) => {ProcKey(pid)}
    case _ => {}
  }

  /** The changes the server takes care to signal. Left out are an update by
      `sync var`, the end of a session, the reset of a process that was
      registered twice at once, and the loss of a variable that appeared after
      `set process` or `sync process` had listed the ones it would signal. */
  predicate Covered(s: State, c: Client, a: Action, key: Key) {
    var pc := ThreadOf(s, c).pc;
    match PlanOf(s, c, a).section
    case PutVar(_, _, _) => true
    case DropVar(_, _) => true
    case EraseProcess(_) => true
    case PutProcess(pid, process) => pc.Replacing? && key in VarKeys(pid, pc.before + process.vars.Keys)
    case SyncProcessIn(pid, process) =>
      pc.Merging? && key in VarKeys(pid, pc.before + NewerProcess(ProcessAt(s.g, pid), process).vars.Keys)
    case _ => false
  }

  /** The only keys a section can change, as far as signals go. */
  lemma ChangedBy(g: Globals, c: Client, section: Section, key: Key)
    requires Changed(g, Do(g, c, section), key)
    ensures !KeepsStore(section)
    ensures section.PutVar? || section.DropVar? ==> key == VarKey(section.pid, section.id)
    ensures section.EraseProcess? ==>
      key == ProcKey(section.pid) || (key.VarKey? && key.pid == section.pid && key.id in VarsAt(g, section.pid))
  {
  }

  /** What a thread owes right after the sections that change variables ... */
  lemma OwedAfterVar(g: Globals, lock: Option<Client>, c: Client, t: Thread, a: Action)
    ensures
      var p := NextPlan(g, lock, c, t, a);
      && (p.section.PutVar? || p.section.DropVar? ==> Owes(p.pc) == {VarKey(p.section.pid, p.section.id)})
      && (p.section.SyncVarIn? || p.section.CloseSession? ==> Owes(p.pc) == {})
  {
    hide DoClose, VarAt, VarsAt, RefAfterIntern, ProcessAt, NewerProcess;
  }

  lemma OwedAfterErase(g: Globals, lock: Option<Client>, c: Client, t: Thread, a: Action)
    ensures
      var p := NextPlan(g, lock, c, t, a);
      p.section.EraseProcess? ==>
        t.pc == Signalling({}, Some(p.section.pid)) && Owes(p.pc) == {ProcKey(p.section.pid)}
  {
  }

  /** ... or whole processes. */
  lemma OwedAfterProcess(g: Globals, lock: Option<Client>, c: Client, t: Thread, a: Action)
    ensures
      var p := NextPlan(g, lock, c, t, a);
      && (p.section.PutProcess? ==>
            if t.pc.Replacing? then Owes(p.pc) == VarKeys(p.section.pid, t.pc.before + p.section.process.vars.Keys)
            else Owes(p.pc) == {})
      && (p.section.SyncProcessIn? ==>
            t.pc.Merging? && Owes(p.pc) == VarKeys(p.section.pid,
              t.pc.before + NewerProcess(ProcessAt(g, p.section.pid), p.section.process).vars.Keys))
  {
  }

  /** A covered change leaves its key owed, or its waiters overtaken already. */
  lemma CoveredIsOwed(s: State, c: Client, a: Action, key: Key)
    requires WaitInv(s) && Changed(s.g, Step(s, c, a).g, key) && Covered(s, c, a, key)
    ensures key in Owes(PlanOf(s, c, a).pc) || Overtaken(s, key)
  {
    hide NextPlan, Do, Overtaken;
    var p := PlanOf(s, c, a);
    var pc := ThreadOf(s, c).pc;
    OwedAfterVar(s.g, s.lock, c, ThreadOf(s, c), a);
    OwedAfterErase(s.g, s.lock, c, ThreadOf(s, c), a);
    OwedAfterProcess(s.g, s.lock, c, ThreadOf(s, c), a);
    ChangedBy(s.g, c, p.section, key);
    if p.section.EraseProcess? && key.VarKey? {
      assert ErasingKnown(s, c);
    }
  }

  /** A change that is not covered is silent: no version moves, its author owes
      nothing for the key afterwards, and whoever owes it a signal did so before
      the change. */
  lemma UncoveredIsSilent(s: State, c: Client, a: Action, key: Key)
    requires Changed(s.g, Step(s, c, a).g, key) && !Covered(s, c, a, key)
    ensures Step(s, c, a).g.signals == s.g.signals
    ensures forall d :: key in Owes(ThreadOf(Step(s, c, a), d).pc) ==> d != c && key in Owes(ThreadOf(s, d).pc)
  {
    hide NextPlan, Do;
    var p := PlanOf(s, c, a);
    OwedAfterVar(s.g, s.lock, c, ThreadOf(s, c), a);
    OwedAfterErase(s.g, s.lock, c, ThreadOf(s, c), a);
    OwedAfterProcess(s.g, s.lock, c, ThreadOf(s, c), a);
    ChangedBy(s.g, c, p.section, key);
    OtherSectionsKeepStates(s.g, c, p.section);
  }

  // ------------------------------------------------------------ paying a debt

  /** A debt ends only with a version bump on its key. */
  lemma DebtPlan(g: Globals, lock: Option<Client>, c: Client, t: Thread, a: Action, key: Key)
    requires key in Owes(t.pc)
    ensures
      var p := NextPlan(g, lock, c, t, a);
      key in Owes(p.pc) || (t.pc.Bumping? && t.pc.key == key && p.section == Bump(t.pc.ref) && !p.pc.Await?)
  {
  }

  lemma DebtStep(s: State, c: Client, a: Action, d: Client, key: Key, ref: Ref)
    requires WaitInv(s) && key in s.g.states && s.g.states[key] == ref
    requires key in Owes(ThreadOf(s, d).pc)
    ensures key in Owes(ThreadOf(Step(s, c, a), d).pc) || SignalsOf(Step(s, c, a).g, ref) > SignalsOf(s.g, ref)
  {
    hide NextPlan, Do, Overtaken;
    if c == d {
      DebtPlan(s.g, s.lock, c, ThreadOf(s, c), a, key);
      if key !in Owes(PlanOf(s, c, a).pc) {
        assert RefKnown(s.g, ThreadOf(s, c).pc);
        BumpOvertakes(s, c, a, ref, key);
      }
    }
  }

  lemma RunStep(run: seq<State>, who: seq<Client>, acts: seq<Action>, n: nat)
    requires IsRun(run, who, acts) && n + 1 < |run|
    ensures run[n + 1] == Step(run[n], who[n], acts[n])
    ensures WaitInv(run[n]) && StatesGrow(run[n].g, run[n + 1].g)
  {
    RunKeepsWaitInv(run, who, acts, n);
    SectionGrowsStates(run[n].g, who[n], PlanOf(run[n], who[n], acts[n]).section);
  }

  /** Versions only grow and a key keeps its wait state, along any run. */
  lemma {:induction false} RunGrows(run: seq<State>, who: seq<Client>, acts: seq<Action>, i: nat, j: nat)
    requires IsRun(run, who, acts) && i <= j < |run|
    ensures StatesGrow(run[i].g, run[j].g)
    decreases j - i
  {
    hide Step, StatesInv;
    if i == j {
    } else {
      RunGrows(run, who, acts, i, j - 1);
      RunStep(run, who, acts, j - 1);
      GrowTransitive(run[i].g, run[j - 1].g, run[j].g);
    }
  }

  lemma GrowTransitive(f: Globals, g: Globals, h: Globals)
    requires StatesGrow(f, g) && StatesGrow(g, h)
    ensures StatesGrow(f, h)
  {
  }

  lemma {:induction false} DebtPaid(run: seq<State>, who: seq<Client>, acts: seq<Action>, i: nat, k: nat, d: Client,
                                    key: Key, ref: Ref)
    requires IsRun(run, who, acts) && i <= k < |run|
    requires key in run[i].g.states && run[i].g.states[key] == ref
    requires key in Owes(ThreadOf(run[i], d).pc) && key !in Owes(ThreadOf(run[k], d).pc)
    ensures SignalsOf(run[k].g, ref) > SignalsOf(run[i].g, ref)
    decreases k - i
  {
    hide Step, StatesInv, Owes;
    RunStep(run, who, acts, i);
    DebtStep(run[i], who[i], acts[i], d, key, ref);
    if key in Owes(ThreadOf(run[i + 1], d).pc) {
      DebtPaid(run, who, acts, i + 1, k, d, key, ref);
    } else {
      RunGrows(run, who, acts, i + 1, k);
    }
  }

  // -------------------------------------------------------------- main result

  /** No missed change. Client c waits on a key from state j to state m. At step
      j client d changes what c waits for, by a covered change, and in state k
      d has no signal for that key left to send. Then in state m, whatever else
      ran in between, the predicate c waits for is true; the version would have
      to go once round its 64 bits to hide it. */
  lemma NoMissedChange(run: seq<State>, who: seq<Client>, acts: seq<Action>, j: nat, k: nat, m: nat,
                       c: Client, key: Key, ref: Ref, base: nat)
    requires IsRun(run, who, acts) && j < k <= m < |run|
    requires IsWaiting(run[j], c, key, ref, base) && IsWaiting(run[m], c, key, ref, base)
    requires Changed(run[j].g, run[j + 1].g, key) && Covered(run[j], who[j], acts[j], key)
    requires key !in Owes(ThreadOf(run[k], who[j]).pc)
    requires SignalsOf(run[m].g, ref) < base + U64
    ensures Load(run[m].g, ref) != base % U64
  {
    hide Step, StatesInv, Owes, Covered;
    RunStep(run, who, acts, j);
    assert RefKnown(run[j].g, ThreadOf(run[j], c).pc);
    CoveredIsOwed(run[j], who[j], acts[j], key);
    RunGrows(run, who, acts, j, m);
    if Overtaken(run[j], key) {
      assert SignalsOf(run[j].g, ref) > base;
    } else {
      AfterStep(run[j], who[j], acts[j]);
      DebtPaid(run, who, acts, j + 1, k, who[j], key, ref);
      RunGrows(run, who, acts, k, m);
    }
    DifferentModulo(SignalsOf(run[m].g, ref), base);
  }

  lemma DifferentModulo(x: nat, y: nat)
    requires y < x < y + U64
    ensures x % U64 != y % U64
  {
  }

  // ------------------------------------------------------- a change that is lost

  const LOST_KEY := VarKey("P", "X")
  const OLD_VAR := Var("x", "1", 5)

  /** Client 1 has listed the variables of P, found none, and is about to
      replace P by an empty process; meanwhile X was set, and client 2 waits
      for it. */
  function LostChange(): State {
    State(
      Globals(map[1 := "P", 2 := "P"], map[], map[], map["P" := Process(map["X" := OLD_VAR], 0)],
              map[LOST_KEY := 0], [1]),
      map[1 := Thread(Replacing("P", Process(map[], 0), {}), ""), 2 := Thread(Await(LOST_KEY, 0, 1), "")],
      None, [], map[])
  }

  /** `set process` then deletes X, owes no signal, and leaves client 2 waiting. */
  lemma LostInOneStep()
    ensures
      var s := LostChange();
      var t := Step(s, 1, Proceed);
      && Changed(s.g, t.g, LOST_KEY) && !Covered(s, 1, Proceed, LOST_KEY)
      && Owes(ThreadOf(t, 1).pc) == {}
      && IsWaiting(t, 2, LOST_KEY, 0, 1) && Load(t.g, 0) == 1
  {
  }

  // The way there: both clients register P at once, client 1 lists the variables
  // of P for `set process`, client 2 sets X and then waits for it.

  function Two(g: Globals, pc1: Pc, pc2: Pc): State {
    At(At(START, 1, g, pc1), 2, g, pc2)
  }

  lemma Left(g: Globals, pc1: Pc, pc2: Pc, a: Action, section: Section, next: Pc)
    requires Reachable(Two(g, pc1, pc2)) && Silent(section)
    requires NextPlan(g, None, 1, Thread(pc1, ""), a) == Plan(section, next, "", None)
    ensures Reachable(Two(Do(g, 1, section), next, pc2))
  {
    hide NextPlan, Do, Reachable;
    var s := Two(g, pc1, pc2);
    Move(s, 1, g, pc1, a, section, next);
    StepReachable(s, 1, a);
    assert s.threads[1 := Thread(pc1, "")] == s.threads;
    assert s.threads[1 := Thread(next, "")] == Two(Do(g, 1, section), next, pc2).threads;
  }

  lemma Right(g: Globals, pc1: Pc, pc2: Pc, a: Action, section: Section, next: Pc)
    requires Reachable(Two(g, pc1, pc2)) && Silent(section)
    requires NextPlan(g, None, 2, Thread(pc2, ""), a) == Plan(section, next, "", None)
    ensures Reachable(Two(Do(g, 2, section), pc1, next))
  {
    hide NextPlan, Do, Reachable;
    var s := Two(g, pc1, pc2);
    Move(s, 2, g, pc2, a, section, next);
    StepReachable(s, 2, a);
    assert s.threads[2 := Thread(pc2, "")] == s.threads;
    assert s.threads[2 := Thread(next, "")] == Two(Do(g, 2, section), pc1, next).threads;
  }

  lemma SecondMoved(g: Globals, h: Globals, pc1: Pc, pc2: Pc, next: Pc)
    ensures At(Two(g, pc1, pc2), 2, h, next) == Two(h, pc1, next)
  {
    assert Two(g, pc1, pc2).threads[2 := Thread(next, "")] == Two(h, pc1, next).threads;
  }

  const EMPTY_P := Process(map[], 0)
  const REG_P := RegProcess("P", 0)
  const TWO_SESSIONS := map[1 := "P", 2 := "P"]

  /** Neither finds P registered. */
  lemma BothChecked()
    ensures Reachable(Two(START.g, RegFree("P", 0), RegFree("P", 0)))
  {
    hide Reachable;
    var check := RegChecked("P", 0);
    StartReachable();
    FirstMove(START, 1, REG_P, check);
    StepReachable(START, 1, Begin(REG_P));
    var s := At(START, 1, START.g, check);
    FirstMove(s, 2, REG_P, check);
    StepReachable(s, 2, Begin(REG_P));
    NothingDone(START.g, 1);
    NothingDone(START.g, 2);
    Left(START.g, check, check, Proceed, Nothing, RegFree("P", 0));
    Right(START.g, RegFree("P", 0), check, Proceed, Nothing, RegFree("P", 0));
  }

  lemma BothRegistered()
    ensures Reachable(Two(START.g.(sessions := TWO_SESSIONS, store := map["P" := EMPTY_P]), Idle, Idle))
  {
    hide Reachable;
    var free, bound := RegFree("P", 0), RegBound("P", 0);
    BothChecked();
    Left(START.g, free, free, Proceed, BindSession("P"), bound);
    var g := Do(START.g, 1, BindSession("P"));
    Right(g, bound, free, Proceed, BindSession("P"), bound);
    var h := Do(g, 2, BindSession("P"));
    assert h == START.g.(sessions := TWO_SESSIONS);
    Left(h, bound, bound, Proceed, PutProcess("P", EMPTY_P), Idle);
    var i := Do(h, 1, PutProcess("P", EMPTY_P));
    Right(i, Idle, bound, Proceed, PutProcess("P", EMPTY_P), Idle);
    assert Do(i, 2, PutProcess("P", EMPTY_P)).store == map["P" := EMPTY_P];
  }

  /** From the listing to the set variable. */
  lemma ListedThenSet(g: Globals)
    requires g.sessions == TWO_SESSIONS && g.store == map["P" := EMPTY_P] && Reachable(Two(g, Idle, Idle))
    ensures
      var h := Signalled(Do(g, 2, PutVar("P", "X", OLD_VAR)), 2, LOST_KEY);
      Reachable(Two(h, Replacing("P", EMPTY_P, {}), Idle))
  {
    hide Reachable, Signalled;
    var cmd := SetProcess(EMPTY_P);
    NothingDone(g, 1);
    Left(g, Idle, Idle, Begin(cmd), Nothing, Admitted(cmd));
    Left(g, Admitted(cmd), Idle, Proceed, Nothing, Bound(cmd, "P"));
    assert VarsAt(g, "P") == {};
    Left(g, Bound(cmd, "P"), Idle, Proceed, Nothing, Replacing("P", EMPTY_P, {}));
    var s := Two(g, Replacing("P", EMPTY_P, {}), Idle);
    var put := SetCmd("X", OLD_VAR);
    CommandAlone(s, 2, put);
    StepsReachable(s, 2, AllActions(g, 2, put));
    SecondMoved(g, Execute(g, Request(2, put)).0, Replacing("P", EMPTY_P, {}), Idle, Idle);
  }

  lemma SetThenWaited(g: Globals, pc1: Pc)
    requires 2 in g.sessions && g.sessions[2] == "P" && VarAt(g, "P", "X").Some?
    requires LOST_KEY in g.states && Reachable(Two(g, pc1, Idle))
    ensures Reachable(Two(g, pc1, Await(LOST_KEY, g.states[LOST_KEY], SignalsOf(g, g.states[LOST_KEY]))))
  {
    hide Reachable;
    var cmd, ref := WaitVar("X"), g.states[LOST_KEY];
    NothingDone(g, 2);
    Right(g, pc1, Idle, Begin(cmd), Nothing, Admitted(cmd));
    Right(g, pc1, Admitted(cmd), Proceed, Nothing, Bound(cmd, "P"));
    Right(g, pc1, Bound(cmd, "P"), Proceed, Intern(LOST_KEY), WaitReady(LOST_KEY, ref));
    Right(g, pc1, WaitReady(LOST_KEY, ref), Proceed, Nothing, Await(LOST_KEY, ref, SignalsOf(g, ref)));
  }

  lemma LostChangeReachable()
    ensures Reachable(LostChange())
  {
    hide Reachable;
    BothRegistered();
    var g := START.g.(sessions := TWO_SESSIONS, store := map["P" := EMPTY_P]);
    ListedThenSet(g);
    var h := Signalled(Do(g, 2, PutVar("P", "X", OLD_VAR)), 2, LOST_KEY);
    assert h == LostChange().g;
    SetThenWaited(h, Replacing("P", EMPTY_P, {}));
    assert LostChange() == Two(h, Replacing("P", EMPTY_P, {}), Await(LOST_KEY, 0, 1));
  }

  /** The server reaches, from its start, a state in which `set process` deletes a
      variable that a client waits for, and nobody will signal it on that
      account: its author owes nothing and the version stays as it was. */
  lemma SetProcessLosesAChange()
    ensures exists run, who, acts ::
      && IsRun(run, who, acts) && run[|run| - 1] == LostChange()
      && var s := run[|run| - 1];
         var t := Step(s, 1, Proceed);
         && Changed(s.g, t.g, LOST_KEY) && !Covered(s, 1, Proceed, LOST_KEY)
         && Owes(ThreadOf(t, 1).pc) == {}
         && IsWaiting(t, 2, LOST_KEY, 0, 1) && Load(t.g, 0) == 1
  {
    hide IsRun, Step, Changed, Covered, Load, IsWaiting;
    LostChangeReachable();
    LostInOneStep();
  }
}
