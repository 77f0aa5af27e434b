/** The three global mutexes of server.cpp: which of them each step of a command
    takes, that the order is always the same, and that no deadlock follows. */
module Locks {
  import opened Common
  import opened Sections
  import opened Threads
  import opened Waiting

  datatype Mutex = MapMutex | ProcessMutex | WaitMutex

  function Rank(m: Mutex): nat {
    match m
    case MapMutex => 0
    case ProcessMutex => 1
    case WaitMutex => 2
  }

  datatype LockOp = Acquire(m: Mutex) | Release(m: Mutex) | Sleep

  /** One locked block. */
  function Block(m: Mutex): seq<LockOp> {
    [Acquire(m), Release(m)]
  }

  // ------------------------------------------------- what a step locks

  /** close_session takes process_mutex inside map_mutex where it erases the
      process, server.cpp:170 and 205. */
  predicate ClosesProcess(g: Globals, c: Client, own: string) {
    && c in g.sessions
    && var pid := g.sessions[c];
       if own != "" then pid in g.subs && SubsOf(g, pid) - {own} == {} && !Sections.Bound(g, pid)
       else !BoundElsewhere(g, c, pid)
  }

  /** A thread between commands: server.cpp:145, 243, 573 and 620. */
  function IdleOps(g: Globals, lock: Option<Client>, c: Client, t: Thread, a: Action): seq<LockOp> {
    match a
    case Begin(_) => Block(MapMutex)
    case Disconnect =>
      if PlanIdle(g, lock, c, t, a).pc.Idle? then []
      else if ClosesProcess(g, c, t.sub) then [Acquire(MapMutex)] + Block(ProcessMutex) + [Release(MapMutex)]
      else Block(MapMutex)
    case _ => []
  }

  /** A signal looks its wait state up under wait_mutex, server.cpp:82. The last
      step of an erasing thread gives process_mutex back, server.cpp:423. */
  function SignallingOps(t: Thread, a: Action): seq<LockOp>
    requires t.pc.Signalling?
  {
    if a.Signal? && a.key in t.pc.keys then Block(WaitMutex)
    else if a.Proceed? && t.pc.keys == {} && t.pc.erasing.Some? then [Release(ProcessMutex)]
    else []
  }

  function ProceedOps(g: Globals, t: Thread): seq<LockOp> {
    match t.pc
    case Admitted(cmd) => if cmd.WaitProcess? then Block(WaitMutex) else Block(MapMutex)
    case Bound(cmd, _) => if cmd.WaitVar? then Block(WaitMutex) else Block(ProcessMutex)
    case Found(cmd, pid) =>
      // server.cpp:415: the lock stays while the variables are signalled
      if cmd.DelProcess? && pid in g.store then [Acquire(ProcessMutex)] else Block(ProcessMutex)
    case Missing => Block(MapMutex)
    case Replacing(_, _, _) => Block(ProcessMutex)
    case Merging(_, _, _) => Block(ProcessMutex)
    case Cleaning(_) => Block(MapMutex)
    case Restart(_) => Block(MapMutex)
    case RegChecked(_, _) => Block(ProcessMutex)
    case RegFree(_, _) => Block(MapMutex)
    case RegBound(_, _) => Block(ProcessMutex)
    case WaitReady(_, _) => Block(ProcessMutex)
    case Await(_, ref, base) => if Load(g, ref) != base % U64 then [Sleep] else []
    case _ => []
  }

  /** The operations on the mutexes that come with a step of `NextPlan`. A sleep
      is over when its step is taken. */
  function LockOps(g: Globals, lock: Option<Client>, c: Client, t: Thread, a: Action): seq<LockOp> {
    if NeedsProcessMutex(t.pc) && lock.Some? then []
    else if t.pc.Idle? then IdleOps(g, lock, c, t, a)
    else if t.pc.Signalling? then SignallingOps(t, a)
    else if a.Proceed? then ProceedOps(g, t)
    else []
  }

  /** What a thread holds between two steps. */
  function HeldBy(pc: Pc): set<Mutex> {
    if Erasing(pc) then {ProcessMutex} else {}
  }

  /** From `held` on, the operations take mutexes in rising rank, give back only
      what is held, sleep empty-handed and end with `end` in hand. */
  ghost predicate Ordered(ops: seq<LockOp>, held: set<Mutex>, end: set<Mutex>)
    decreases |ops|
  {
    if ops == [] then held == end
    else match ops[0]
      case Acquire(m) => (forall h :: h in held ==> Rank(h) < Rank(m)) && Ordered(ops[1..], held + {m}, end)
      case Release(m) => m in held && Ordered(ops[1..], held - {m}, end)
      case Sleep => held == {} && Ordered(ops[1..], held, end)
  }

  lemma {:induction false} OrderedJoin(ops: seq<LockOp>, more: seq<LockOp>, held: set<Mutex>, mid: set<Mutex>,
                                       end: set<Mutex>)
    requires Ordered(ops, held, mid) && Ordered(more, mid, end)
    ensures Ordered(ops + more, held, end)
    decreases |ops|
  {
    if ops == [] {
      assert ops + more == more;
    } else {
      assert (ops + more)[1..] == ops[1..] + more;
      match ops[0]
      case Acquire(m) => OrderedJoin(ops[1..], more, held + {m}, mid, end);
      case Release(m) => OrderedJoin(ops[1..], more, held - {m}, mid, end);
      case Sleep => OrderedJoin(ops[1..], more, held, mid, end);
    }
  }

  lemma OneOp(op: LockOp, held: set<Mutex>, end: set<Mutex>)
    requires op.Acquire? ==> (forall h :: h in held ==> Rank(h) < Rank(op.m)) && end == held + {op.m}
    requires op.Release? ==> op.m in held && end == held - {op.m}
    requires op.Sleep? ==> held == {} == end
    ensures Ordered([op], held, end)
  {
    assert [op][1..] == [];
    assert Ordered([], end, end);
  }

  lemma BlockOrdered(m: Mutex, held: set<Mutex>)
    requires forall h :: h in held ==> Rank(h) < Rank(m)
    ensures Ordered(Block(m), held, held)
  {
    hide Ordered;
    OneOp(Acquire(m), held, held + {m});
    assert held + {m} - {m} == held;
    OneOp(Release(m), held + {m}, held);
    OrderedJoin([Acquire(m)], [Release(m)], held, held + {m}, held);
    assert [Acquire(m)] + [Release(m)] == Block(m);
  }

  lemma CloseOrdered()
    ensures Ordered([Acquire(MapMutex)] + Block(ProcessMutex) + [Release(MapMutex)], {}, {})
  {
    hide Ordered;
    OneOp(Acquire(MapMutex), {}, {MapMutex});
    BlockOrdered(ProcessMutex, {MapMutex});
    OneOp(Release(MapMutex), {MapMutex}, {});
    OrderedJoin([Acquire(MapMutex)], Block(ProcessMutex), {}, {MapMutex}, {MapMutex});
    OrderedJoin([Acquire(MapMutex)] + Block(ProcessMutex), [Release(MapMutex)], {}, {MapMutex}, {});
  }

  lemma NoOps(held: set<Mutex>)
    ensures Ordered([], held, held)
  {
  }

  /** The shapes that the operations of a step have. */
  ghost predicate StepShape(ops: seq<LockOp>, held: set<Mutex>, end: set<Mutex>) {
    || (ops == [] && held == end)
    || (held == end == {} && exists m :: ops == Block(m))
    || (held == end && ops == Block(WaitMutex) && held <= {ProcessMutex})
    || (held == end == {} && ops == [Acquire(MapMutex)] + Block(ProcessMutex) + [Release(MapMutex)])
    || (held == end == {} && ops == [Sleep])
    || (held == {} && end == {ProcessMutex} && ops == [Acquire(ProcessMutex)])
    || (held == {ProcessMutex} && end == {} && ops == [Release(ProcessMutex)])
  }

  lemma StepHasShape(g: Globals, lock: Option<Client>, c: Client, t: Thread, a: Action)
    ensures StepShape(LockOps(g, lock, c, t, a), HeldBy(t.pc), HeldBy(NextPlan(g, lock, c, t, a).pc))
  {
  }

  /** Every step of every command obeys the order. */
  lemma StepOrdered(g: Globals, lock: Option<Client>, c: Client, t: Thread, a: Action)
    ensures Ordered(LockOps(g, lock, c, t, a), HeldBy(t.pc), HeldBy(NextPlan(g, lock, c, t, a).pc))
  {
    hide NextPlan, LockOps, Ordered, HeldBy;
    var ops := LockOps(g, lock, c, t, a);
    var held, end := HeldBy(t.pc), HeldBy(NextPlan(g, lock, c, t, a).pc);
    StepHasShape(g, lock, c, t, a);
    if ops == [] {
      NoOps(held);
    } else if ops == Block(WaitMutex) {
      BlockOrdered(WaitMutex, held);
    } else if m :| ops == Block(m) {
      BlockOrdered(m, held);
    } else if ops == [Sleep] || |ops| == 1 {
      OneOp(ops[0], held, end);
    } else {
      CloseOrdered();
    }
  }

  // ------------------------------------------- what the mutexes protect

  /** The sections on the session, proof and subprocess maps. */
  predicate KeepsMaps(section: Section) {
    match section
    case EraseSession => false
    case BindSession(_) => false
    case RegisterSub(_) => false
    case LoginSub(_) => false
    case CleanUp(_) => false
    case CloseSession(_) => false
    case _ => true
  }

  lemma OtherSectionsKeepMaps(g: Globals, c: Client, section: Section)
    requires KeepsMaps(section)
    ensures
      var h := Do(g, c, section);
      h.sessions == g.sessions && h.proofs == g.proofs && h.subs == g.subs
  {
  }

  lemma CloseTakesProcess(g: Globals, c: Client, own: string)
    requires DoClose(g, c, own).store != g.store
    ensures ClosesProcess(g, c, own)
  {
  }

  /** A section comes with the mutex of what it may change. */
  ghost predicate Guarded(section: Section, ops: seq<LockOp>, held: set<Mutex>) {
    && (!KeepsStore(section) && !section.CloseSession? ==> Acquire(ProcessMutex) in ops || ProcessMutex in held)
    && (!KeepsMaps(section) ==> Acquire(MapMutex) in ops)
    && (section.Intern? ==> Acquire(WaitMutex) in ops)
  }

  lemma ProceedGuarded(g: Globals, lock: Option<Client>, c: Client, t: Thread)
    requires !t.pc.Idle? && !t.pc.Signalling?
    ensures
      var section := PlanProceed(g, lock, c, t).section;
      !section.CloseSession? && Guarded(section, ProceedOps(g, t), {})
  {
  }

  lemma SectionGuarded(g: Globals, lock: Option<Client>, c: Client, t: Thread, a: Action)
    ensures
      var section := NextPlan(g, lock, c, t, a).section;
      var ops := LockOps(g, lock, c, t, a);
      && Guarded(section, ops, HeldBy(t.pc))
      && (section.CloseSession? ==>
            section.own == t.sub && (ClosesProcess(g, c, t.sub) ==> Acquire(ProcessMutex) in ops))
  {
    hide PlanProceed, ProceedOps, ClosesProcess, DoClose;
    if !t.pc.Idle? && !t.pc.Signalling? {
      ProceedGuarded(g, lock, c, t);
    }
  }

  /** Each map changes only under its own mutex: the stored processes under
      process_mutex, sessions, proofs and subprocesses under map_mutex, and the
      wait states under wait_mutex. */
  lemma StepGuarded(g: Globals, lock: Option<Client>, c: Client, t: Thread, a: Action)
    ensures
      var h := Do(g, c, NextPlan(g, lock, c, t, a).section);
      var ops := LockOps(g, lock, c, t, a);
      && (h.store != g.store ==> Acquire(ProcessMutex) in ops || ProcessMutex in HeldBy(t.pc))
      && (h.sessions != g.sessions || h.proofs != g.proofs || h.subs != g.subs ==> Acquire(MapMutex) in ops)
      && (h.states != g.states ==> Acquire(WaitMutex) in ops)
  {
    hide NextPlan, LockOps, HeldBy, ClosesProcess;
    var section := NextPlan(g, lock, c, t, a).section;
    SectionGuarded(g, lock, c, t, a);
    if KeepsMaps(section) {
      OtherSectionsKeepMaps(g, c, section);
    }
    if KeepsStore(section) {
      OtherSectionsKeepStore(g, c, section);
    } else if section.CloseSession? && Do(g, c, section).store != g.store {
      CloseTakesProcess(g, c, t.sub);
    }
    if !section.Intern? && !section.Bump? {
      OtherSectionsKeepStates(g, c, section);
    }
  }

  // ------------------------------------------------- what a command locks

  /** What a thread meets at one of its steps. */
  datatype Scene = Scene(g: Globals, lock: Option<Client>, a: Action)

  function After(c: Client, t: Thread, scene: Scene): Thread {
    var p := NextPlan(scene.g, scene.lock, c, t, scene.a);
    Thread(p.pc, p.sub)
  }

  /** The thread after all its steps, and the operations on the way. Other threads
      may change the globals between any two steps. */
  function AfterAll(c: Client, t: Thread, scenes: seq<Scene>): Thread
    decreases |scenes|
  {
    if scenes == [] then t else AfterAll(c, After(c, t, scenes[0]), scenes[1..])
  }

  function Program(c: Client, t: Thread, scenes: seq<Scene>): seq<LockOp>
    decreases |scenes|
  {
    if scenes == [] then []
    else
      LockOps(scenes[0].g, scenes[0].lock, c, t, scenes[0].a) + Program(c, After(c, t, scenes[0]), scenes[1..])
  }

  /** Whatever commands a client sends and whatever the other threads do
      meanwhile, its thread takes the mutexes in one order only. */
  lemma {:induction false} ProgramOrdered(c: Client, t: Thread, scenes: seq<Scene>)
    ensures Ordered(Program(c, t, scenes), HeldBy(t.pc), HeldBy(AfterAll(c, t, scenes).pc))
    decreases |scenes|
  {
    hide Ordered, HeldBy, NextPlan, LockOps;
    if scenes == [] {
      NoOps(HeldBy(t.pc));
    } else {
      var scene := scenes[0];
      var next := After(c, t, scene);
      StepOrdered(scene.g, scene.lock, c, t, scene.a);
      ProgramOrdered(c, next, scenes[1..]);
      OrderedJoin(LockOps(scene.g, scene.lock, c, t, scene.a), Program(c, next, scenes[1..]),
        HeldBy(t.pc), HeldBy(next.pc), HeldBy(AfterAll(c, t, scenes).pc));
    }
  }

  /** The operations of a thread from before a command to after one. */
  ghost predicate IsProgram(ops: seq<LockOp>) {
    exists c, sub, scenes ::
      !Erasing(AfterAll(c, Thread(Idle, sub), scenes).pc) && ops == Program(c, Thread(Idle, sub), scenes)
  }

  // ------------------------------------------------- all threads together

  /** A thread as far as the mutexes go: what it has still to do, what it holds. */
  datatype Worker = Worker(todo: seq<LockOp>, held: set<Mutex>)

  type Workers = seq<Worker>

  ghost predicate IsFree(s: Workers, m: Mutex) {
    forall t :: 0 <= t < |s| ==> m !in s[t].held
  }

  /** Thread t can run its next operation. A sleeper may have to wait for a
      signal, so it does not count as runnable. */
  ghost predicate Runnable(s: Workers, t: nat) {
    && t < |s| && s[t].todo != [] && !s[t].todo[0].Sleep?
    && (s[t].todo[0].Acquire? ==> IsFree(s, s[t].todo[0].m))
  }

  ghost predicate Blocked(s: Workers, t: nat) {
    t < |s| && s[t].todo != [] && s[t].todo[0].Acquire? && !IsFree(s, s[t].todo[0].m)
  }

  function RunOp(w: Worker): Worker
    requires w.todo != []
  {
    var rest := w.todo[1..];
    match w.todo[0]
    case Acquire(m) => Worker(rest, w.held + {m})
    case Release(m) => Worker(rest, w.held - {m})
    case Sleep => Worker(rest, w.held)
  }

  /** One step of one thread: a runnable one goes on, or a sleeper wakes up. */
  ghost predicate Next(s: Workers, s': Workers) {
    exists t: nat :: t < |s| && s[t].todo != [] && (Runnable(s, t) || s[t].todo[0].Sleep?) && s' == s[t := RunOp(s[t])]
  }

  ghost predicate Safe(s: Workers) {
    && (forall t :: 0 <= t < |s| ==> Ordered(s[t].todo, s[t].held, {}))
    && (forall t, u, m :: 0 <= t < |s| && 0 <= u < |s| && m in s[t].held && m in s[u].held ==> t == u)
  }

  /** Threads that start with nothing held, each about to run some commands. */
  ghost predicate IsStart(s: Workers) {
    forall t :: 0 <= t < |s| ==> s[t].held == {} && IsProgram(s[t].todo)
  }

  ghost predicate IsSchedule(run: seq<Workers>) {
    |run| > 0 && IsStart(run[0]) && forall i :: 0 <= i < |run| - 1 ==> Next(run[i], run[i + 1])
  }

  lemma StepSafe(s: Workers, s': Workers)
    requires Safe(s) && Next(s, s')
    ensures Safe(s')
  {
  }

  lemma {:induction false} RunSafe(run: seq<Workers>, n: nat)
    requires IsSchedule(run) && n < |run|
    ensures Safe(run[n])
  {
    if n == 0 {
      forall t | 0 <= t < |run[0]|
        ensures Ordered(run[0][t].todo, run[0][t].held, {})
      {
        var c, sub, scenes :| !Erasing(AfterAll(c, Thread(Idle, sub), scenes).pc)
          && run[0][t].todo == Program(c, Thread(Idle, sub), scenes);
        ProgramOrdered(c, Thread(Idle, sub), scenes);
      }
    } else {
      RunSafe(run, n - 1);
      StepSafe(run[n - 1], run[n - 1 + 1]);
    }
  }

  /** From a blocked thread, following holders leads upwards in rank to one that
      can run. */
  lemma {:induction false} HolderCanRun(s: Workers, t: nat) returns (u: nat)
    requires Safe(s) && Blocked(s, t)
    ensures Runnable(s, u) && s[u].held != {}
    decreases 2 - Rank(s[t].todo[0].m)
  {
    var m := s[t].todo[0].m;
    var h :| 0 <= h < |s| && m in s[h].held;
    assert Ordered(s[h].todo, s[h].held, {});
    if s[h].todo[0].Acquire? && !IsFree(s, s[h].todo[0].m) {
      u := HolderCanRun(s, h);
    } else {
      u := h;
    }
  }

  /** Deadlock freedom: in every state of every run, if any thread is stuck on a
      mutex then some thread that holds a mutex can go on. */
  lemma NoDeadlock(run: seq<Workers>, n: nat, t: nat)
    requires IsSchedule(run) && n < |run| && Blocked(run[n], t)
    ensures exists u: nat :: Runnable(run[n], u) && run[n][u].held != {}
  {
    RunSafe(run, n);
    var u := HolderCanRun(run[n], t);
  }

  /** Nobody sleeps while holding one of the three mutexes. */
  lemma SleepersHoldNothing(run: seq<Workers>, n: nat, t: nat)
    requires IsSchedule(run) && n < |run| && t < |run[n]|
    requires run[n][t].todo != [] && run[n][t].todo[0].Sleep?
    ensures run[n][t].held == {}
  {
    RunSafe(run, n);
    assert Ordered(run[n][t].todo, run[n][t].held, {});
  }
}
