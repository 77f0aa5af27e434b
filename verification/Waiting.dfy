/** Waiting for changes: no covered change is missed, in any interleaving. */
module Waiting {
  import opened Common
  import opened Sections
  import opened Threads

  /** Holding process_mutex between `del process`'s signals and its erase. */
  predicate Erasing(pc: Pc) {
    (pc.Signalling? || pc.Bumping?) && pc.erasing.Some?
  }

  /** The keys a thread still has to signal in that stretch. */
  function Unsent(pc: Pc): set<Key>
    requires Erasing(pc)
  {
    if pc.Signalling? then pc.keys else pc.keys + {pc.key}
  }

  ghost predicate IsWaiting(s: State, c: Client, key: Key, ref: Ref, base: nat) {
    ThreadOf(s, c).pc == Await(key, ref, base)
  }

  /** A thread's reference is the wait state of its key, and a snapshot is not
      ahead of the version. */
  ghost predicate RefKnown(g: Globals, pc: Pc) {
    match pc
    case WaitReady(key, ref) => key in g.states && g.states[key] == ref
    case Await(key, ref, base) => key in g.states && g.states[key] == ref && base <= SignalsOf(g, ref)
    case Bumping(ref, key, _, _) => key in g.states && g.states[key] == ref
    case _ => true
  }

  /** Every waiter on the key has been overtaken by a signal. */
  ghost predicate Overtaken(s: State, key: Key) {
    forall c: Client ::
      var pc := ThreadOf(s, c).pc;
      pc.Await? && pc.key == key ==> SignalsOf(s.g, pc.ref) > pc.base
  }

  /** While `del process` erases, each variable is still to be signalled or its
      waiters are overtaken already. */
  ghost predicate ErasingKnown(s: State, d: Client) {
    var pc := ThreadOf(s, d).pc;
    Erasing(pc) ==>
      forall id :: id in VarsAt(s.g, pc.erasing.value) ==>
        VarKey(pc.erasing.value, id) in Unsent(pc) || Overtaken(s, VarKey(pc.erasing.value, id))
  }

  ghost predicate WaitInv(s: State) {
    && StatesInv(s.g)
    && (forall c: Client :: RefKnown(s.g, ThreadOf(s, c).pc))
    && (forall c: Client :: Erasing(ThreadOf(s, c).pc) <==> s.lock == Some(c))
    && (forall c: Client :: ErasingKnown(s, c))
  }

  // --------------------------------------------------------- parts of one step

  lemma RefsSurvive(g: Globals, h: Globals, pc: Pc)
    requires StatesInv(g) && StatesInv(h) && StatesGrow(g, h) && RefKnown(g, pc)
    ensures RefKnown(h, pc)
  {
  }

  lemma InternGivesRef(g: Globals, c: Client, key: Key)
    ensures key in Do(g, c, Intern(key)).states && Do(g, c, Intern(key)).states[key] == RefAfterIntern(g, key)
  {
  }

  /** Where a thread's new reference comes from. */
  lemma PlannedRef(g: Globals, lock: Option<Client>, c: Client, t: Thread, a: Action)
    ensures
      var p := NextPlan(g, lock, c, t, a);
      p.pc == t.pc
      || (p.pc.WaitReady? && p.section == Intern(p.pc.key) && p.pc.ref == RefAfterIntern(g, p.pc.key))
      || (p.pc.Bumping? && p.section == Intern(p.pc.key) && p.pc.ref == RefAfterIntern(g, p.pc.key))
      || (p.pc.Await? && t.pc == WaitReady(p.pc.key, p.pc.ref) && p.pc.base == SignalsOf(g, p.pc.ref))
      || !(p.pc.WaitReady? || p.pc.Bumping? || p.pc.Await?)
  {
  }

  /** The stepping thread knows its new reference. */
  lemma OwnRefKnown(s: State, c: Client, a: Action)
    requires StatesInv(s.g) && RefKnown(s.g, ThreadOf(s, c).pc)
    ensures RefKnown(Step(s, c, a).g, PlanOf(s, c, a).pc)
  {
    hide NextPlan, Do;
    var p := PlanOf(s, c, a);
    PlannedRef(s.g, s.lock, c, ThreadOf(s, c), a);
    SectionGrowsStates(s.g, c, p.section);
    RefsSurvive(s.g, Do(s.g, c, p.section), ThreadOf(s, c).pc);
    if p.section.Intern? {
      InternGivesRef(s.g, c, p.section.key);
    }
  }

  predicate KeepsStore(section: Section) {
    match section
    case PutProcess(_, _) => false
    case PutVar(_, _, _) => false
    case DropVar(_, _) => false
    case SyncVarIn(_, _, _) => false
    case SyncProcessIn(_, _) => false
    case EraseProcess(_) => false
    case CloseSession(_) => false
    case _ => true
  }

  lemma OtherSectionsKeepStore(g: Globals, c: Client, section: Section)
    requires KeepsStore(section)
    ensures Do(g, c, section).store == g.store
  {
  }

  lemma LockedPlan(g: Globals, lock: Option<Client>, c: Client, t: Thread, a: Action)
    requires lock.Some? && !Erasing(t.pc)
    ensures
      var section := NextPlan(g, lock, c, t, a).section;
      KeepsStore(section) || (section == CloseSession(t.sub) && DoClose(g, c, t.sub).store == g.store)
  {
  }

  /** Nobody else changes the store while process_mutex is held. */
  lemma LockedStore(s: State, c: Client, a: Action)
    requires s.lock.Some? && !Erasing(ThreadOf(s, c).pc)
    ensures Step(s, c, a).g.store == s.g.store
  {
    hide NextPlan;
    LockedPlan(s.g, s.lock, c, ThreadOf(s, c), a);
    var section := PlanOf(s, c, a).section;
    if KeepsStore(section) {
      OtherSectionsKeepStore(s.g, c, section);
    }
  }

  lemma LockPassing(s: State, c: Client, a: Action)
    requires Erasing(ThreadOf(s, c).pc) <==> s.lock == Some(c)
    ensures Erasing(PlanOf(s, c, a).pc) <==> PlanOf(s, c, a).lock == Some(c)
    ensures s.lock.Some? && s.lock != Some(c) ==> PlanOf(s, c, a).lock == s.lock
    ensures PlanOf(s, c, a).lock == s.lock || PlanOf(s, c, a).lock == None || PlanOf(s, c, a).lock == Some(c)
  {
  }

  /** A thread starts to wait only when nobody holds process_mutex. */
  lemma NewWaiter(s: State, c: Client, a: Action)
    requires s.lock.Some? && PlanOf(s, c, a).pc.Await?
    ensures PlanOf(s, c, a).pc == ThreadOf(s, c).pc
  {
  }

  lemma SignalsGrow(g: Globals, c: Client, section: Section, ref: Ref)
    requires StatesInv(g)
    ensures SignalsOf(g, ref) <= SignalsOf(Do(g, c, section), ref)
  {
    hide Do;
    SectionGrowsStates(g, c, section);
  }

  /** Once overtaken, the waiters on a key stay so while process_mutex is held. */
  lemma OvertakenStays(s: State, c: Client, a: Action, key: Key)
    requires StatesInv(s.g) && s.lock.Some? && Overtaken(s, key)
    ensures Overtaken(Step(s, c, a), key)
  {
    hide NextPlan, Do;
    var t := Step(s, c, a);
    forall d: Client | ThreadOf(t, d).pc.Await? && ThreadOf(t, d).pc.key == key
      ensures SignalsOf(t.g, ThreadOf(t, d).pc.ref) > ThreadOf(t, d).pc.base
    {
      if d == c {
        NewWaiter(s, c, a);
      }
      assert ThreadOf(t, d).pc == ThreadOf(s, d).pc;
      SignalsGrow(s.g, c, PlanOf(s, c, a).section, ThreadOf(s, d).pc.ref);
    }
  }

  /** A version bump overtakes every waiter on its key. */
  lemma BumpOvertakes(s: State, c: Client, a: Action, ref: Ref, key: Key)
    requires WaitInv(s) && PlanOf(s, c, a).section == Bump(ref) && !PlanOf(s, c, a).pc.Await?
    requires key in s.g.states && s.g.states[key] == ref
    ensures Overtaken(Step(s, c, a), key)
    ensures SignalsOf(Step(s, c, a).g, ref) == SignalsOf(s.g, ref) + 1
  {
    hide NextPlan;
    var t := Step(s, c, a);
    forall d: Client | ThreadOf(t, d).pc.Await? && ThreadOf(t, d).pc.key == key
      ensures SignalsOf(t.g, ThreadOf(t, d).pc.ref) > ThreadOf(t, d).pc.base
    {
      assert RefKnown(s.g, ThreadOf(s, d).pc);
    }
  }

  /** How a thread comes to be erasing, or goes on with it. */
  lemma ErasingPlan(g: Globals, lock: Option<Client>, c: Client, t: Thread, a: Action)
    requires Erasing(NextPlan(g, lock, c, t, a).pc)
    ensures
      var p := NextPlan(g, lock, c, t, a);
      var pid := p.pc.erasing.value;
      || (!Erasing(t.pc) && p.section == Nothing && Unsent(p.pc) == VarKeys(pid, VarsAt(g, pid)))
      || (Erasing(t.pc) && t.pc.erasing.value == pid && KeepsStore(p.section)
          && (Unsent(p.pc) == Unsent(t.pc)
              || (t.pc.Bumping? && p.section == Bump(t.pc.ref) && p.pc.Signalling?
                  && Unsent(p.pc) + {t.pc.key} == Unsent(t.pc))))
  {
  }

  lemma OwnErasingKnown(s: State, c: Client, a: Action)
    requires WaitInv(s)
    ensures ErasingKnown(Step(s, c, a), c)
  {
    hide NextPlan, Overtaken;
    var t := Step(s, c, a);
    var p := PlanOf(s, c, a);
    if Erasing(p.pc) {
      ErasingPlan(s.g, s.lock, c, ThreadOf(s, c), a);
      OtherSectionsKeepStore(s.g, c, p.section);
      var pid := p.pc.erasing.value;
      forall id | id in VarsAt(t.g, pid)
        ensures VarKey(pid, id) in Unsent(p.pc) || Overtaken(t, VarKey(pid, id))
      {
        var key := VarKey(pid, id);
        var before := ThreadOf(s, c).pc;
        if Erasing(before) && key !in Unsent(p.pc) {
          assert ErasingKnown(s, c);
          if key in Unsent(before) {
            assert RefKnown(s.g, before);
            BumpOvertakes(s, c, a, before.ref, key);
          } else {
            OvertakenStays(s, c, a, key);
          }
        }
      }
    }
  }

  lemma OtherErasingKnown(s: State, c: Client, a: Action, d: Client)
    requires WaitInv(s) && d != c
    ensures ErasingKnown(Step(s, c, a), d)
  {
    hide NextPlan, Overtaken, Do;
    var t := Step(s, c, a);
    var pc := ThreadOf(s, d).pc;
    if Erasing(pc) {
      LockedStore(s, c, a);
      var pid := pc.erasing.value;
      forall id | id in VarsAt(t.g, pid)
        ensures VarKey(pid, id) in Unsent(pc) || Overtaken(t, VarKey(pid, id))
      {
        assert ErasingKnown(s, d);
        if VarKey(pid, id) !in Unsent(pc) {
          OvertakenStays(s, c, a, VarKey(pid, id));
        }
      }
    }
  }

  lemma StepKeepsWaitInv(s: State, c: Client, a: Action)
    requires WaitInv(s)
    ensures WaitInv(Step(s, c, a))
  {
    hide NextPlan, Do, RefKnown, ErasingKnown, StatesInv;
    var t := Step(s, c, a);
    SectionGrowsStates(s.g, c, PlanOf(s, c, a).section);
    LockPassing(s, c, a);
    forall d: Client
      ensures RefKnown(t.g, ThreadOf(t, d).pc)
      ensures Erasing(ThreadOf(t, d).pc) <==> t.lock == Some(d)
      ensures ErasingKnown(t, d)
    {
      if d == c {
        OwnRefKnown(s, c, a);
        OwnErasingKnown(s, c, a);
      } else {
        RefsSurvive(s.g, t.g, ThreadOf(s, d).pc);
        OtherErasingKnown(s, c, a, d);
      }
    }
  }

  lemma {:induction false} RunKeepsWaitInv(run: seq<State>, who: seq<Client>, acts: seq<Action>, n: nat)
    requires IsRun(run, who, acts) && n < |run|
    ensures WaitInv(run[n])
  {
    if n == 0 {
    } else {
      RunKeepsWaitInv(run, who, acts, n - 1);
      StepKeepsWaitInv(run[n - 1], who[n - 1], acts[n - 1]);
      assert run[n - 1 + 1] == Step(run[n - 1], who[n - 1], acts[n - 1]);
    }
  }
}
