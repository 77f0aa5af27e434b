/** Sessions, proofs and subprocess logins over every interleaving. */
module Registry {
  import opened Common
  import opened Sections
  import opened Threads

  // --------------------------------------------------------- proofs and logins

  /** Every open proof has an unused registration behind it, and every login
      that happened used up a registration of its own, made earlier for the same
      subprocess and process. */
  ghost predicate LogInv(s: State) {
    && (forall sub :: sub in s.g.proofs ==> Backed(s, sub))
    && (forall i :: 0 <= i < |s.log| && s.log[i].UsedProof? ==> Justified(s.log, i))
    && (forall i, j :: 0 <= i < j < |s.log| && s.log[i].UsedProof? && s.log[j].UsedProof?
          ==> s.log[i].ticket != s.log[j].ticket)
  }

  ghost predicate Backed(s: State, sub: string)
    requires sub in s.g.proofs
  {
    && sub in s.tickets && s.tickets[sub] < |s.log|
    && s.log[s.tickets[sub]] == Registered(sub, s.g.proofs[sub])
    && forall i :: 0 <= i < |s.log| && s.log[i].UsedProof? ==> s.log[i].ticket != s.tickets[sub]
  }

  ghost predicate Justified(log: seq<Event>, i: nat)
    requires i < |log| && log[i].UsedProof?
  {
    log[i].ticket < i && log[log[i].ticket] == Registered(log[i].sub, log[i].pid)
  }

  /** Only a registration opens a proof. */
  lemma ProofsOnlyShrink(g: Globals, c: Client, section: Section)
    requires !section.RegisterSub?
    ensures forall s :: s in Do(g, c, section).proofs ==> s in g.proofs && Do(g, c, section).proofs[s] == g.proofs[s]
  {
  }

  lemma RegistrationKeepsLog(s: State, t: State, c: Client, sub: string)
    requires LogInv(s) && CanRegister(s.g, c, sub)
    requires t.g.proofs == s.g.proofs[sub := s.g.sessions[c]]
    requires t.log == s.log + [Registered(sub, s.g.sessions[c])] && t.tickets == s.tickets[sub := |s.log|]
    ensures LogInv(t)
  {
    forall i | 0 <= i < |t.log| && t.log[i].UsedProof?
      ensures Justified(t.log, i)
    {
      assert Justified(s.log, i);
    }
    forall x | x in t.g.proofs
      ensures Backed(t, x)
    {
      if x != sub {
        assert Backed(s, x);
      }
    }
  }

  lemma LoginKeepsLog(s: State, t: State, sub: string)
    requires LogInv(s) && sub in s.g.proofs
    requires t.g.proofs == s.g.proofs - {sub} && t.tickets == s.tickets
    requires sub in s.tickets && t.log == s.log + [UsedProof(sub, s.g.proofs[sub], s.tickets[sub])]
    ensures LogInv(t)
  {
    assert Backed(s, sub);
    forall i | 0 <= i < |t.log| && t.log[i].UsedProof?
      ensures Justified(t.log, i)
    {
      if i < |s.log| {
        assert Justified(s.log, i);
      }
    }
    forall x | x in t.g.proofs
      ensures Backed(t, x)
    {
      assert Backed(s, x);
    }
  }

  lemma QuietKeepsLog(s: State, t: State)
    requires LogInv(s) && t.log == s.log && t.tickets == s.tickets
    requires forall x :: x in t.g.proofs ==> x in s.g.proofs && t.g.proofs[x] == s.g.proofs[x]
    ensures LogInv(t)
  {
    forall x | x in t.g.proofs
      ensures Backed(t, x)
    {
      assert Backed(s, x);
    }
  }

  lemma StepKeepsLog(s: State, c: Client, a: Action)
    requires LogInv(s)
    ensures LogInv(Step(s, c, a))
  {
    hide NextPlan, LogInv;
    var section := PlanOf(s, c, a).section;
    var t := Step(s, c, a);
    if section.RegisterSub? && CanRegister(s.g, c, section.sub) {
      RegistrationKeepsLog(s, t, c, section.sub);
    } else if section.LoginSub? && section.sub in s.g.proofs {
      BackedProof(s, section.sub);
      LoginKeepsLog(s, t, section.sub);
    } else {
      if !section.RegisterSub? {
        ProofsOnlyShrink(s.g, c, section);
      }
      QuietKeepsLog(s, t);
    }
  }

  lemma BackedProof(s: State, sub: string)
    requires LogInv(s) && sub in s.g.proofs
    ensures Backed(s, sub)
  {
  }

  // --------------------------------------------------- logins find their parent

  /** The step registers sub for the process pid that the client is bound to. */
  ghost predicate Registers(s: State, c: Client, a: Action, sub: string, pid: string) {
    && PlanOf(s, c, a).section == RegisterSub(sub)
    && c in s.g.sessions && s.g.sessions[c] == pid && sub !in s.g.proofs
  }

  /** Every registration in the log was made by a client of the process. */
  lemma {:induction false} RegisteredBy(run: seq<State>, who: seq<Client>, acts: seq<Action>, n: nat, i: nat,
                                        sub: string, pid: string)
    requires IsRun(run, who, acts) && n < |run| && i < |run[n].log| && run[n].log[i] == Registered(sub, pid)
    ensures exists m :: 0 <= m < n && |run[m].log| == i && Registers(run[m], who[m], acts[m], sub, pid)
  {
    hide PlanOf, Do;
    if n == 0 {
    } else {
      assert run[n - 1 + 1] == Step(run[n - 1], who[n - 1], acts[n - 1]);
      if i < |run[n - 1].log| {
        RegisteredBy(run, who, acts, n - 1, i, sub, pid);
      } else {
        assert Registers(run[n - 1], who[n - 1], acts[n - 1], sub, pid);
      }
    }
  }

  lemma LoginStep(s: State, c: Client, a: Action, sub: string, pid: string, ticket: nat)
    requires Step(s, c, a).log == s.log + [UsedProof(sub, pid, ticket)]
    ensures sub in s.g.proofs && s.g.proofs[sub] == pid && sub !in Step(s, c, a).g.proofs
    ensures Step(s, c, a).g.sessions == s.g.sessions[c := pid]
  {
    hide NextPlan, Do;
    var section := PlanOf(s, c, a).section;
    var t := Step(s, c, a);
    assert t.log[|s.log|] == UsedProof(sub, pid, ticket);
    assert section == LoginSub(sub);
    LoginDoes(s.g, c, sub);
  }

  /** Over every run: the client of a login ends bound to the process that the
      client who registered the subprocess was bound to when it did, and the
      proof is gone. */
  lemma LoginBindsToParent(run: seq<State>, who: seq<Client>, acts: seq<Action>, n: nat, sub: string, pid: string,
                           ticket: nat)
    requires IsRun(run, who, acts) && n < |who|
    requires run[n + 1].log == run[n].log + [UsedProof(sub, pid, ticket)]
    ensures run[n + 1].g.sessions == run[n].g.sessions[who[n] := pid] && sub !in run[n + 1].g.proofs
    ensures exists m :: 0 <= m < n && |run[m].log| == ticket && Registers(run[m], who[m], acts[m], sub, pid)
  {
    hide Step, Registers;
    assert run[n + 1] == Step(run[n], who[n], acts[n]);
    LoginStep(run[n], who[n], acts[n], sub, pid, ticket);
    RunIsRegistrySafe(run, who, acts, n + 1);
    var i := |run[n].log|;
    assert run[n + 1].log[i] == UsedProof(sub, pid, ticket);
    assert Justified(run[n + 1].log, i);
    assert run[n].log[ticket] == Registered(sub, pid);
    RegisteredBy(run, who, acts, n, ticket, sub, pid);
  }

  // ------------------------------------------------------------------ sessions

  /** What the sections ahead of a pc rely on about the client's own session:
      there is an entry, and its process id is the one that was read. */
  ghost predicate SessionFor(g: Globals, c: Client, pc: Pc) {
    match pc
    case Admitted(_) => c in g.sessions
    case Bound(_, pid) => c in g.sessions && g.sessions[c] == pid
    case Found(_, pid) => c in g.sessions && g.sessions[c] == pid
    case Replacing(pid, _, _) => c in g.sessions && g.sessions[c] == pid
    case Merging(pid, _, _) => c in g.sessions && g.sessions[c] == pid
    case RegBound(pid, _) => c in g.sessions && g.sessions[c] == pid
    case LoggedIn(_) => c in g.sessions
    case _ => true
  }

  ghost predicate SessionKnown(s: State, c: Client) {
    SessionFor(s.g, c, ThreadOf(s, c).pc)
  }

  /** No section touches the session of another client. */
  lemma SectionsKeepOtherSessions(g: Globals, c: Client, other: Client, section: Section)
    requires other != c
    ensures other in g.sessions <==> other in Do(g, c, section).sessions
    ensures other in g.sessions ==> Do(g, c, section).sessions[other] == g.sessions[other]
  {
    hide Do;
    var h := Do(g, c, section);
    SectionsOnOwnSession(g, c, section);
    assert other in h.sessions - {c} <==> other in h.sessions;
    assert other in g.sessions - {c} <==> other in g.sessions;
    if other in g.sessions {
      assert (g.sessions - {c})[other] == g.sessions[other];
    }
    if other in h.sessions {
      assert (h.sessions - {c})[other] == h.sessions[other];
    }
  }

  /** Apart from the client's own entry the session map stays as it is. */
  lemma SectionsOnOwnSession(g: Globals, c: Client, section: Section)
    ensures Do(g, c, section).sessions - {c} == g.sessions - {c}
  {
    hide DoClose, SubsOf, ProcessAt;
    if section.CloseSession? {
      CloseOnOwnSession(g, c, section.own);
    }
  }

  lemma CloseOnOwnSession(g: Globals, c: Client, own: string)
    ensures DoClose(g, c, own).sessions - {c} == g.sessions - {c}
  {
    hide SubsOf, Sections.Bound, BoundElsewhere;
    if c in g.sessions {
      assert DoClose(g, c, own).sessions == g.sessions - {c};
      assert g.sessions - {c} - {c} == g.sessions - {c};
    }
  }

  predicate InCommand(pc: Pc) {
    pc.Admitted? || pc.Bound? || pc.Found? || pc.Replacing? || pc.Merging? || pc.RegBound? || pc.LoggedIn?
  }

  /** What a thread is about to rely on it has just read, in a section that left
      the maps alone, or just written, by registering or logging in. */
  lemma PlannedSession(g: Globals, lock: Option<Client>, c: Client, t: Thread, a: Action)
    requires SessionFor(g, c, t.pc)
    ensures
      var p := NextPlan(g, lock, c, t, a);
      || (SessionFor(g, c, p.pc) && (InCommand(p.pc) ==> p.section == Nothing))
      || (p.pc.RegBound? && p.section == BindSession(p.pc.pid))
      || (p.pc.LoggedIn? && p.section == LoginSub(p.pc.sub) && p.pc.sub in g.proofs)
  {
  }

  lemma OwnSessionKnown(s: State, c: Client, a: Action)
    requires SessionKnown(s, c)
    ensures SessionKnown(Step(s, c, a), c)
  {
    hide NextPlan;
    PlannedSession(s.g, s.lock, c, ThreadOf(s, c), a);
  }

  lemma StepKeepsSessionKnown(s: State, c: Client, a: Action, other: Client)
    requires SessionKnown(s, c) && SessionKnown(s, other)
    ensures SessionKnown(Step(s, c, a), other)
  {
    hide NextPlan, Do;
    if other == c {
      OwnSessionKnown(s, c, a);
    } else {
      SectionsKeepOtherSessions(s.g, c, other, PlanOf(s, c, a).section);
    }
  }

  // ----------------------------------------------------------------- all runs

  ghost predicate RegistrySafe(s: State) {
    RegistryInv(s.g) && LogInv(s) && forall c :: SessionKnown(s, c)
  }

  lemma StepKeepsRegistrySafe(s: State, c: Client, a: Action)
    requires RegistrySafe(s)
    ensures RegistrySafe(Step(s, c, a))
  {
    hide LogInv, RegistryInv, SessionKnown, NextPlan;
    SectionKeepsRegistry(s.g, c, PlanOf(s, c, a).section);
    StepKeepsLog(s, c, a);
    forall other: Client
      ensures SessionKnown(Step(s, c, a), other)
    {
      StepKeepsSessionKnown(s, c, a, other);
    }
  }

  /** In every state of every run: open proofs are listed subprocesses, no list
      is empty, each login has used up a registration of its own, and a command
      past its session check finds the client's session entry. */
  lemma {:induction false} RunIsRegistrySafe(run: seq<State>, who: seq<Client>, acts: seq<Action>, n: nat)
    requires IsRun(run, who, acts) && n < |run|
    ensures RegistrySafe(run[n])
  {
    if n == 0 {
    } else {
      RunIsRegistrySafe(run, who, acts, n - 1);
      StepKeepsRegistrySafe(run[n - 1], who[n - 1], acts[n - 1]);
      assert run[n - 1 + 1] == Step(run[n - 1], who[n - 1], acts[n - 1]);
    }
  }

  // ------------------------------------------------ registered only once

  /** After the check that the process is free and before it is stored. */
  predicate Registering(pc: Pc, pid: string) {
    (pc.RegFree? || pc.RegBound?) && pc.pid == pid
  }

  /** The step finds that no such process exists yet, server.cpp:578-584. */
  predicate PassesCheck(s: State, c: Client, a: Action, pid: string) {
    ThreadOf(s, c).pc.RegChecked? && ThreadOf(s, c).pc.pid == pid && PlanOf(s, c, a).pc.RegFree?
  }

  lemma CheckFindsNone(s: State, c: Client, a: Action, pid: string)
    requires PassesCheck(s, c, a, pid)
    ensures pid !in s.g.store && Registering(PlanOf(s, c, a).pc, pid)
  {
  }

  /** A registering thread stays so until it stores the process. */
  lemma RegisteringPlan(g: Globals, lock: Option<Client>, c: Client, t: Thread, a: Action, pid: string)
    requires Registering(t.pc, pid)
    ensures
      var p := NextPlan(g, lock, c, t, a);
      Registering(p.pc, pid) || pid in Do(g, c, p.section).store
  {
  }

  lemma RegisteringStep(s: State, c: Client, a: Action, d: Client, pid: string)
    requires Registering(ThreadOf(s, d).pc, pid)
    ensures Registering(ThreadOf(Step(s, c, a), d).pc, pid) || pid in Step(s, c, a).g.store
  {
    hide NextPlan, Do;
    if c == d {
      RegisteringPlan(s.g, s.lock, c, ThreadOf(s, c), a, pid);
    }
  }

  /** The process was there and is gone. */
  ghost predicate Erased(run: seq<State>, m: nat, pid: string) {
    m + 1 < |run| && pid in run[m].g.store && pid !in run[m + 1].g.store
  }

  lemma {:induction false} StillRegistering(run: seq<State>, who: seq<Client>, acts: seq<Action>, j: nat, k: nat,
                                            pid: string)
    requires IsRun(run, who, acts) && j < k < |run| && PassesCheck(run[j], who[j], acts[j], pid)
    ensures
      || Registering(ThreadOf(run[k], who[j]).pc, pid) || pid in run[k].g.store
      || exists m :: j < m < k && Erased(run, m, pid)
    decreases k
  {
    hide Step, PassesCheck;
    assert run[k - 1 + 1] == Step(run[k - 1], who[k - 1], acts[k - 1]);
    if k == j + 1 {
      CheckFindsNone(run[j], who[j], acts[j], pid);
      AfterStep(run[j], who[j], acts[j]);
    } else {
      StillRegistering(run, who, acts, j, k - 1, pid);
      if Registering(ThreadOf(run[k - 1], who[j]).pc, pid) {
        RegisteringStep(run[k - 1], who[k - 1], acts[k - 1], who[j], pid);
      } else if pid in run[k - 1].g.store && pid !in run[k].g.store {
        assert Erased(run, k - 1, pid);
      }
    }
  }

  /** A second client is told that the same process is free only while the first
      is still between its check and its insert, or after the process was erased.
      So a registration that is not overlapped is the only one. */
  lemma SecondRegistration(run: seq<State>, who: seq<Client>, acts: seq<Action>, j: nat, k: nat, pid: string)
    requires IsRun(run, who, acts) && j < k < |who|
    requires PassesCheck(run[j], who[j], acts[j], pid) && PassesCheck(run[k], who[k], acts[k], pid)
    ensures
      || (who[j] != who[k] && Registering(ThreadOf(run[k], who[j]).pc, pid))
      || exists m :: j < m < k && Erased(run, m, pid)
  {
    hide Step;
    CheckFindsNone(run[k], who[k], acts[k], pid);
    StillRegistering(run, who, acts, j, k, pid);
  }
}
