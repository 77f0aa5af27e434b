/** The shared state of server.cpp and its locked sections: what each one does
    to the global maps while it holds its mutex. */
module Sections {
  import opened Common
  import opened Containers

  /** A client connection, and a wait state on the heap. */
  type Client = nat
  type Ref = nat

  /** What can be waited for: a process to exit or a variable to change. */
  datatype Key = ProcKey(pid: string) | VarKey(pid: string, id: string)

  const SEPARATOR: char := 31 as char

  /** server.cpp:121: the text under which the wait state of a variable is kept. */
  function WaitKeyText(pid: string, id: string): string {
    pid + [SEPARATOR] + id
  }

  /** Process ids are letters, so different keys have different texts, whatever
      characters the variable ids contain. */
  lemma WaitKeyTextInjective(p: string, i: string, q: string, j: string)
    requires SEPARATOR !in p && SEPARATOR !in q && WaitKeyText(p, i) == WaitKeyText(q, j)
    ensures VarKey(p, i) == VarKey(q, j)
  {
    var s := WaitKeyText(p, i);
    assert forall k :: 0 <= k < |p| ==> s[k] == p[k] != SEPARATOR;
    assert forall k :: 0 <= k < |q| ==> s[k] == q[k] != SEPARATOR;
    assert s[|p|] == SEPARATOR && s[|q|] == SEPARATOR;
    assert p == s[..|p|] && q == s[..|q|];
    assert i == s[|p| + 1..] && j == s[|q| + 1..];
  }

  /** The globals of server.cpp:43-48. `states` stands for both wait maps, and
      signals[r] counts the version bumps of wait state r. */
  datatype Globals = Globals(
    sessions: map<Client, string>,
    proofs: map<string, string>,
    subs: map<string, set<string>>,
    store: map<string, Process>,
    states: map<Key, Ref>,
    signals: seq<nat>)

  /** One critical section, or one atomic version bump. */
  datatype Section =
    | Nothing
    | EraseSession
    | BindSession(pid: string)
    | PutProcess(pid: string, process: Process)
    | PutVar(pid: string, id: string, v: Var)
    | DropVar(pid: string, id: string)
    | SyncVarIn(pid: string, id: string, v: Var)
    | SyncProcessIn(pid: string, process: Process)
    | EraseProcess(pid: string)
    | RegisterSub(sub: string)
    | LoginSub(sub: string)
    | CleanUp(pid: string)
    | CloseSession(own: string)
    | Intern(key: Key)
    | Bump(ref: Ref)

  /** `memory_container.process_container[pid]`: a missing process springs up
      empty, with timestamp 0. */
  function ProcessAt(g: Globals, pid: string): Process {
    if pid in g.store then g.store[pid] else Process(map[], 0)
  }

  function VarAt(g: Globals, pid: string, id: string): Option<Var> {
    if pid in g.store && id in g.store[pid].vars then Some(g.store[pid].vars[id]) else None
  }

  function VarsAt(g: Globals, pid: string): set<string> {
    if pid in g.store then g.store[pid].vars.Keys else {}
  }

  function WithVars(g: Globals, pid: string, vars: map<string, Var>): Globals {
    g.(store := g.store[pid := ProcessAt(g, pid).(vars := vars)])
  }

  predicate CanRegister(g: Globals, c: Client, sub: string) {
    && c in g.sessions && sub !in g.proofs
    && (g.sessions[c] in g.subs ==> sub !in g.subs[g.sessions[c]])
  }

  function SubsOf(g: Globals, pid: string): set<string> {
    if pid in g.subs then g.subs[pid] else {}
  }

  function SignalsOf(g: Globals, r: Ref): nat {
    if r < |g.signals| then g.signals[r] else 0
  }

  /** server.cpp:598-615. */
  function DoRegister(g: Globals, c: Client, sub: string): Globals {
    if !CanRegister(g, c, sub) then g
    else
      var pid := g.sessions[c];
      g.(proofs := g.proofs[sub := pid], subs := g.subs[pid := SubsOf(g, pid) + {sub}])
  }

  /** server.cpp:620-628. */
  function DoLogin(g: Globals, c: Client, sub: string): Globals {
    if sub !in g.proofs then g
    else g.(sessions := g.sessions[c := g.proofs[sub]], proofs := g.proofs - {sub})
  }

  /** server.cpp:425-433. */
  function DoCleanUp(g: Globals, c: Client, pid: string): Globals {
    g.(proofs := g.proofs - SubsOf(g, pid), subs := g.subs - {pid}, sessions := g.sessions - {c})
  }

  predicate BoundElsewhere(g: Globals, c: Client, pid: string) {
    exists other :: other in g.sessions && other != c && g.sessions[other] == pid
  }

  predicate Bound(g: Globals, pid: string) {
    exists other :: other in g.sessions && g.sessions[other] == pid
  }

  /** server.cpp:144-210. `own` is the client's subprocess id, empty for none. */
  function DoClose(g: Globals, c: Client, own: string): Globals {
    if c !in g.sessions then g
    else if own != "" then CloseSub(g, c, own, g.sessions[c])
    else CloseParent(g, c, g.sessions[c])
  }

  /** server.cpp:154-179: a subprocess leaves. */
  function CloseSub(g: Globals, c: Client, own: string, pid: string): Globals {
    var left := SubsOf(g, pid) - {own};
    var h := g.(proofs := g.proofs - {own}, sessions := g.sessions - {c});
    if pid !in g.subs then h
    else if left != {} then h.(subs := g.subs[pid := left])
    else
      h.(subs := g.subs - {pid}, store := if Bound(g, pid) then g.store else g.store - {pid})
  }

  /** server.cpp:181-209: a parent leaves. */
  function CloseParent(g: Globals, c: Client, pid: string): Globals {
    if BoundElsewhere(g, c, pid) then g.(sessions := g.sessions - {c})
    else g.(proofs := g.proofs - SubsOf(g, pid), subs := g.subs - {pid}, store := g.store - {pid},
            sessions := g.sessions - {c})
  }

  /** What a section run by client c does to the globals. */
  function Do(g: Globals, c: Client, section: Section): Globals {
    match section
    case Nothing => g
    case EraseSession => g.(sessions := g.sessions - {c})
    case BindSession(pid) => g.(sessions := g.sessions[c := pid])
    case PutProcess(pid, process) => g.(store := g.store[pid := process])
    case PutVar(pid, id, v) => WithVars(g, pid, ProcessAt(g, pid).vars[id := v])
    case DropVar(pid, id) =>
      if VarAt(g, pid, id).Some? then WithVars(g, pid, g.store[pid].vars - {id}) else g
    case SyncVarIn(pid, id, v) =>
      var vars := ProcessAt(g, pid).vars;
      WithVars(g, pid, if id in vars then vars[id := NewerVar(vars[id], v)] else vars)
    case SyncProcessIn(pid, process) =>
      g.(store := g.store[pid := NewerProcess(ProcessAt(g, pid), process)])
    case EraseProcess(pid) => g.(store := g.store - {pid})
    case RegisterSub(sub) => DoRegister(g, c, sub)
    case LoginSub(sub) => DoLogin(g, c, sub)
    case CleanUp(pid) => DoCleanUp(g, c, pid)
    case CloseSession(own) => DoClose(g, c, own)
    case Intern(key) =>
      if key in g.states then g
      else g.(states := g.states[key := |g.signals|], signals := g.signals + [0])
    case Bump(ref) =>
      if ref < |g.signals| then g.(signals := g.signals[ref := g.signals[ref] + 1]) else g
  }

  // ------------------------------------------- what the registry sections do

  /** A registration is accepted if the client has a session and its process has
      no such subprocess, open or listed; it opens a proof and lists it. */
  lemma RegisterDoes(g: Globals, c: Client, sub: string)
    ensures
      var h := Do(g, c, RegisterSub(sub));
      if c in g.sessions && sub !in g.proofs && (g.sessions[c] in g.subs ==> sub !in g.subs[g.sessions[c]]) then
        var pid := g.sessions[c];
        && h.proofs == g.proofs[sub := pid]
        && h.subs == g.subs[pid := (if pid in g.subs then g.subs[pid] else {}) + {sub}]
        && h == g.(proofs := h.proofs, subs := h.subs)
      else h == g
  {
  }

  /** A login with an open proof binds the client to the process that the proof
      was opened for, and closes the proof. */
  lemma LoginDoes(g: Globals, c: Client, sub: string)
    ensures
      var h := Do(g, c, LoginSub(sub));
      if sub in g.proofs then h == g.(sessions := g.sessions[c := g.proofs[sub]], proofs := g.proofs - {sub})
      else h == g
  {
  }

  /** So d's login as the subprocess that c registered binds d to c's process. */
  lemma RegisterThenLogin(g: Globals, c: Client, d: Client, sub: string)
    requires CanRegister(g, c, sub)
    ensures
      var h := Do(Do(g, c, RegisterSub(sub)), d, LoginSub(sub));
      && d in h.sessions && h.sessions[d] == g.sessions[c] && sub !in h.proofs
      && forall e :: e != d ==>
           (e in h.sessions <==> e in g.sessions) && (e in g.sessions ==> h.sessions[e] == g.sessions[e])
  {
    RegisterDoes(g, c, sub);
    LoginDoes(Do(g, c, RegisterSub(sub)), d, sub);
    hide Do;
  }

  /** What `del process` leaves of a process it has erased: nothing in the registry
      and no session of its own. */
  lemma CleanUpDoes(g: Globals, c: Client, pid: string)
    ensures
      var h := Do(g, c, CleanUp(pid));
      var listed := if pid in g.subs then g.subs[pid] else {};
      h == g.(proofs := g.proofs - listed, subs := g.subs - {pid}, sessions := g.sessions - {c})
  {
  }

  /** A subprocess that leaves takes its own proof and its own entry along; an
      empty list goes too. The store stays. */
  lemma CloseSubDoes(g: Globals, c: Client, own: string)
    requires own != "" && c in g.sessions
    ensures
      var h := Do(g, c, CloseSession(own));
      var pid := g.sessions[c];
      && h == g.(proofs := g.proofs - {own}, sessions := g.sessions - {c}, subs := h.subs)
      && h.subs == (if pid !in g.subs then g.subs
                    else if g.subs[pid] - {own} == {} then g.subs - {pid}
                    else g.subs[pid := g.subs[pid] - {own}])
  {
    assert Bound(g, g.sessions[c]);
  }

  /** A parent that leaves while others are bound to its process loses its session
      only; the last one takes process, list and proofs along. */
  lemma CloseParentDoes(g: Globals, c: Client)
    requires c in g.sessions
    ensures
      var h := Do(g, c, CloseSession(""));
      var pid := g.sessions[c];
      var listed := if pid in g.subs then g.subs[pid] else {};
      if exists d :: d in g.sessions && d != c && g.sessions[d] == pid then h == g.(sessions := g.sessions - {c})
      else h == g.(sessions := g.sessions - {c}, proofs := g.proofs - listed, subs := g.subs - {pid},
                   store := g.store - {pid})
  {
  }

  /** A client without a session leaves nothing behind. */
  lemma CloseStrangerDoes(g: Globals, c: Client, own: string)
    requires c !in g.sessions
    ensures Do(g, c, CloseSession(own)) == g
  {
  }

  /** Writing a variable keeps the rest of its process, timestamp included, and
      every other process. */
  lemma VarSectionsKeepRest(g: Globals, c: Client, section: Section, pid: string)
    requires section.PutVar? || section.DropVar? || section.SyncVarIn?
    requires section.pid == pid && (section.SyncVarIn? ==> pid in g.store)
    ensures
      var h := Do(g, c, section);
      && h == g.(store := h.store)
      && (pid in h.store ==> h.store[pid].timestamp == if pid in g.store then g.store[pid].timestamp else 0)
      && (forall p :: p != pid ==> (p in h.store <==> p in g.store) && (p in g.store ==> h.store[p] == g.store[p]))
  {
  }

  // --------------------------------------------- invariants of every section

  /** Every open proof belongs to a listed subprocess, and no list is empty. */
  ghost predicate RegistryInv(g: Globals) {
    && (forall s :: s in g.proofs ==> g.proofs[s] in g.subs && s in g.subs[g.proofs[s]])
    && (forall p :: p in g.subs ==> g.subs[p] != {})
  }

  lemma RegisterKeepsRegistry(g: Globals, c: Client, sub: string)
    requires RegistryInv(g)
    ensures RegistryInv(DoRegister(g, c, sub))
  {
  }

  lemma CleanUpKeepsRegistry(g: Globals, c: Client, pid: string)
    requires RegistryInv(g)
    ensures RegistryInv(DoCleanUp(g, c, pid))
  {
  }

  lemma CloseKeepsRegistry(g: Globals, c: Client, own: string)
    requires RegistryInv(g)
    ensures RegistryInv(DoClose(g, c, own))
  {
  }

  /** Whatever section runs, the proofs and the subprocess table stay in step. */
  lemma SectionKeepsRegistry(g: Globals, c: Client, section: Section)
    requires RegistryInv(g)
    ensures RegistryInv(Do(g, c, section))
  {
    match section
    case RegisterSub(sub) => RegisterKeepsRegistry(g, c, sub);
    case CleanUp(pid) => CleanUpKeepsRegistry(g, c, pid);
    case CloseSession(own) => CloseKeepsRegistry(g, c, own);
    case _ =>
  }

  /** Wait states live on the heap, one per key. */
  ghost predicate StatesInv(g: Globals) {
    && (forall k :: k in g.states ==> g.states[k] < |g.signals|)
    && (forall k, l :: k in g.states && l in g.states && g.states[k] == g.states[l] ==> k == l)
  }

  /** A key keeps its wait state and versions never go back. */
  ghost predicate StatesGrow(g: Globals, h: Globals) {
    && (forall k :: k in g.states ==> k in h.states && h.states[k] == g.states[k])
    && |g.signals| <= |h.signals|
    && (forall r :: 0 <= r < |g.signals| ==> g.signals[r] <= h.signals[r])
  }

  lemma InternGrowsStates(g: Globals, c: Client, key: Key)
    requires StatesInv(g)
    ensures StatesInv(Do(g, c, Intern(key))) && StatesGrow(g, Do(g, c, Intern(key)))
  {
  }

  lemma SectionGrowsStates(g: Globals, c: Client, section: Section)
    requires StatesInv(g)
    ensures StatesInv(Do(g, c, section)) && StatesGrow(g, Do(g, c, section))
  {
    match section
    case Intern(key) => InternGrowsStates(g, c, key);
    case Bump(ref) =>
    case _ => OtherSectionsKeepStates(g, c, section);
  }

  lemma OtherSectionsKeepStates(g: Globals, c: Client, section: Section)
    requires !section.Intern? && !section.Bump?
    ensures Do(g, c, section).states == g.states && Do(g, c, section).signals == g.signals
  {
  }

  // ---------------------------------------------------------- close_session

  /** Closing a parent session removes the stored process exactly when no other
      client is bound to it. */
  lemma CloseParentErasesIff(g: Globals, c: Client)
    requires c in g.sessions && g.sessions[c] in g.store
    ensures g.sessions[c] !in DoClose(g, c, "").store <==> !BoundElsewhere(g, c, g.sessions[c])
    ensures forall p :: p != g.sessions[c] ==> (p in g.store <==> p in DoClose(g, c, "").store)
  {
  }

  /** Closing a subprocess session never removes a stored process: the closing
      client is still bound to it when the check for bound clients runs, so the
      clean-up after the last subprocess is out of reach. */
  lemma CloseSubKeepsStore(g: Globals, c: Client, own: string)
    requires own != ""
    ensures DoClose(g, c, own).store == g.store
  {
  }
}
