/** The global maps of server.cpp as an object, its locked sections as methods,
    and the variable commands run one at a time. */
module Server {
  import opened Common
  import opened Containers
  import opened Sections
  import opened PlainStore

  // ------------------------------------------ commands one after the other

  /** server.cpp:79-93. */
  function Signalled(g: Globals, c: Client, key: Key): Globals {
    var h := Do(g, c, Intern(key));
    Do(h, c, Bump(h.states[key]))
  }

  /** The sections a variable command runs when no other client is in between,
      and how it ends. */
  function Execute(g: Globals, r: Request): (Globals, Response)
    decreases r.cmd.SyncCmd?
  {
    if r.c !in g.sessions then (g, Refused)
    else
      var pid := g.sessions[r.c];
      var key := VarKey(pid, r.cmd.id);
      if pid !in g.store && !r.cmd.SetCmd? then (Do(g, r.c, EraseSession), ProcessNotFound)
      else match r.cmd
        case SetCmd(id, v) => (Signalled(Do(g, r.c, PutVar(pid, id, v)), r.c, key), Completed)
        case GetCmd(id) =>
          (g, match VarAt(g, pid, id) case Some(v) => Value(v) case None => VarNotFound)
        case DelCmd(id) =>
          (Signalled(Do(g, r.c, DropVar(pid, id)), r.c, key),
           if VarAt(g, pid, id).Some? then Completed else VarNotFound)
        case SyncCmd(id, v) =>
          var h := Do(g, r.c, SyncVarIn(pid, id, v));
          if VarAt(g, pid, id).Some? then (h, Completed) else Execute(h, Request(r.c, SetCmd(id, v)))
  }

  function ExecuteAll(g: Globals, rs: seq<Request>): (Globals, seq<Response>)
    decreases |rs|
  {
    if rs == [] then (g, [])
    else
      var (h, response) := Execute(g, rs[0]);
      var (last, rest) := ExecuteAll(h, rs[1..]);
      (last, [response] + rest)
  }

  // -------------------------------------------- the store as a plain map

  /** What the globals mean to the variable commands. */
  function PlainOf(g: Globals): (m: Plain)
    ensures forall k :: Lookup(m, k) == VarAt(g, k.0, k.1)
  {
    Plain(g.sessions, map p, i | p in g.store && i in g.store[p].vars :: (p, i) := g.store[p].vars[i], g.store.Keys)
  }

  /** The section writes one variable and no other. */
  lemma PutVarWrites(g: Globals, c: Client, pid: string, id: string, v: Var, k: Place)
    ensures
      var h := Do(g, c, PutVar(pid, id, v));
      && h.store.Keys == g.store.Keys + {pid} && h.sessions == g.sessions
      && VarAt(h, k.0, k.1) == if k == (pid, id) then Some(v) else VarAt(g, k.0, k.1)
  {
  }

  lemma DropVarRemoves(g: Globals, c: Client, pid: string, id: string, k: Place)
    ensures
      var h := Do(g, c, DropVar(pid, id));
      && h.store.Keys == g.store.Keys && h.sessions == g.sessions
      && VarAt(h, k.0, k.1) == if k == (pid, id) then None else VarAt(g, k.0, k.1)
  {
  }

  lemma SyncVarMerges(g: Globals, c: Client, pid: string, id: string, v: Var, k: Place)
    requires pid in g.store
    ensures
      var h := Do(g, c, SyncVarIn(pid, id, v));
      && h.store.Keys == g.store.Keys && h.sessions == g.sessions
      && VarAt(h, k.0, k.1)
        == (match VarAt(g, k.0, k.1)
            case Some(w) => if k == (pid, id) then Some(NewerVar(w, v)) else Some(w)
            case None => None)
  {
  }

  lemma Interned(g: Globals, c: Client, key: Key)
    ensures
      var h := Do(g, c, Intern(key));
      && key in h.states && h == g.(states := h.states, signals := h.signals)
      && (StatesInv(g) ==>
            SignalsOf(h, h.states[key]) == if key in g.states then SignalsOf(g, g.states[key]) else 0)
  {
  }

  lemma Bumped(g: Globals, c: Client, ref: Ref)
    ensures
      var h := Do(g, c, Bump(ref));
      h == g.(signals := h.signals) && (ref < |g.signals| ==> SignalsOf(h, ref) == SignalsOf(g, ref) + 1)
  {
  }

  /** A signal moves the version of one key by one, and nothing else. */
  lemma SignalledKeeps(g: Globals, c: Client, key: Key)
    requires StatesInv(g)
    ensures
      var h := Signalled(g, c, key);
      && StatesInv(h) && StatesGrow(g, h) && h == g.(states := h.states, signals := h.signals)
      && key in h.states
      && SignalsOf(h, h.states[key]) == 1 + if key in g.states then SignalsOf(g, g.states[key]) else 0
  {
    hide Do, SignalsOf;
    var h := Do(g, c, Intern(key));
    Interned(g, c, key);
    Bumped(h, c, h.states[key]);
    SectionGrowsStates(g, c, Intern(key));
    SectionGrowsStates(h, c, Bump(h.states[key]));
  }

  lemma SignalledStore(g: Globals, c: Client, key: Key, k: Place)
    ensures
      var h := Signalled(g, c, key);
      h.sessions == g.sessions && h.store.Keys == g.store.Keys && VarAt(h, k.0, k.1) == VarAt(g, k.0, k.1)
  {
    hide Do;
    Interned(g, c, key);
    var h := Do(g, c, Intern(key));
    Bumped(h, c, h.states[key]);
  }

  lemma SetLookups(g: Globals, c: Client, pid: string, id: string, v: Var, key: Key, k: Place)
    ensures
      var h := Signalled(Do(g, c, PutVar(pid, id, v)), c, key);
      && h.store.Keys == g.store.Keys + {pid} && h.sessions == g.sessions
      && VarAt(h, k.0, k.1) == if k == (pid, id) then Some(v) else VarAt(g, k.0, k.1)
  {
    hide Do, VarAt, Signalled;
    PutVarWrites(g, c, pid, id, v, k);
    SignalledStore(Do(g, c, PutVar(pid, id, v)), c, key, k);
  }

  /** One command does to every lookup what the plain map does. */
  lemma ExecuteLookups(g: Globals, m: Plain, r: Request, k: Place)
    requires m.sessions == g.sessions && m.present == g.store.Keys && Lookup(m, k) == VarAt(g, k.0, k.1)
    requires r.c in g.sessions ==> Lookup(m, (g.sessions[r.c], r.cmd.id)) == VarAt(g, g.sessions[r.c], r.cmd.id)
    ensures
      var (h, response) := Execute(g, r);
      var (n, plain) := PlainStep(m, r);
      && response == plain && n.sessions == h.sessions && n.present == h.store.Keys
      && Lookup(n, k) == VarAt(h, k.0, k.1)
  {
    hide Do, VarAt, Signalled;
    if r.c in g.sessions {
      var pid := g.sessions[r.c];
      var key := VarKey(pid, r.cmd.id);
      if pid !in g.store && !r.cmd.SetCmd? {
        SessionErased(g, r.c, k);
      } else {
        match r.cmd
        case SetCmd(id, v) =>
          SetLookups(g, r.c, pid, id, v, key, k);
        case GetCmd(id) =>
        case DelCmd(id) =>
          DropVarRemoves(g, r.c, pid, id, k);
          SignalledStore(Do(g, r.c, DropVar(pid, id)), r.c, key, k);
        case SyncCmd(id, v) =>
          SyncVarMerges(g, r.c, pid, id, v, k);
          SetLookups(Do(g, r.c, SyncVarIn(pid, id, v)), r.c, pid, id, v, key, k);
      }
    }
  }

  lemma SessionErased(g: Globals, c: Client, k: Place)
    ensures Do(g, c, EraseSession).sessions == g.sessions - {c} && Do(g, c, EraseSession).store == g.store
    ensures VarAt(Do(g, c, EraseSession), k.0, k.1) == VarAt(g, k.0, k.1)
  {
  }

  /** A command on the globals is the same command on the plain map, responses
      included. */
  lemma ExecuteIsPlain(g: Globals, r: Request)
    ensures
      var (h, response) := Execute(g, r);
      PlainStep(PlainOf(g), r) == (PlainOf(h), response)
  {
    hide Execute, PlainStep, VarAt, Lookup;
    var m, h := PlainOf(g), Execute(g, r).0;
    var n := PlainStep(m, r).0;
    PlainFields(g);
    PlainFields(h);
    forall k: Place
      ensures Lookup(n, k) == Lookup(PlainOf(h), k)
    {
      ExecuteLookups(g, m, r, k);
      assert Lookup(PlainOf(h), k) == VarAt(h, k.0, k.1);
    }
    ExecuteLookups(g, m, r, ("", ""));
    SamePlain(n, PlainOf(h));
  }

  lemma PlainFields(g: Globals)
    ensures PlainOf(g).sessions == g.sessions && PlainOf(g).present == g.store.Keys
    ensures forall p, i :: Lookup(PlainOf(g), (p, i)) == VarAt(g, p, i)
  {
  }

  /** Over every run of set, get, del and sync commands by any clients, the
      server answers and ends as the plain map does. */
  lemma {:induction false} RunIsPlain(g: Globals, rs: seq<Request>)
    ensures
      var (h, responses) := ExecuteAll(g, rs);
      PlainRun(PlainOf(g), rs) == (PlainOf(h), responses)
    decreases |rs|
  {
    hide Execute, PlainStep, PlainOf;
    if rs == [] {
    } else {
      ExecuteIsPlain(g, rs[0]);
      RunIsPlain(Execute(g, rs[0]).0, rs[1..]);
    }
  }

  /** A run of syncs, by any clients on any variables, leaves the server's store
      and sessions the same in every order, if and only if the newest brought
      values agree. */
  lemma ServerSyncAnyOrderIff(g: Globals, s: seq<Request>)
    requires OnlySyncs(s)
    ensures NewestAgree(PlainOf(g), s) <==>
      forall t :: multiset(t) == multiset(s) ==> PlainOf(ExecuteAll(g, t).0) == PlainOf(ExecuteAll(g, s).0)
  {
    hide NewestAgree, ExecuteAll, PlainRun, PlainOf;
    SyncAnyOrderIff(PlainOf(g), s);
    RunIsPlain(g, s);
    if NewestAgree(PlainOf(g), s) {
      forall t | multiset(t) == multiset(s)
        ensures PlainOf(ExecuteAll(g, t).0) == PlainOf(ExecuteAll(g, s).0)
      {
        RunIsPlain(g, t);
      }
    } else {
      var t :| multiset(t) == multiset(s) && PlainRun(PlainOf(g), t).0 != PlainRun(PlainOf(g), s).0;
      RunIsPlain(g, t);
    }
  }

  // ------------------------------------------------------------- the server

  class Server {
    var sessions: map<Client, string>
    var proofs: map<string, string>
    var subs: map<string, set<string>>
    var store: map<string, Process>
    var states: map<Key, Ref>
    var signals: seq<nat>

    function G(): Globals
      reads this
    {
      Globals(sessions, proofs, subs, store, states, signals)
    }

    constructor ()
      ensures G() == Globals(map[], map[], map[], map[], map[], [])
    {
      sessions, proofs, subs, store, states, signals := map[], map[], map[], map[], map[], [];
    }

    /** server.cpp:70-77. */
    method GetWaitState(c: Client, key: Key) returns (ref: Ref)
      modifies this`states, this`signals
      ensures G() == Do(old(G()), c, Intern(key))
      ensures key in states && ref == states[key]
    {
      if key !in states {
        states := states[key := |signals|];
        signals := signals + [0];
      }
      ref := states[key];
    }

    /** server.cpp:79-93. */
    method SignalWaitState(c: Client, key: Key)
      requires key in states ==> states[key] < |signals|
      modifies this`states, this`signals
      ensures key in states && G() == Signalled(old(G()), c, key)
    {
      var ref := GetWaitState(c, key);
      signals := signals[ref := signals[ref] + 1];
    }

    /** server.cpp:598-615. */
    method RegisterSubprocess(c: Client, sub: string) returns (ok: bool)
      requires c in sessions
      modifies this`proofs, this`subs
      ensures ok <==> CanRegister(old(G()), c, sub)
      ensures G() == Do(old(G()), c, RegisterSub(sub))
    {
      if sub in proofs {
        return false;
      }
      var pid := sessions[c];
      var listed := if pid in subs then subs[pid] else {};
      if sub in listed {
        return false;
      }
      proofs := proofs[sub := pid];
      subs := subs[pid := listed + {sub}];
      return true;
    }

    /** server.cpp:619-628. */
    method LoginSubprocess(c: Client, sub: string) returns (ok: bool)
      modifies this`sessions, this`proofs
      ensures ok <==> sub in old(proofs)
      ensures G() == Do(old(G()), c, LoginSub(sub))
    {
      if sub !in proofs {
        return false;
      }
      sessions := sessions[c := proofs[sub]];
      proofs := proofs - {sub};
      return true;
    }

    /** server.cpp:427-429 and 199-201: drop the proofs of all listed
        subprocesses, one by one. */
    method EraseProofs(listed: set<string>)
      modifies this`proofs
      ensures proofs == old(proofs) - listed
    {
      var left := listed;
      while left != {}
        invariant left <= listed && proofs == old(proofs) - (listed - left)
        decreases left
      {
        var sub :| sub in left;
        proofs := proofs - {sub};
        left := left - {sub};
      }
    }

    /** server.cpp:424-433. */
    method CleanUpProcess(c: Client, pid: string)
      modifies this`sessions, this`proofs, this`subs
      ensures G() == Do(old(G()), c, CleanUp(pid))
    {
      if pid in subs {
        EraseProofs(subs[pid]);
        subs := subs - {pid};
      }
      sessions := sessions - {c};
    }

    /** server.cpp:162-168 and 182-188: is any session, other than the one left
        out, bound to the process? */
    method AnyBound(pid: string, except: set<Client>) returns (found: bool)
      ensures found <==> exists d :: d in sessions && d !in except && sessions[d] == pid
    {
      found := false;
      var left := sessions.Keys;
      while left != {}
        invariant left <= sessions.Keys
        invariant forall d :: d in sessions && d !in left && d !in except ==> sessions[d] != pid
        decreases left
      {
        var d :| d in left;
        if sessions[d] == pid && d !in except {
          return true;
        }
        left := left - {d};
      }
    }

    /** server.cpp:144-210. */
    method Close(c: Client, own: string)
      modifies this`sessions, this`proofs, this`subs, this`store
      ensures G() == Do(old(G()), c, CloseSession(own))
    {
      if c !in sessions {
        return;
      }
      if own != "" {
        CloseOwn(c, own, sessions[c]);
      } else {
        CloseAll(c, sessions[c]);
      }
    }

    /** server.cpp:154-179. */
    method CloseOwn(c: Client, own: string, pid: string)
      modifies this`sessions, this`proofs, this`subs, this`store
      ensures G() == CloseSub(old(G()), c, own, pid)
    {
      proofs := proofs - {own};
      if pid in subs {
        subs := subs[pid := subs[pid] - {own}];
        if subs[pid] == {} {
          subs := subs - {pid};
          var bound := AnyBound(pid, {});
          if !bound {
            store := store - {pid};
          }
        }
      }
      sessions := sessions - {c};
    }

    /** server.cpp:181-209. */
    method CloseAll(c: Client, pid: string)
      modifies this`sessions, this`proofs, this`subs, this`store
      ensures G() == CloseParent(old(G()), c, pid)
    {
      var elsewhere := AnyBound(pid, {c});
      if elsewhere {
        sessions := sessions - {c};
        return;
      }
      if pid in subs {
        EraseProofs(subs[pid]);
        subs := subs - {pid};
      }
      store := store - {pid};
      sessions := sessions - {c};
    }

    /** server.cpp:333-335. */
    method StoreVar(c: Client, pid: string, id: string, v: Var)
      modifies this`store
      ensures G() == Do(old(G()), c, PutVar(pid, id, v))
    {
      var process := if pid in store then store[pid] else Process(map[], 0);
      store := store[pid := process.(vars := process.vars[id := v])];
    }

    /** server.cpp:242-248 and 315-339, with no other client in between. */
    method SetVar(c: Client, id: string, v: Var) returns (r: Response)
      requires StatesInv(G())
      modifies this
      ensures (G(), r) == Execute(old(G()), Request(c, SetCmd(id, v)))
      ensures StatesInv(G())
    {
      if c !in sessions {
        return Refused;
      }
      var pid := sessions[c];
      StoreVar(c, pid, id, v);
      SignalledKeeps(G(), c, VarKey(pid, id));
      SignalWaitState(c, VarKey(pid, id));
      return Completed;
    }

    /** server.cpp:363-395. */
    method GetVar(c: Client, id: string) returns (r: Response)
      modifies this`sessions
      ensures (G(), r) == Execute(old(G()), Request(c, GetCmd(id)))
    {
      if c !in sessions {
        return Refused;
      }
      var pid := sessions[c];
      if pid !in store {
        sessions := sessions - {c};
        return ProcessNotFound;
      }
      if id !in store[pid].vars {
        return VarNotFound;
      }
      return Value(store[pid].vars[id]);
    }

    /** server.cpp:438-474. */
    method DelVar(c: Client, id: string) returns (r: Response)
      requires StatesInv(G())
      modifies this
      ensures (G(), r) == Execute(old(G()), Request(c, DelCmd(id)))
      ensures StatesInv(G())
    {
      if c !in sessions {
        return Refused;
      }
      var pid := sessions[c];
      if pid !in store {
        sessions := sessions - {c};
        return ProcessNotFound;
      }
      var found := id in store[pid].vars;
      if found {
        store := store[pid := store[pid].(vars := store[pid].vars - {id})];
      }
      assert G() == Do(old(G()), c, DropVar(pid, id));
      SignalledKeeps(G(), c, VarKey(pid, id));
      SignalWaitState(c, VarKey(pid, id));
      return if found then Completed else VarNotFound;
    }

    /** server.cpp:524-569. An absent variable is set by running `set var`. */
    method SyncVar(c: Client, id: string, v: Var) returns (r: Response)
      requires StatesInv(G())
      modifies this
      ensures (G(), r) == Execute(old(G()), Request(c, SyncCmd(id, v)))
      ensures StatesInv(G())
    {
      if c !in sessions {
        return Refused;
      }
      var pid := sessions[c];
      if pid !in store {
        sessions := sessions - {c};
        return ProcessNotFound;
      }
      if id !in store[pid].vars {
        NothingToSync(G(), c, pid, id, v);
        r := SetVar(c, id, v);
        return;
      }
      var mine := new VarContainer(store[pid].vars[id]);
      var incoming := new VarContainer(v);
      mine.Sync(incoming);
      store := store[pid := store[pid].(vars := store[pid].vars[id := mine.Contents()])];
      return Completed;
    }

    /** One request, as `CommandExecutor` runs it. */
    method Serve(request: Request) returns (r: Response)
      requires StatesInv(G())
      modifies this
      ensures (G(), r) == Execute(old(G()), request)
      ensures StatesInv(G())
    {
      match request.cmd
      case SetCmd(id, v) => r := SetVar(request.c, id, v);
      case GetCmd(id) => r := GetVar(request.c, id);
      case DelCmd(id) => r := DelVar(request.c, id);
      case SyncCmd(id, v) => r := SyncVar(request.c, id, v);
    }

    /** Any requests of any clients, served one after the other, are answered as
        the plain map answers them, and leave the store and the sessions that
        the plain map holds. */
    method ServeAll(requests: seq<Request>) returns (responses: seq<Response>)
      requires StatesInv(G())
      modifies this
      ensures (G(), responses) == ExecuteAll(old(G()), requests)
      ensures (PlainOf(G()), responses) == PlainRun(PlainOf(old(G())), requests)
      ensures StatesInv(G())
    {
      hide Execute, PlainOf, StatesInv;
      ghost var start := G();
      responses := [];
      assert requests[0..] == requests && [] + ExecuteAll(start, requests).1 == ExecuteAll(start, requests).1;
      for i := 0 to |requests|
        invariant StatesInv(G())
        invariant
          var (h, rest) := ExecuteAll(G(), requests[i..]);
          ExecuteAll(start, requests) == (h, responses + rest)
      {
        assert requests[i..][1..] == requests[i + 1..];
        var r := Serve(requests[i]);
        ServedNext(responses, r, ExecuteAll(G(), requests[i + 1..]).1);
        responses := responses + [r];
      }
      assert requests[|requests|..] == [] && responses + [] == responses;
      RunIsPlain(start, requests);
    }
  }

  lemma ServedNext(done: seq<Response>, r: Response, rest: seq<Response>)
    ensures done + ([r] + rest) == (done + [r]) + rest
  {
  }

  lemma NothingToSync(g: Globals, c: Client, pid: string, id: string, v: Var)
    requires pid in g.store && id !in g.store[pid].vars
    ensures Do(g, c, SyncVarIn(pid, id, v)) == g
  {
    assert g.store[pid].(vars := g.store[pid].vars) == g.store[pid];
  }
}
