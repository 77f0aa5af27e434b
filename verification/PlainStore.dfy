/** The variable commands as a client may think of them: sessions, and one map
    from variables to values in which the last writer wins. */
module PlainStore {
  import opened Common
  import opened Containers
  import opened Sections

  /** A command on a variable of the client's own process. */
  datatype VarCmd = SetCmd(id: string, v: Var) | GetCmd(id: string) | DelCmd(id: string) | SyncCmd(id: string, v: Var)

  datatype Request = Request(c: Client, cmd: VarCmd)

  datatype Response = Completed | Value(v: Var) | VarNotFound | ProcessNotFound | Refused

  type Place = (string, string)

  /** Which process each client is bound to, the variables by process and id, and
      the processes that exist. */
  datatype Plain = Plain(sessions: map<Client, string>, entries: map<Place, Var>, present: set<string>)

  function Lookup(m: Plain, k: Place): Option<Var> {
    if k in m.entries then Some(m.entries[k]) else None
  }

  function Newer(stored: Option<Var>, v: Var): Var {
    if stored.Some? then NewerVar(stored.value, v) else v
  }

  /** A client without a session is refused. Only `set` works without the
      process; any other command then ends the session. */
  function PlainStep(m: Plain, r: Request): (Plain, Response) {
    if r.c !in m.sessions then (m, Refused)
    else if m.sessions[r.c] !in m.present && !r.cmd.SetCmd? then
      (m.(sessions := m.sessions - {r.c}), ProcessNotFound)
    else
      var pid := m.sessions[r.c];
      var k := (pid, r.cmd.id);
      match r.cmd
      case SetCmd(_, v) => (m.(entries := m.entries[k := v], present := m.present + {pid}), Completed)
      case GetCmd(_) => (m, if k in m.entries then Value(m.entries[k]) else VarNotFound)
      case DelCmd(_) => (m.(entries := m.entries - {k}), if k in m.entries then Completed else VarNotFound)
      case SyncCmd(_, v) => (m.(entries := m.entries[k := Newer(Lookup(m, k), v)]), Completed)
  }

  /** A run, and the responses in order. */
  function PlainRun(m: Plain, rs: seq<Request>): (Plain, seq<Response>)
    decreases |rs|
  {
    if rs == [] then (m, [])
    else
      var (n, response) := PlainStep(m, rs[0]);
      var (last, rest) := PlainRun(n, rs[1..]);
      (last, [response] + rest)
  }

  // ------------------------------------------------------------ one variable

  /** The last writer wins: `get` answers with what was set last, with nothing
      after a deletion, and with the newer value after a sync; a second deletion
      finds nothing. */
  lemma LastWriterWins(m: Plain, c: Client, id: string, v: Var)
    requires c in m.sessions && m.sessions[c] in m.present
    ensures
      var answer := (cmd: VarCmd, next: VarCmd) => PlainStep(PlainStep(m, Request(c, cmd)).0, Request(c, next)).1;
      var stored := Lookup(m, (m.sessions[c], id));
      && answer(SetCmd(id, v), GetCmd(id)) == Value(v) && answer(SetCmd(id, v), DelCmd(id)) == Completed
      && answer(DelCmd(id), GetCmd(id)) == VarNotFound && answer(DelCmd(id), DelCmd(id)) == VarNotFound
      && answer(SyncCmd(id, v), GetCmd(id))
        == Value(if stored.Some? && stored.value.timestamp > v.timestamp then stored.value else v)
      && answer(GetCmd(id), GetCmd(id)) == if stored.Some? then Value(stored.value) else VarNotFound
  {
  }

  /** A command is felt at its own variable only. */
  lemma OthersUnfelt(m: Plain, r: Request, k: Place)
    requires r.c in m.sessions ==> k != (m.sessions[r.c], r.cmd.id)
    ensures Lookup(PlainStep(m, r).0, k) == Lookup(m, k)
    ensures forall c :: c != r.c && c in m.sessions ==>
      c in PlainStep(m, r).0.sessions && PlainStep(m, r).0.sessions[c] == m.sessions[c]
  {
  }

  /** Sessions and processes: a stranger is refused, a command without its process
      ends the session, and `set` brings the process back. */
  lemma SessionsAndProcesses(m: Plain, r: Request)
    ensures
      var (n, response) := PlainStep(m, r);
      if r.c !in m.sessions then n == m && response == Refused
      else if m.sessions[r.c] in m.present then n.sessions == m.sessions && n.present == m.present
      else if r.cmd.SetCmd? then n.sessions == m.sessions && n.present == m.present + {m.sessions[r.c]}
      else n == m.(sessions := m.sessions - {r.c}) && response == ProcessNotFound
  {
  }

  // ------------------------------------------------------------ runs of syncs

  predicate OnlySyncs(rs: seq<Request>) {
    forall r :: r in rs ==> r.cmd.SyncCmd?
  }

  /** The variable a request reaches, if its client has a session and the
      process exists. */
  function Target(m: Plain, r: Request): Option<Place> {
    if r.c in m.sessions && m.sessions[r.c] in m.present then Some((m.sessions[r.c], r.cmd.id)) else None
  }

  /** The clients whose session ends, since their process is not there. */
  function Dropped(m: Plain, rs: seq<Request>): set<Client> {
    set r | r in rs && r.c in m.sessions && m.sessions[r.c] !in m.present :: r.c
  }

  /** A request of the run brings this value for the variable. */
  ghost predicate Brought(m: Plain, rs: seq<Request>, k: Place, w: Var) {
    exists r :: r in rs && Target(m, r) == Some(k) && r.cmd.SyncCmd? && r.cmd.v == w
  }

  /** The values that compete for a variable: the stored one and the brought ones. */
  ghost predicate Candidate(m: Plain, rs: seq<Request>, k: Place, w: Var) {
    Lookup(m, k) == Some(w) || Brought(m, rs, k, w)
  }

  /** Nothing that competes is newer than w. */
  ghost predicate Latest(m: Plain, rs: seq<Request>, k: Place, w: Var) {
    forall u :: Candidate(m, rs, k, u) ==> u.timestamp <= w.timestamp
  }

  /** Two newest values brought for the same variable are the same. It is so when
      timestamps are distinct. */
  ghost predicate NewestAgree(m: Plain, rs: seq<Request>) {
    forall k, v, w ::
      Brought(m, rs, k, v) && Brought(m, rs, k, w) && v.timestamp == w.timestamp && Latest(m, rs, k, v) ==> v == w
  }

  /** The outcome for a variable: a newest value, and the stored one only if every
      brought one is older. */
  ghost predicate IsNewest(m: Plain, rs: seq<Request>, k: Place, result: Option<Var>) {
    && (forall w :: Candidate(m, rs, k, w) ==> result.Some?)
    && (result.Some? ==>
          && Latest(m, rs, k, result.value)
          && (Brought(m, rs, k, result.value)
              || (Lookup(m, k) == result
                  && forall w :: Brought(m, rs, k, w) ==> w.timestamp < result.value.timestamp)))
  }

  /** A sync request changes no target, and one variable at most. */
  lemma SyncStep(m: Plain, r: Request)
    requires r.cmd.SyncCmd?
    ensures
      var n := PlainStep(m, r).0;
      && n.present == m.present && n.sessions == m.sessions - Dropped(m, [r])
      && (forall q :: Target(n, q) == Target(m, q))
      && (forall k ::
            Lookup(n, k) == if Target(m, r) == Some(k) then Some(Newer(Lookup(m, k), r.cmd.v)) else Lookup(m, k))
  {
    assert r in [r];
  }

  lemma DroppedFirst(m: Plain, r: Request, rs: seq<Request>)
    requires r.cmd.SyncCmd? && rs != [] && r == rs[0]
    ensures Dropped(m, rs) == Dropped(m, [r]) + Dropped(PlainStep(m, r).0, rs[1..])
  {
    assert rs == [r] + rs[1..];
  }

  /** What is brought is what the first request brings and what the rest do. */
  lemma BroughtFirst(m: Plain, rs: seq<Request>, k: Place, w: Var)
    requires rs != [] && OnlySyncs(rs)
    ensures Brought(m, rs, k, w) <==>
      (Target(m, rs[0]) == Some(k) && rs[0].cmd.v == w) || Brought(PlainStep(m, rs[0]).0, rs[1..], k, w)
  {
    hide PlainStep, Target;
    SyncStep(m, rs[0]);
    assert rs == [rs[0]] + rs[1..];
  }

  lemma NewestStep(m: Plain, rs: seq<Request>, k: Place, result: Option<Var>)
    requires rs != [] && OnlySyncs(rs) && IsNewest(PlainStep(m, rs[0]).0, rs[1..], k, result)
    ensures IsNewest(m, rs, k, result)
  {
    hide PlainStep, Target, Brought;
    var n := PlainStep(m, rs[0]).0;
    SyncStep(m, rs[0]);
    if result.Some? {
      BroughtFirst(m, rs, k, result.value);
    }
    forall w | Candidate(m, rs, k, w)
      ensures result.Some? && w.timestamp <= result.value.timestamp
    {
      BroughtFirst(m, rs, k, w);
      if !Brought(n, rs[1..], k, w) {
        assert Candidate(n, rs[1..], k, Lookup(n, k).value);
      } else {
        assert Candidate(n, rs[1..], k, w);
      }
    }
    forall w | result.Some? && !Brought(m, rs, k, result.value) && Brought(m, rs, k, w)
      ensures w.timestamp < result.value.timestamp
    {
      BroughtFirst(m, rs, k, w);
    }
  }

  /** A run of syncs leaves every variable with the newest value that was stored
      or brought, ends the sessions without a process, and does nothing else. */
  lemma {:induction false} SyncRunIsNewest(m: Plain, rs: seq<Request>)
    requires OnlySyncs(rs)
    ensures
      var last := PlainRun(m, rs).0;
      && last.present == m.present && last.sessions == m.sessions - Dropped(m, rs)
      && forall k :: IsNewest(m, rs, k, Lookup(last, k))
    decreases |rs|
  {
    hide IsNewest, PlainStep;
    if rs == [] {
      NothingIsNewest(m);
    } else {
      var n := PlainStep(m, rs[0]).0;
      SyncRunIsNewest(n, rs[1..]);
      SyncStep(m, rs[0]);
      DroppedFirst(m, rs[0], rs);
      forall k
        ensures IsNewest(m, rs, k, Lookup(PlainRun(m, rs).0, k))
      {
        NewestStep(m, rs, k, Lookup(PlainRun(m, rs).0, k));
      }
    }
  }

  lemma NothingIsNewest(m: Plain)
    ensures forall k :: IsNewest(m, [], k, Lookup(m, k))
  {
  }

  /** The outcome is determined by the requests, not by their order. */
  lemma NewestUnique(m: Plain, s: seq<Request>, t: seq<Request>, k: Place, x: Option<Var>, y: Option<Var>)
    requires forall r :: r in s <==> r in t
    requires NewestAgree(m, s) && IsNewest(m, s, k, x) && IsNewest(m, t, k, y)
    ensures x == y
  {
    hide Target;
    assert forall w :: Brought(m, s, k, w) <==> Brought(m, t, k, w);
    if x.Some? {
      assert Candidate(m, s, k, x.value) && Candidate(m, t, k, x.value);
    }
    if y.Some? {
      assert Candidate(m, s, k, y.value) && Candidate(m, t, k, y.value);
    }
  }

  lemma SamePlain(m: Plain, n: Plain)
    requires m.sessions == n.sessions && m.present == n.present && forall k :: Lookup(m, k) == Lookup(n, k)
    ensures m == n
  {
    forall k
      ensures k in m.entries <==> k in n.entries
      ensures k in m.entries ==> m.entries[k] == n.entries[k]
    {
      assert Lookup(m, k) == Lookup(n, k);
    }
    assert m.entries == n.entries;
  }

  /** Syncs by any clients, to any variables, end in the same state in any order
      if the newest brought values agree. Variables may be absent at the start,
      and processes too. */
  lemma SyncAnyOrder(m: Plain, s: seq<Request>, t: seq<Request>)
    requires OnlySyncs(s) && multiset(s) == multiset(t) && NewestAgree(m, s)
    ensures PlainRun(m, s).0 == PlainRun(m, t).0
  {
    hide IsNewest, NewestAgree, PlainRun;
    SameRequests(s, t);
    SyncRunIsNewest(m, s);
    SyncRunIsNewest(m, t);
    assert Dropped(m, s) == Dropped(m, t);
    var x, y := PlainRun(m, s).0, PlainRun(m, t).0;
    forall k
      ensures Lookup(x, k) == Lookup(y, k)
    {
      NewestUnique(m, s, t, k, Lookup(x, k), Lookup(y, k));
    }
    SamePlain(x, y);
  }

  lemma SameRequests(s: seq<Request>, t: seq<Request>)
    requires multiset(s) == multiset(t)
    ensures forall r :: r in s <==> r in t
    ensures OnlySyncs(s) <==> OnlySyncs(t)
  {
    assert forall r :: r in s <==> r in multiset(s);
    assert forall r :: r in t <==> r in multiset(t);
  }

  lemma {:induction false} RunLast(m: Plain, rs: seq<Request>, r: Request)
    ensures PlainRun(m, rs + [r]).0 == PlainStep(PlainRun(m, rs).0, r).0
    decreases |rs|
  {
    hide PlainStep;
    if rs != [] {
      RunLast(PlainStep(m, rs[0]).0, rs[1..], r);
      assert (rs + [r])[1..] == rs[1..] + [r];
    } else {
      assert ([r])[1..] == [] && rs + [r] == [r];
    }
  }

  /** A newest value that comes last stays. */
  lemma LastStays(m: Plain, rs: seq<Request>, r: Request, k: Place)
    requires OnlySyncs(rs + [r]) && Target(m, r) == Some(k) && Latest(m, rs + [r], k, r.cmd.v)
    ensures r in rs + [r] && Lookup(PlainRun(m, rs + [r]).0, k) == Some(r.cmd.v)
  {
    hide PlainRun, PlainStep;
    assert r in rs + [r] && OnlySyncs(rs);
    RunLast(m, rs, r);
    SyncRunIsNewest(m, rs);
    var last := PlainRun(m, rs).0;
    SyncStep(last, r);
    assert IsNewest(m, rs, k, Lookup(last, k));
    assert forall u :: Brought(m, rs, k, u) ==> Brought(m, rs + [r], k, u);
    if Lookup(last, k).Some? {
      assert Candidate(m, rs + [r], k, Lookup(last, k).value);
    }
  }

  /** Any request can be put last. */
  lemma PutLast(s: seq<Request>, r: Request) returns (front: seq<Request>)
    requires r in s
    ensures multiset(front + [r]) == multiset(s)
  {
    var i :| 0 <= i < |s| && s[i] == r;
    front := s[..i] + s[i + 1..];
    assert s == s[..i] + [r] + s[i + 1..];
  }

  lemma SameLatest(m: Plain, s: seq<Request>, t: seq<Request>, k: Place, v: Var)
    requires (forall r :: r in s <==> r in t) && Latest(m, s, k, v)
    ensures Latest(m, t, k, v)
  {
    hide Target;
    assert forall w :: Brought(m, s, k, w) <==> Brought(m, t, k, w);
  }

  /** Some order of the run ends with a given newest value. */
  lemma NewestCanWin(m: Plain, s: seq<Request>, k: Place, v: Var) returns (t: seq<Request>)
    requires OnlySyncs(s) && Brought(m, s, k, v) && Latest(m, s, k, v)
    ensures multiset(t) == multiset(s) && Lookup(PlainRun(m, t).0, k) == Some(v)
  {
    hide PlainRun, Latest;
    var r :| r in s && Target(m, r) == Some(k) && r.cmd.SyncCmd? && r.cmd.v == v;
    var front := PutLast(s, r);
    t := front + [r];
    SameRequests(t, s);
    SameLatest(m, s, t, k, v);
    LastStays(m, front, r, k);
  }

  /** And only if: a run of syncs ends the same in every order exactly when the
      newest brought values agree. */
  lemma SyncAnyOrderIff(m: Plain, s: seq<Request>)
    requires OnlySyncs(s)
    ensures NewestAgree(m, s) <==> forall t :: multiset(t) == multiset(s) ==> PlainRun(m, t).0 == PlainRun(m, s).0
  {
    hide PlainRun, Latest;
    if NewestAgree(m, s) {
      forall t | multiset(t) == multiset(s)
        ensures PlainRun(m, t).0 == PlainRun(m, s).0
      {
        SyncAnyOrder(m, s, t);
      }
    } else {
      var k, v, w :|
        Brought(m, s, k, v) && Brought(m, s, k, w) && v.timestamp == w.timestamp && Latest(m, s, k, v) && v != w;
      EquallyLatest(m, s, k, v, w);
      var t := NewestCanWin(m, s, k, v);
      var u := NewestCanWin(m, s, k, w);
    }
  }

  lemma EquallyLatest(m: Plain, s: seq<Request>, k: Place, v: Var, w: Var)
    requires Latest(m, s, k, v) && v.timestamp == w.timestamp
    ensures Latest(m, s, k, w)
  {
  }

  /** With one value per timestamp and variable they do agree. */
  lemma DistinctTimestampsAgree(m: Plain, s: seq<Request>)
    requires OnlySyncs(s)
    requires forall q, r ::
      q in s && r in s && Target(m, q) == Target(m, r) && q.cmd.v.timestamp == r.cmd.v.timestamp ==> q.cmd.v == r.cmd.v
    ensures NewestAgree(m, s)
  {
    hide Target;
  }
}
