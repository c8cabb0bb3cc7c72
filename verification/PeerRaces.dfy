/** Several processes on one peer file, which nothing locks. */
module PeerRaces {
  // Each operation loads the file, edits what it loaded, and replaces the file, and
  // others may have replaced it in between.

  import opened Wrappers
  import opened Peers
  import opened PeerTokens
  import UrlPolicy

  type Client = nat

  /** An operation that has loaded the file: which version it found there. */
  datatype Job = Job(op: Op, env: Env, base: nat, load: Readings)

  /** `versions` are all the files that lay at the path, the last of which lies there
      now.  The call `calls[n]` wrote version `n + 1`, having loaded `bases[n]`. */
  datatype State = State(versions: seq<Disk>, calls: seq<Call>, bases: seq<nat>, jobs: map<Client, Job>)

  datatype Event =
    | Begin(client: Client, op: Op, env: Env, load: Readings)
    | Commit(client: Client, edit: Instant, store: Readings)
    | Crash(client: Client)

  predicate Sound(s: State) {
    && |s.versions| == |s.calls| + 1 == |s.bases| + 1 && s.versions[0] == Missing
    && (forall n :: 0 <= n < |s.bases| ==> s.bases[n] <= n)
    && forall c :: c in s.jobs ==> s.jobs[c].base < |s.versions|
  }

  function CallOf(j: Job, edit: Instant, store: Readings): Call {
    Call(j.op, Clock(j.load, edit, store), j.env)
  }

  predicate Writes(net: UrlPolicy.Net, d: Disk, c: Call) {
    Planned(net, d, c.op, c.clock, c.env).Ok? && !c.env.WriteFails?
  }

  /** A load, or the rest of an operation; a refused one leaves no version behind. */
  function Step(net: UrlPolicy.Net, s: State, e: Event): (s': State)
    requires Sound(s)
    ensures Sound(s')
  {
    match e
    case Begin(c, op, env, load) =>
      if c in s.jobs then s else s.(jobs := s.jobs[c := Job(op, env, |s.versions| - 1, load)])
    case Commit(c, edit, store) =>
      if c !in s.jobs then s
      else
        var j, left := s.jobs[c], s.(jobs := s.jobs - {c});
        var call := CallOf(j, edit, store);
        if !Writes(net, s.versions[j.base], call) then left
        else left.(versions := s.versions + [NewDisk(net, s.versions[j.base], call.op, call.clock, call.env)],
                   calls := s.calls + [call], bases := s.bases + [j.base])
    case Crash(c) => s.(jobs := s.jobs - {c})
  }

  function After(net: UrlPolicy.Net, es: seq<Event>): (s: State)
    ensures Sound(s)
  {
    if es == [] then State([Missing], [], [], map[]) else Step(net, After(net, es[..|es| - 1]), es[|es| - 1])
  }

  // ------------------------------------------------------- one call after another

  /** Every version is what its call makes of the version it had loaded. */
  ghost predicate Traced(net: UrlPolicy.Net, s: State)
    requires Sound(s)
  {
    forall n :: 0 <= n < |s.calls| ==> TracedAt(net, s, n)
  }

  predicate TracedAt(net: UrlPolicy.Net, s: State, n: nat)
    requires Sound(s) && n < |s.calls|
  {
    var c, d := s.calls[n], s.versions[s.bases[n]];
    Writes(net, d, c) && s.versions[n + 1] == NewDisk(net, d, c.op, c.clock, c.env)
  }

  lemma StepTraces(net: UrlPolicy.Net, s: State, e: Event)
    requires Sound(s) && Traced(net, s)
    ensures Traced(net, Step(net, s, e))
  {
    var s' := Step(net, s, e);
    forall n | 0 <= n < |s'.calls| ensures TracedAt(net, s', n) {
      if n < |s.calls| { assert TracedAt(net, s, n); }
    }
  }

  lemma {:induction false} AfterIsTraced(net: UrlPolicy.Net, es: seq<Event>)
    ensures Traced(net, After(net, es))
  {
    if es != [] {
      AfterIsTraced(net, es[..|es| - 1]);
      StepTraces(net, After(net, es[..|es| - 1]), es[|es| - 1]);
    }
  }

  /** The calls that version `n` goes back to, each having loaded what the one before
      it wrote. */
  function Lineage(s: State, n: nat): (line: seq<nat>)
    requires Sound(s) && n < |s.versions|
    ensures forall p :: 0 <= p < |line| ==> line[p] < n
    ensures forall p, q :: 0 <= p < q < |line| ==> line[p] < line[q]
  {
    if n == 0 then [] else Lineage(s, s.bases[n - 1]) + [n - 1]
  }

  function LineCalls(s: State, n: nat): seq<Call>
    requires Sound(s) && n < |s.versions|
  {
    var line := Lineage(s, n);
    seq(|line|, p requires 0 <= p < |line| => s.calls[line[p]])
  }

  function LineDisks(s: State, n: nat): seq<Disk>
    requires Sound(s) && n < |s.versions|
  {
    var line := Lineage(s, n);
    [Missing] + seq(|line|, p requires 0 <= p < |line| => s.versions[line[p] + 1])
  }

  lemma LineGrows(s: State, n: nat)
    requires Sound(s) && 0 < n < |s.versions|
    ensures LineDisks(s, n) == LineDisks(s, s.bases[n - 1]) + [s.versions[n]]
    ensures LineCalls(s, n) == LineCalls(s, s.bases[n - 1]) + [s.calls[n - 1]]
  {}

  lemma TakenRunGrows(net: UrlPolicy.Net, ds: seq<Disk>, calls: seq<Call>, c: Call, d: Disk)
    requires IsRun(net, ds, calls) && forall p :: 0 <= p < |calls| ==> Took(net, ds, calls, p)
    requires Writes(net, ds[|calls|], c) && d == NewDisk(net, ds[|calls|], c.op, c.clock, c.env)
    ensures IsRun(net, ds + [d], calls + [c])
    ensures forall p :: 0 <= p <= |calls| ==> Took(net, ds + [d], calls + [c], p)
  {
    ExtendRun(net, ds, calls, c, d);
    forall p | 0 <= p <= |calls| ensures Took(net, ds + [d], calls + [c], p) {
      if p < |calls| { assert Took(net, ds, calls, p); }
    }
  }

  /** At any moment the file is what the calls of its lineage leave behind when they
      are made one after another, each of them taking effect. */
  lemma {:induction false} LineageIsARun(net: UrlPolicy.Net, s: State, n: nat)
    requires Sound(s) && Traced(net, s) && n < |s.versions|
    ensures var ds, calls := LineDisks(s, n), LineCalls(s, n);
      && IsRun(net, ds, calls) && ds[|calls|] == s.versions[n]
      && forall p :: 0 <= p < |calls| ==> Took(net, ds, calls, p)
  {
    if n > 0 {
      var b := s.bases[n - 1];
      LineageIsARun(net, s, b);
      assert TracedAt(net, s, n - 1);
      LineGrows(s, n);
      TakenRunGrows(net, LineDisks(s, b), LineCalls(s, b), s.calls[n - 1], s.versions[n]);
    }
  }

  // ---------------------------------------------------------- what is not lost

  /** A later write that the file goes back to had loaded it before write `r`. */
  ghost predicate Overtaken(s: State, n: nat, r: nat)
    requires Sound(s) && n < |s.versions|
  {
    exists m :: m in Lineage(s, n) && m > r && s.bases[m] <= r
  }

  /** A write is still in effect exactly when no write that the file goes back to
      came after it without having seen it: one that had loaded the file before. */
  lemma {:induction false} SurvivesExactlyUnlessStale(s: State, n: nat, r: nat)
    requires Sound(s) && r < n < |s.versions|
    ensures r in Lineage(s, n) <==> !Overtaken(s, n, r)
    decreases n
  {
    var b := s.bases[n - 1];
    var before, line := Lineage(s, b), Lineage(s, n);
    assert forall m :: m in line <==> m in before || m == n - 1;
    if r < n - 1 {
      if b > r {
        SurvivesExactlyUnlessStale(s, b, r);
      } else {
        assert n - 1 in line && r !in before;
      }
    }
  }

  ghost predicate AllInEffect(s: State, n: nat)
    requires Sound(s) && n < |s.versions|
  {
    forall r :: 0 <= r < n ==> r in Lineage(s, n)
  }

  ghost predicate EachSawTheLast(s: State, n: nat)
    requires Sound(s) && n < |s.versions|
  {
    forall m :: 0 <= m < n ==> s.bases[m] == m
  }

  /** One write more: all are in effect exactly when all were and it saw the last. */
  lemma OneMoreInEffect(s: State, n: nat)
    requires Sound(s) && 0 < n < |s.versions|
    ensures AllInEffect(s, n) <==> AllInEffect(s, n - 1) && s.bases[n - 1] == n - 1
  {
    var b := s.bases[n - 1];
    var before, line := Lineage(s, b), Lineage(s, n);
    assert forall m :: m in line <==> m in before || m == n - 1;
    if AllInEffect(s, n) {
      assert n > 1 ==> n - 2 in line;
      assert b == n - 1;
      forall r | 0 <= r < n - 1 ensures r in before { assert r in line; }
    }
  }

  /** Nothing is lost exactly when every write had loaded the version before it. */
  lemma {:induction false} NothingLostExactly(s: State, n: nat)
    requires Sound(s) && n < |s.versions|
    ensures AllInEffect(s, n) <==> EachSawTheLast(s, n)
  {
    if n > 0 {
      NothingLostExactly(s, n - 1);
      OneMoreInEffect(s, n);
    }
  }

  // ------------------------------------------------------------ a forward clock

  /** The clock does not run backwards: a load comes after all the writes before it,
      and an operation's own readings come in order. */
  ghost predicate Ahead(s: State, e: Event) {
    match e
    case Begin(_, _, _, load) => forall m :: 0 <= m < |s.calls| ==> Before(s.calls[m].clock.store, load)
    case Commit(c, edit, store) =>
      c in s.jobs ==> Before(s.jobs[c].load, Still(edit)) && Before(Still(edit), store)
    case Crash(_) => true
  }

  ghost predicate Forward(net: UrlPolicy.Net, es: seq<Event>) {
    es == [] || (Forward(net, es[..|es| - 1]) && Ahead(After(net, es[..|es| - 1]), es[|es| - 1]))
  }

  ghost predicate Timely(s: State)
    requires Sound(s)
  {
    && (forall c, m :: c in s.jobs && 0 <= m < s.jobs[c].base ==> Before(s.calls[m].clock.store, s.jobs[c].load))
    && forall n :: 0 <= n < |s.calls| ==> TimelyAt(s, n)
  }

  ghost predicate TimelyAt(s: State, n: nat)
    requires Sound(s) && n < |s.calls|
  {
    && Ordered(s.calls[n].clock)
    && forall m :: 0 <= m < s.bases[n] ==> Before(s.calls[m].clock.store, s.calls[n].clock.load)
  }

  lemma StepIsTimely(net: UrlPolicy.Net, s: State, e: Event)
    requires Sound(s) && Timely(s) && Ahead(s, e)
    ensures Timely(Step(net, s, e))
  {
    var s' := Step(net, s, e);
    forall n | 0 <= n < |s'.calls| ensures TimelyAt(s', n) {
      if n < |s.calls| { assert TimelyAt(s, n); }
    }
  }

  lemma {:induction false} AfterIsTimely(net: UrlPolicy.Net, es: seq<Event>)
    requires Forward(net, es)
    ensures Timely(After(net, es))
  {
    if es != [] {
      AfterIsTimely(net, es[..|es| - 1]);
      StepIsTimely(net, After(net, es[..|es| - 1]), es[|es| - 1]);
    }
  }

  lemma {:induction false} LineageIsForward(s: State, n: nat)
    requires Sound(s) && Timely(s) && n < |s.versions|
    ensures ClockForward(LineCalls(s, n))
  {
    if n > 0 {
      LineageIsForward(s, s.bases[n - 1]);
      assert TimelyAt(s, n - 1);
      assert LineCalls(s, n) == LineCalls(s, s.bases[n - 1]) + [s.calls[n - 1]];
    }
  }

  /** However the operations overlap, every file written loads on every later reading
      of the clock, with unique nodes and both caps. */
  lemma RacedFileReloads(net: UrlPolicy.Net, es: seq<Event>, n: nat, w: Readings)
    requires Forward(net, es) && n < |After(net, es).versions|
    requires forall m :: 0 <= m < n ==> Before(After(net, es).calls[m].clock.store, w)
    ensures var d := After(net, es).versions[n];
      && Load(net, d, Fine, w).Ok?
      && var f := Load(net, d, Fine, w).value;
         && UniqueNodes(f.peers) && |f.peers| <= 256
         && forall p, now :: p in f.peers && Before(w, Still(now)) ==> ActiveCount(p.inbound, now) <= 2
  {
    var s := After(net, es);
    AfterIsTraced(net, es);
    AfterIsTimely(net, es);
    LineageIsARun(net, s, n);
    LineageIsForward(s, n);
    EveryFileReloads(net, LineDisks(s, n), LineCalls(s, n), |LineCalls(s, n)|, w);
  }

  // ------------------------------------------------------------ tokens in a race

  /** Some call in the lineage after `a` revokes the credential or removes its peer. */
  ghost predicate EndedInLine(s: State, n: nat, a: nat, node: string, id: string)
    requires Sound(s) && n < |s.versions|
  {
    exists m :: m in Lineage(s, n) && m > a && Ends(s.calls[m].op, node, id)
  }

  lemma LineIsFresh(s: State, n: nat)
    requires Sound(s) && n < |s.versions| && FreshDraws(s.calls)
    ensures FreshDraws(LineCalls(s, n))
  {}

  lemma EndedInLineIs(net: UrlPolicy.Net, s: State, n: nat, p: nat, node: string, id: string)
    requires Sound(s) && Traced(net, s) && n < |s.versions| && p < |Lineage(s, n)|
    ensures var ds, calls := LineDisks(s, n), LineCalls(s, n);
      EndedIn(net, ds, calls, p, |calls|, node, id) <==> EndedInLine(s, n, Lineage(s, n)[p], node, id)
  {
    LineageIsARun(net, s, n);
    var line, ds, calls := Lineage(s, n), LineDisks(s, n), LineCalls(s, n);
    if q: nat :| p < q < |calls| && EndedAt(net, ds, calls, q, node, id) {
      assert line[q] in line && line[q] > line[p];
    }
    if m :| m in line && m > line[p] && Ends(s.calls[m].op, node, id) {
      var q :| 0 <= q < |line| && line[q] == m;
      assert q > p && EndedAt(net, ds, calls, q, node, id);
    }
  }

  /** What a write in the lineage issued. */
  lemma HoldersInLine(net: UrlPolicy.Net, s: State, n: nat, p: nat, t: Instant)
    requires Sound(s) && Traced(net, s) && FreshDraws(s.calls) && n < |s.versions| && p < |Lineage(s, n)|
    requires s.calls[Lineage(s, n)[p]].op.Issue?
    ensures var a := Lineage(s, n)[p];
      var op := s.calls[a].op;
      AcceptingNodes(PeersOn(s.versions[n]), op.hash, t)
        == if t < RunsOut(s.calls[a]) && !EndedInLine(s, n, a, op.peer, op.id) then {op.peer} else {}
  {
    var a, ds, calls := Lineage(s, n)[p], LineDisks(s, n), LineCalls(s, n);
    LineageIsARun(net, s, n);
    LineIsFresh(s, n);
    HoldersExactlyUntil(net, ds, calls, p, |calls|, t);
    EndedInLineIs(net, s, n, p, s.calls[a].op.peer, s.calls[a].op.id);
  }

  /** What a write outside the lineage issued is not in the file. */
  lemma NoHoldersOffLine(net: UrlPolicy.Net, s: State, n: nat, a: nat, t: Instant)
    requires Sound(s) && Traced(net, s) && FreshDraws(s.calls) && n < |s.versions| && a < |s.calls|
    requires s.calls[a].op.Issue? && a !in Lineage(s, n)
    ensures AcceptingNodes(PeersOn(s.versions[n]), s.calls[a].op.hash, t) == {}
  {
    var line, ds, calls := Lineage(s, n), LineDisks(s, n), LineCalls(s, n);
    var k := NewCred(s.calls[a].op, s.calls[a].clock.edit);
    LineageIsARun(net, s, n);
    forall m | 0 <= m < |calls| ensures Foreign(calls[m].op, k) { assert line[m] in line; }
    UnseenBefore(net, ds, calls, |calls|, k);
    NodesStayUnique(net, ds, calls, |calls|);
    UnseenIsDead(s.versions[n], k);
    DeadNeverAuthenticates(PeersOn(s.versions[n]), k, t);
  }

  lemma UnseenIsDead(d: Disk, k: Cred)
    requires Unseen(PeersOn(d), k)
    ensures Dead(PeersOn(d), k)
  {
    forall p, c | p in PeersOn(d) && c in p.inbound ensures c.hash != k.hash {
      assert Clean(p, k);
      assert !Shares(c, k);
    }
  }

  /** The peers holding a token that some write issued: its own, exactly while that
      write is in effect, the token has not run out, and no write in effect after it
      revokes it or removes the peer. */
  lemma RacedHoldersExactly(net: UrlPolicy.Net, es: seq<Event>, n: nat, a: nat, t: Instant)
    requires var s := After(net, es);
      FreshDraws(s.calls) && n < |s.versions| && a < |s.calls| && s.calls[a].op.Issue?
    ensures var s := After(net, es);
      var op := s.calls[a].op;
      AcceptingNodes(PeersOn(s.versions[n]), op.hash, t)
        == if a in Lineage(s, n) && t < RunsOut(s.calls[a]) && !EndedInLine(s, n, a, op.peer, op.id)
           then {op.peer} else {}
  {
    var s := After(net, es);
    AfterIsTraced(net, es);
    if a in Lineage(s, n) {
      var p: nat :| p < |Lineage(s, n)| && Lineage(s, n)[p] == a;
      HoldersInLine(net, s, n, p, t);
    } else {
      NoHoldersOffLine(net, s, n, a, t);
    }
  }

  /** In a race, too, the file is read exactly while no peer shows too many active
      credentials, and then it is those peers that are accepted. */
  lemma RacedAdmitsExactly(net: UrlPolicy.Net, es: seq<Event>, n: nat, hash: Hash, look: Look)
    requires n < |After(net, es).versions|
    ensures var d := After(net, es).versions[n];
      Admitted(net, d, hash, look)
        == if WithinCap(PeersOn(d), look.load) && WithinCap(PeersOn(d), look.check)
           then Ok(AcceptingNodes(PeersOn(d), hash, look.at)) else Err(TooManyActive)
  {
    var s := After(net, es);
    AfterIsTraced(net, es);
    LineageIsARun(net, s, n);
    AdmitsExactlyWithinCap(net, LineDisks(s, n), LineCalls(s, n), |LineCalls(s, n)|, hash, look);
  }

  /** A write that was made keeps a revoked token out exactly unless it is overtaken:
      then the token is accepted again, though the revocation was answered with
      success. */
  lemma RevocationHoldsExactly(net: UrlPolicy.Net, es: seq<Event>, n: nat, a: nat, r: nat, t: Instant)
    requires var s := After(net, es);
      FreshDraws(s.calls) && a < r < n < |s.versions| && a in Lineage(s, n) && s.calls[a].op.Issue?
    requires var s := After(net, es);
      var op := s.calls[a].op;
      && t < RunsOut(s.calls[a]) && Ends(s.calls[r].op, op.peer, op.id)
      && forall m :: m in Lineage(s, n) && m > a && m != r ==> !Ends(s.calls[m].op, op.peer, op.id)
    ensures var s := After(net, es);
      var op := s.calls[a].op;
      AcceptingNodes(PeersOn(s.versions[n]), op.hash, t) == if Overtaken(s, n, r) then {op.peer} else {}
  {
    RacedHoldersExactly(net, es, n, a, t);
    SurvivesExactlyUnlessStale(After(net, es), n, r);
  }

  // ------------------------------------------------------- a revocation that is lost

  lemma OneMore(net: UrlPolicy.Net, es: seq<Event>, e: Event)
    requires Forward(net, es) && Ahead(After(net, es), e)
    ensures Forward(net, es + [e]) && After(net, es + [e]) == Step(net, After(net, es), e)
  {
    assert (es + [e])[..|es|] == es;
  }

  const K := Dated(0, 0)
  const REVOKE := Revoke("p", K.id)
  const ISSUE := Issue("q", None, "a", Some(1), Dated(1, 0).id, Dated(1, 0).hash)
  const ZERO := Clock(Still(0), 0, Still(0))

  lemma AnsweredTurns(net: UrlPolicy.Net, d: Disk, op: Op)
    requires Answer(net, d, op, ZERO, Fine).None?
    ensures Turns(net, d, op, NewDisk(net, d, op, ZERO, Fine))
  {}

  lemma FirstIssueWrites(net: UrlPolicy.Net)
    ensures Turns(net, Missing, Rotation(K).op, Shelf([K])) && DiskOk(net, Shelf([K]), Still(0))
  {
    assert [] + [K] == [K] && Shelf([]) == Missing;
    RotationStep(net, [], 0, 0);
  }

  lemma RevokeWrites(net: UrlPolicy.Net)
    requires DiskOk(net, Shelf([K]), Still(0))
    ensures Answer(net, Shelf([K]), REVOKE, ZERO, Fine).None?
  {
    var d := Shelf([K]);
    assert PeersOn(d) == [Rotating([K])] && IndexOf(PeersOn(d), "p") == 0 && CredIndex([K], K.id) == 0;
    var p := Written(net, PeersOn(d), REVOKE, 0);
    assert p.inbound == [K.(revoked := Some(0))];
    ActiveOneMore([], K.(revoked := Some(0)), 0);
    assert [] + p.inbound == p.inbound;
    StoreRefusesOnlyWritten(net, d, REVOKE, ZERO);
  }

  /** Both a revocation and the issue for another peer go through on the first file. */
  lemma SecondWrites(net: UrlPolicy.Net) returns (d1: Disk, d2: Disk)
    requires DiskOk(net, Shelf([K]), Still(0))
    ensures Turns(net, Shelf([K]), REVOKE, d1) && Turns(net, Shelf([K]), ISSUE, d2)
  {
    RevokeWrites(net);
    IssueSucceedsExactly(net, Shelf([K]), ISSUE, ZERO);
    AnsweredTurns(net, Shelf([K]), REVOKE);
    AnsweredTurns(net, Shelf([K]), ISSUE);
    d1 := NewDisk(net, Shelf([K]), REVOKE, ZERO, Fine);
    d2 := NewDisk(net, Shelf([K]), ISSUE, ZERO, Fine);
  }

  function Loaded(op: Op, base: nat): Job {
    Job(op, Fine, base, Still(0))
  }

  ghost predicate AllAtZero(s: State) {
    forall m :: 0 <= m < |s.calls| ==> s.calls[m].clock == ZERO
  }

  /** `s` is where these events lead, on a clock that runs forward. */
  ghost predicate Leads(net: UrlPolicy.Net, es: seq<Event>, s: State) {
    Forward(net, es) && After(net, es) == s
  }

  lemma Begins(net: UrlPolicy.Net, es0: seq<Event>, s: State, c: Client, op: Op) returns (es: seq<Event>)
    requires Leads(net, es0, s) && c !in s.jobs && AllAtZero(s)
    ensures Leads(net, es, s.(jobs := s.jobs[c := Loaded(op, |s.versions| - 1)]))
  {
    OneMore(net, es0, Begin(c, op, Fine, Still(0)));
    es := es0 + [Begin(c, op, Fine, Still(0))];
  }

  /** The operation, made at once, writes `d'` over `d`. */
  ghost predicate Turns(net: UrlPolicy.Net, d: Disk, op: Op, d': Disk) {
    forall c :: c == Call(op, ZERO, Fine) ==> Writes(net, d, c) && NewDisk(net, d, c.op, c.clock, c.env) == d'
  }

  function Committed(s: State, c: Client, op: Op, base: nat, d: Disk): State {
    State(s.versions + [d], s.calls + [Call(op, ZERO, Fine)], s.bases + [base], s.jobs - {c})
  }

  lemma Commits(net: UrlPolicy.Net, es0: seq<Event>, s: State, c: Client, op: Op, base: nat, d: Disk)
    returns (es: seq<Event>)
    requires Leads(net, es0, s) && c in s.jobs && s.jobs[c] == Loaded(op, base) && base < |s.versions|
    requires Turns(net, s.versions[base], op, d)
    ensures Leads(net, es, Committed(s, c, op, base, d))
  {
    assert Writes(net, s.versions[base], Call(op, ZERO, Fine));
    OneMore(net, es0, Commit(c, 0, Still(0)));
    es := es0 + [Commit(c, 0, Still(0))];
  }

  lemma FirstIssued(net: UrlPolicy.Net, d: Disk, op: Op) returns (es: seq<Event>, s: State)
    requires Turns(net, Missing, op, d)
    ensures Leads(net, es, s) && s == State([Missing, d], [Call(op, ZERO, Fine)], [0], map[])
  {
    s := After(net, []);
    es := Begins(net, [], s, 0, op);
    s := s.(jobs := s.jobs[0 := Loaded(op, 0)]);
    es := Commits(net, es, s, 0, op, 0, d);
    s := Committed(s, 0, op, 0, d);
    assert s.jobs == map[];
  }

  function BothLoaded(s: State, first: Op, second: Op): State {
    s.(jobs := s.jobs[1 := Loaded(second, 1)][2 := Loaded(first, 1)])
  }

  function OneLoaded(s: State, second: Op): State {
    s.(jobs := s.jobs[1 := Loaded(second, 1)])
  }

  lemma OneBegins(net: UrlPolicy.Net, es0: seq<Event>, s: State, second: Op) returns (es: seq<Event>)
    requires Leads(net, es0, s) && AllAtZero(s) && |s.versions| == 2 && s.jobs == map[]
    ensures Leads(net, es, OneLoaded(s, second)) && AllAtZero(OneLoaded(s, second))
    ensures 2 !in OneLoaded(s, second).jobs
  {
    es := Begins(net, es0, s, 1, second);
  }

  lemma BothBegin(net: UrlPolicy.Net, es0: seq<Event>, s: State, first: Op, second: Op) returns (es: seq<Event>)
    requires Leads(net, es0, s) && AllAtZero(s) && |s.versions| == 2 && s.jobs == map[]
    ensures Leads(net, es, BothLoaded(s, first, second))
  {
    es := OneBegins(net, es0, s, second);
    es := Begins(net, es, OneLoaded(s, second), 2, first);
  }

  /** Two operations load one version, and the one that begins last ends first. */
  lemma LastEndsFirst(net: UrlPolicy.Net, es0: seq<Event>, s0: State, first: Op, second: Op, d: Disk)
    returns (es: seq<Event>, s: State)
    requires Leads(net, es0, s0) && AllAtZero(s0) && s0.bases == [0] && |s0.versions| == 2 && s0.jobs == map[]
    requires Turns(net, s0.versions[1], first, d)
    ensures Leads(net, es, s) && s.versions == s0.versions + [d] && s.bases == [0, 1]
    ensures s.calls == s0.calls + [Call(first, ZERO, Fine)]
    ensures 1 in s.jobs && s.jobs[1] == Loaded(second, 1)
  {
    es := BothBegin(net, es0, s0, first, second);
    es := Commits(net, es, BothLoaded(s0, first, second), 2, first, 1, d);
    s := Committed(BothLoaded(s0, first, second), 2, first, 1, d);
  }

  lemma Overlap(net: UrlPolicy.Net, es0: seq<Event>, s0: State, first: Op, second: Op, d1: Disk, d2: Disk)
    returns (es: seq<Event>, s: State)
    requires Leads(net, es0, s0) && AllAtZero(s0) && s0.bases == [0] && |s0.versions| == 2 && s0.jobs == map[]
    requires Turns(net, s0.versions[1], first, d1) && Turns(net, s0.versions[1], second, d2)
    ensures Leads(net, es, s) && s.bases == [0, 1, 1]
    ensures s.calls == s0.calls + [Call(first, ZERO, Fine), Call(second, ZERO, Fine)]
  {
    es, s := LastEndsFirst(net, es0, s0, first, second, d1);
    assert s.versions[1] == s0.versions[1];
    es := Commits(net, es, s, 1, second, 1, d2);
    s := Committed(s, 1, second, 1, d2);
  }

  /** A token that a revocation ended and a write that had not seen the revocation
      brought back. */
  ghost predicate BroughtBack(net: UrlPolicy.Net, es: seq<Event>, now: Instant) {
    var s := After(net, es);
    && |s.calls| == 3 && s.calls[0].op.Issue? && s.calls[2].op.Issue? && s.calls[2].op.peer != s.calls[0].op.peer
    && var op := s.calls[0].op;
       && s.calls[1].op == Revoke(op.peer, op.id)
       && Answer(net, s.versions[1], s.calls[1].op, s.calls[1].clock, s.calls[1].env) == None
       && AcceptingNodes(PeersOn(s.versions[2]), op.hash, now) == {}
       && AcceptingNodes(PeersOn(s.versions[3]), op.hash, now) == {op.peer}
  }

  lemma OverlapLines(s: State)
    requires Sound(s) && s.bases == [0, 1, 1]
    ensures Lineage(s, 2) == [0, 1] && Lineage(s, 3) == [0, 2]
  {
    LineageFrom(s, 1);
    LineageFrom(s, 2);
    LineageFrom(s, 3);
  }

  lemma LineageFrom(s: State, n: nat)
    requires Sound(s) && 0 < n < |s.versions|
    ensures Lineage(s, n) == Lineage(s, s.bases[n - 1]) + [n - 1] && Lineage(s, 0) == []
  {}

  lemma OverlapBringsBack(net: UrlPolicy.Net, es: seq<Event>, s: State, node: string, id: string, t: Instant)
    requires Leads(net, es, s) && s.bases == [0, 1, 1] && FreshDraws(s.calls) && AllAtZero(s)
    requires s.calls[0].op.Issue? && s.calls[0].op.peer == node && s.calls[0].op.id == id
    requires t < RunsOut(s.calls[0]) && s.calls[1].op == Revoke(node, id) && s.calls[1].env == Fine
    requires s.calls[2].op.Issue? && s.calls[2].op.peer != node
    ensures BroughtBack(net, es, t)
  {
    OverlapLines(s);
    assert 1 in Lineage(s, 2) && 1 !in Lineage(s, 3);
    assert EndedInLine(s, 2, 0, node, id) && !EndedInLine(s, 3, 0, node, id);
    RacedHoldersExactly(net, es, 2, 0, t);
    RacedHoldersExactly(net, es, 3, 0, t);
    AfterIsTraced(net, es);
    assert TracedAt(net, s, 1);
  }

  lemma DrawsDiffer(calls: seq<Call>)
    requires calls == [Rotation(K), Call(REVOKE, ZERO, Fine), Call(ISSUE, ZERO, Fine)]
    ensures FreshDraws(calls) && RunsOut(calls[0]) > 0
  {
    DatedDiffer(0, 0, 1, 0);
  }

  /** A revocation was made and written; then another peer's credential was issued by
      a process that had loaded the file before, and the token works again. */
  lemma RevocationIsLost(net: UrlPolicy.Net)
    ensures exists es :: Forward(net, es) && BroughtBack(net, es, 0)
  {
    FirstIssueWrites(net);
    var d1, d2 := SecondWrites(net);
    var es, s := FirstIssued(net, Shelf([K]), Rotation(K).op);
    es, s := Overlap(net, es, s, REVOKE, ISSUE, d1, d2);
    DrawsDiffer(s.calls);
    OverlapBringsBack(net, es, s, "p", K.id, 0);
  }
}
