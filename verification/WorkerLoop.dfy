/** One worker's main loop, with everything that runs beside it. */
module WorkerLoop {
  // Beside it run producers that persist and then publish, its own item tasks, every
  // other user of the store, and a shutdown.  The wake is a flag that holds at most one
  // permit.

  import opened Wrappers
  import opened WorkTable
  import opened WorkRuns

  datatype Config = Config(target: string, owner: string, lease: nat, concurrency: nat)

  datatype Pc =
    | Top
    | Recovering(stamp: int)
    | Ready                                   // about to call the store for a claim
    | Claiming(stamp: int, gated: bool)       // `gated`: past the cancellation check, holding the commit gate
    | Deciding(token: Token)                  // got an item
    | Spawning(token: Token)
    | Idle
    | Backoff
    | Draining
    | Done

  /** The worker's own variables and the three steps of a shutdown; `orphan` is a
      claim call past its gate whose worker was aborted; `recovered` only records
      history. */
  datatype Control = Control(
    pc: Pc, needsRecovery: bool, active: set<Token>, finished: set<Token>, permit: bool,
    signalled: bool, settled: bool, stopSent: bool, orphan: bool,
    recovered: bool)

  datatype State = State(now: int, w: World, k: Control, unpublished: set<WorkId>)

  datatype Event =
    // the surroundings
    | Pass(to: int)
    | Persist(e: Envelope)
    | Publish(id: WorkId)
    | Other(op: Op)
    | TaskEnds(token: Token)
    | Signal
    | Settle
    | SendStop
    | HostAbort
    // the loop; `stop` says that the shutdown branch of the `select!` won
    | JoinTask(token: Token)
    | BeginRecovery(stamp: int)
    | SkipRecovery
    | RecoveryLands(ok: bool, stop: bool)
    | CallClaim(stamp: int)
    | PassGate
    | ClaimCancelled(stop: bool)
    | ClaimFails(stop: bool)
    | ClaimLands(token: Token, outcome: ClaimOutcome, stop: bool)
    | Decide
    | SpawnTask
    | Woken
    | Timer
    | Stop
    | DrainEnds
    | DrainExpires

  // ------------------------------------------------------------- control flow

  function To(stop: bool, pc: Pc): Pc {
    if stop then Draining else pc
  }

  /** A claim that came back empty or failed. */
  function Unclaimed(k: Control, pc: Pc): Control {
    k.(pc := pc, needsRecovery := true, recovered := false)
  }

  function AfterClaim(k: Control, token: Token, outcome: ClaimOutcome, stop: bool): Control {
    match outcome
    case Nothing => Unclaimed(k, To(stop, Idle))
    case Damaged(_) => Unclaimed(k, To(stop, Backoff))
    case Claimed(_) => k.(pc := To(stop, Deciding(token)))
  }

  predicate Surroundings(k: Control, e: Event, k': Control) {
    match e
    case Publish(_) => k' == k.(permit := true)
    case TaskEnds(token) => token in k.active && k' == k.(finished := k.finished + {token})
    case Signal => k' == k.(signalled := true)
    case Settle =>
      k.signalled && !(k.pc.Claiming? && k.pc.gated) && !k.orphan && k' == k.(settled := true)
    case SendStop => k.settled && k' == k.(stopSent := true)
    case HostAbort =>
      && k.signalled
      && k' == k.(pc := Done, active := {}, finished := {}, orphan := k.orphan || (k.pc.Claiming? && k.pc.gated))
    case Pass(_) => k' == k
    case Persist(_) => k' == k
    case Other(_) => k' == k
    case _ => false
  }

  predicate RecoveryMoves(c: Config, k: Control, e: Event, k': Control) {
    match e
    case BeginRecovery(stamp) =>
      k.pc.Top? && |k.active| < c.concurrency && k.needsRecovery && k' == k.(pc := Recovering(stamp))
    case SkipRecovery =>
      k.pc.Top? && |k.active| < c.concurrency && !k.needsRecovery && k' == k.(pc := Ready)
    case RecoveryLands(ok, stop) =>
      && k.pc.Recovering? && (stop ==> k.stopSent)
      && k' == k.(pc := To(stop, if ok then Ready else Backoff),
                  needsRecovery := k.needsRecovery && (stop || !ok), recovered := k.recovered || (ok && !stop))
    case _ => false
  }

  predicate ClaimMoves(k: Control, e: Event, k': Control) {
    match e
    case CallClaim(stamp) => k.pc.Ready? && k' == k.(pc := Claiming(stamp, false))
    case PassGate =>
      k.pc.Claiming? && !k.pc.gated && !k.signalled && k' == k.(pc := k.pc.(gated := true))
    case ClaimCancelled(stop) =>
      k.pc.Claiming? && !k.pc.gated && k.signalled && (stop ==> k.stopSent) && k' == Unclaimed(k, To(stop, Idle))
    case ClaimFails(stop) =>
      k.pc.Claiming? && (stop ==> k.stopSent) && k' == Unclaimed(k, To(stop, Backoff))
    case ClaimLands(token, outcome, stop) =>
      && k.pc.Claiming? && k.pc.gated && (stop ==> k.stopSent)
      && k' == AfterClaim(k, token, outcome, stop)
    case Decide =>
      k.pc.Deciding? && k' == k.(pc := if k.signalled then Draining else Spawning(k.pc.token))
    case _ => false
  }

  predicate TaskMoves(c: Config, k: Control, e: Event, k': Control) {
    match e
    case SpawnTask =>
      && k.pc.Spawning?
      && k' == k.(pc := Top, active := k.active + {k.pc.token})
    case JoinTask(token) =>
      && token in k.active && token in k.finished
      && ((k.pc.Top? && |k.active| >= c.concurrency) || k.pc.Idle? || k.pc.Draining?)
      && k' == k.(active := k.active - {token}, finished := k.finished - {token},
                  pc := if k.pc.Draining? then Draining else Top)
    case DrainEnds => k.pc.Draining? && k.active == {} && k' == k.(pc := Done)
    case DrainExpires => k.pc.Draining? && k' == k.(pc := Done, active := {}, finished := {})
    case _ => false
  }

  predicate WaitMoves(c: Config, k: Control, e: Event, k': Control) {
    match e
    case Woken => k.pc.Idle? && k.permit && k' == k.(permit := false, pc := Top)
    case Timer => (k.pc.Idle? || k.pc.Backoff?) && k' == k.(pc := Top)
    case Stop =>
      && k.stopSent && (k.pc.Idle? || k.pc.Backoff? || (k.pc.Top? && |k.active| >= c.concurrency))
      && k' == k.(pc := Draining)
    case _ => false
  }

  predicate ControlStep(c: Config, k: Control, e: Event, k': Control) {
    || Surroundings(k, e, k')
    || RecoveryMoves(c, k, e, k')
    || ClaimMoves(k, e, k')
    || TaskMoves(c, k, e, k')
    || WaitMoves(c, k, e, k')
  }

  // --------------------------------------------------------- clock and table

  ghost predicate WorldStep(c: Config, s: State, e: Event, s': State) {
    match e
    case Pass(to) => s.now <= to && s' == s.(now := to)
    case Persist(env) =>
      && env.createdAt <= s.now && Step(s.w, DoEnqueue(env), s'.w) && s'.now == s.now
      && s'.unpublished == if Conflicts(s.w.table, env) then s.unpublished else s.unpublished + {env.id}
    case Publish(id) =>
      id in s.unpublished && s'.now == s.now && s'.w == s.w && s'.unpublished == s.unpublished - {id}
    case Other(op) =>
      !op.DoEnqueue? && Step(s.w, op, s'.w) && s'.now == s.now && s'.unpublished == s.unpublished
    case BeginRecovery(stamp) => stamp == s.now && SameWorld(s, s')
    case RecoveryLands(ok, _) =>
      && s.k.pc.Recovering? && s'.now == s.now && s'.unpublished == s.unpublished
      && if ok then Step(s.w, DoRecover(c.target, s.k.pc.stamp), s'.w) else s'.w == s.w
    case CallClaim(stamp) => stamp == s.now && SameWorld(s, s')
    case ClaimLands(token, outcome, _) =>
      && s.k.pc.Claiming? && s'.now == s.now && s'.unpublished == s.unpublished
      && Step(s.w, DoClaim(c.target, c.owner, s.k.pc.stamp, c.lease, token), s'.w)
      && IsClaim(s.w.table, c.target, c.owner, s.k.pc.stamp, c.lease, token, s'.w.table, outcome)
    case _ => SameWorld(s, s')
  }

  predicate SameWorld(s: State, s': State) {
    s'.now == s.now && s'.w == s.w && s'.unpublished == s.unpublished
  }

  ghost predicate Next(c: Config, s: State, e: Event, s': State) {
    ControlStep(c, s.k, e, s'.k) && WorldStep(c, s, e, s')
  }

  ghost predicate Initial(c: Config, s: State) {
    && 1 <= c.concurrency && GoodWorld(s.w) && s.unpublished == {}
    && s.k == Control(Top, true, {}, {}, false, false, false, false, false, false)
    && forall id :: id in s.w.table && Fresh(c, s.w.table[id]) ==> s.w.table[id].availableAt <= s.now
  }

  ghost predicate NextAt(c: Config, ss: seq<State>, es: seq<Event>, i: nat)
    requires i < |es| && |ss| == |es| + 1
  {
    Next(c, ss[i], es[i], ss[i + 1])
  }

  ghost predicate IsLoopRun(c: Config, ss: seq<State>, es: seq<Event>) {
    && |ss| == |es| + 1 && Initial(c, ss[0])
    && forall i :: 0 <= i < |es| ==> NextAt(c, ss, es, i)
  }

  // ----------------------------------------------------------- loop discipline

  predicate HasRoom(pc: Pc) {
    pc.Recovering? || pc.Ready? || pc.Claiming? || pc.Deciding? || pc.Spawning?
  }

  predicate Discipline(c: Config, k: Control) {
    && k.finished <= k.active
    && |k.active| <= c.concurrency
    && (HasRoom(k.pc) ==> |k.active| < c.concurrency)
    && (k.needsRecovery || k.recovered)
    && (k.pc.Ready? || k.pc.Claiming? ==> k.recovered)
    && (k.pc.Done? ==> k.active == {})
    && (k.settled ==> k.signalled && !(k.pc.Claiming? && k.pc.gated))
    && (k.stopSent ==> k.settled)
    && (k.orphan ==> !k.settled)
  }

  lemma SurroundingsKeepDiscipline(c: Config, k: Control, e: Event, k': Control)
    requires Discipline(c, k) && Surroundings(k, e, k')
    ensures Discipline(c, k')
  {}

  lemma RecoveryMovesKeepDiscipline(c: Config, k: Control, e: Event, k': Control)
    requires Discipline(c, k) && RecoveryMoves(c, k, e, k')
    ensures Discipline(c, k')
  {}

  lemma ClaimMovesKeepDiscipline(c: Config, k: Control, e: Event, k': Control)
    requires Discipline(c, k) && ClaimMoves(k, e, k')
    ensures Discipline(c, k')
  {}

  lemma TaskMovesKeepDiscipline(c: Config, k: Control, e: Event, k': Control)
    requires Discipline(c, k) && TaskMoves(c, k, e, k')
    ensures Discipline(c, k')
  {
    if e.JoinTask? { assert |k.active - {e.token}| == |k.active| - 1; }
    if e.SpawnTask? { assert |k.active + {k.pc.token}| <= |k.active| + 1; }
  }

  lemma WaitMovesKeepDiscipline(c: Config, k: Control, e: Event, k': Control)
    requires Discipline(c, k) && WaitMoves(c, k, e, k')
    ensures Discipline(c, k')
  {}

  lemma DisciplineKept(c: Config, k: Control, e: Event, k': Control)
    requires Discipline(c, k) && ControlStep(c, k, e, k')
    ensures Discipline(c, k')
  {
    if Surroundings(k, e, k') { SurroundingsKeepDiscipline(c, k, e, k'); }
    else if RecoveryMoves(c, k, e, k') { RecoveryMovesKeepDiscipline(c, k, e, k'); }
    else if ClaimMoves(k, e, k') { ClaimMovesKeepDiscipline(c, k, e, k'); }
    else if TaskMoves(c, k, e, k') { TaskMovesKeepDiscipline(c, k, e, k'); }
    else { WaitMovesKeepDiscipline(c, k, e, k'); }
  }

  /** In every state of every run: active tasks within the concurrency; a shutdown that
      left a claim call behind never settles; nothing active once the loop ended. */
  lemma {:induction false} LoopDiscipline(c: Config, ss: seq<State>, es: seq<Event>, i: nat)
    requires IsLoopRun(c, ss, es) && i < |ss|
    ensures var k := ss[i].k;
      && |k.active| <= c.concurrency
      && (k.orphan ==> !k.settled)
      && (k.pc.Done? ==> k.active == {})
    ensures Discipline(c, ss[i].k)
  {
    if i > 0 {
      LoopDiscipline(c, ss, es, i - 1);
      assert NextAt(c, ss, es, i - 1);
      DisciplineKept(c, ss[i - 1].k, es[i - 1], ss[i].k);
    }
  }

  lemma GatedCommits(c: Config, k: Control, e: Event, k': Control)
    requires ControlStep(c, k, e, k') && e.ClaimLands?
    ensures k.pc.Claiming? && k.pc.gated
  {}

  /** No claim commits after the shutdown settled. */
  lemma NoLateCommit(c: Config, ss: seq<State>, es: seq<Event>, i: nat)
    requires IsLoopRun(c, ss, es) && i < |es| && es[i].ClaimLands?
    ensures !ss[i].k.settled
  {
    LoopDiscipline(c, ss, es, i);
    assert NextAt(c, ss, es, i);
    GatedCommits(c, ss[i].k, es[i], ss[i + 1].k);
  }

  predicate InHand(k: Control, token: Token) {
    (k.pc.Deciding? || k.pc.Spawning?) && k.pc.token == token
  }

  /** A claim call that leaves the worker without an item. */
  predicate ComesEmpty(e: Event) {
    e.ClaimCancelled? || e.ClaimFails? || (e.ClaimLands? && !e.outcome.Claimed?)
  }

  /** What the outcome of a claim leaves behind. */
  lemma AfterClaimSays(k: Control, token: Token, outcome: ClaimOutcome, stop: bool, t: Token)
    ensures var k' := AfterClaim(k, token, outcome, stop);
      && k'.signalled == k.signalled && k'.recovered == (k.recovered && outcome.Claimed?)
      && (InHand(k', t) <==> outcome.Claimed? && !stop && t == token) && !k'.pc.Spawning?
  {
    match outcome
    case Nothing =>
    case Damaged(_) =>
    case Claimed(_) =>
  }

  lemma ClaimsForgetRecovery(k: Control, e: Event, k': Control)
    requires ClaimMoves(k, e, k') && k'.recovered
    ensures k.recovered && !ComesEmpty(e)
  {
    if e.ClaimLands? { AfterClaimSays(k, e.token, e.outcome, e.stop, e.token); }
  }

  lemma RecoveredFrom(c: Config, k: Control, e: Event, k': Control)
    requires ControlStep(c, k, e, k') && k'.recovered
    ensures (k.recovered && !ComesEmpty(e)) || e == RecoveryLands(true, false)
  {
    if ClaimMoves(k, e, k') { ClaimsForgetRecovery(k, e, k'); }
  }

  ghost predicate RecoveredSince(es: seq<Event>, j: nat)
    requires j <= |es|
  {
    exists m :: 0 <= m < j && es[m] == RecoveryLands(true, false) && forall n :: m < n < j ==> !ComesEmpty(es[n])
  }

  lemma {:induction false} RecoveredMeans(c: Config, ss: seq<State>, es: seq<Event>, j: nat)
    requires IsLoopRun(c, ss, es) && j < |ss| && ss[j].k.recovered
    ensures RecoveredSince(es, j)
  {
    if j > 0 {
      assert NextAt(c, ss, es, j - 1);
      RecoveredFrom(c, ss[j - 1].k, es[j - 1], ss[j].k);
      if es[j - 1] != RecoveryLands(true, false) { RecoveredMeans(c, ss, es, j - 1); }
    }
  }

  /** The store is called for a claim only after a recovery that succeeded since the
      last claim that came back empty, failed or was cancelled. */
  lemma ClaimFollowsRecovery(c: Config, ss: seq<State>, es: seq<Event>, j: nat)
    requires IsLoopRun(c, ss, es) && j < |es| && es[j].CallClaim?
    ensures RecoveredSince(es, j)
  {
    LoopDiscipline(c, ss, es, j);
    assert NextAt(c, ss, es, j);
    RecoveredMeans(c, ss, es, j);
  }

  ghost predicate Dispatched(ss: seq<State>, es: seq<Event>, i: nat, j: nat, token: Token)
    requires j < |ss| && |ss| == |es| + 1
  {
    exists m :: i < m < j && es[m] == SpawnTask && ss[m + 1].k.active == ss[m].k.active + {token}
  }

  predicate SignalledBy(ss: seq<State>, j: nat)
    requires j < |ss|
  {
    exists m :: 0 <= m <= j && ss[m].k.signalled
  }

  lemma OnlyTheLoopLetsGo(c: Config, k: Control, e: Event, k': Control, token: Token)
    requires InHand(k, token)
    ensures Surroundings(k, e, k') ==> InHand(k', token) || k'.signalled
    ensures ClaimMoves(k, e, k') ==> InHand(k', token) || k'.signalled
    ensures !RecoveryMoves(c, k, e, k') && !WaitMoves(c, k, e, k')
  {}

  lemma InHandUntil(c: Config, k: Control, e: Event, k': Control, token: Token)
    requires ControlStep(c, k, e, k') && InHand(k, token)
    ensures InHand(k', token) || k'.signalled || (e == SpawnTask && k'.active == k.active + {token})
  {
    OnlyTheLoopLetsGo(c, k, e, k', token);
  }

  /** An item that a claim handed over is dispatched: at any later state it is still
      in hand, or a task was spawned for it, or the shutdown was signalled by then. */
  lemma {:induction false} ClaimedIsDispatched(
    c: Config, ss: seq<State>, es: seq<Event>, i: nat, j: nat, token: Token, outcome: ClaimOutcome)
    requires IsLoopRun(c, ss, es) && i < j < |ss|
    requires outcome.Claimed? && es[i] == ClaimLands(token, outcome, false)
    ensures InHand(ss[j].k, token) || Dispatched(ss, es, i, j, token) || SignalledBy(ss, j)
  {
    assert NextAt(c, ss, es, j - 1);
    if j > i + 1 {
      ClaimedIsDispatched(c, ss, es, i, j - 1, token, outcome);
      var k, e, k' := ss[j - 1].k, es[j - 1], ss[j].k;
      if InHand(k, token) { InHandUntil(c, k, e, k', token); }
    }
  }

  /** The claim call hands an item over, and no shutdown branch takes it away. */
  predicate Grants(e: Event, token: Token) {
    e.ClaimLands? && e.token == token && e.outcome.Claimed? && !e.stop
  }

  predicate StaysInHand(k: Control, k': Control, token: Token) {
    && InHand(k, token) && (k.signalled ==> k'.signalled)
    && (k'.pc.Deciding? ==> k.pc.Deciding?) && (k'.pc.Spawning? ==> k.pc.Spawning? || !k.signalled)
  }

  predicate Handed(k: Control, e: Event, k': Control, token: Token) {
    StaysInHand(k, k', token) || (Grants(e, token) && k'.pc.Deciding? && k'.signalled == k.signalled)
  }

  lemma SurroundingsHand(k: Control, e: Event, k': Control, token: Token)
    requires Surroundings(k, e, k') && InHand(k', token)
    ensures Handed(k, e, k', token)
  {}

  lemma ClaimLandsHands(k: Control, e: Event, k': Control, token: Token)
    requires e.ClaimLands? && ClaimMoves(k, e, k') && InHand(k', token)
    ensures Handed(k, e, k', token)
  {
    AfterClaimSays(k, e.token, e.outcome, e.stop, token);
  }

  lemma ClaimMovesHand(k: Control, e: Event, k': Control, token: Token)
    requires ClaimMoves(k, e, k') && InHand(k', token)
    ensures Handed(k, e, k', token)
  {
    if e.ClaimLands? { ClaimLandsHands(k, e, k', token); }
  }

  lemma OthersDoNotHand(c: Config, k: Control, e: Event, k': Control, token: Token)
    requires InHand(k', token)
    ensures !RecoveryMoves(c, k, e, k') && !WaitMoves(c, k, e, k') && !TaskMoves(c, k, e, k')
  {}

  lemma InHandFrom(c: Config, k: Control, e: Event, k': Control, token: Token)
    requires ControlStep(c, k, e, k') && InHand(k', token)
    ensures Handed(k, e, k', token)
  {
    OthersDoNotHand(c, k, e, k', token);
    if Surroundings(k, e, k') { SurroundingsHand(k, e, k', token); } else { ClaimMovesHand(k, e, k', token); }
  }

  ghost predicate InTime(ss: seq<State>, es: seq<Event>, j: nat, token: Token)
    requires j < |ss| && |ss| == |es| + 1
  {
    exists i :: 0 <= i < j && Grants(es[i], token)
      && (ss[i].k.signalled ==> ss[j].k.signalled && ss[j].k.pc.Deciding?)
  }

  lemma {:induction false} GrantedBefore(c: Config, ss: seq<State>, es: seq<Event>, j: nat, token: Token)
    requires IsLoopRun(c, ss, es) && j < |ss| && InHand(ss[j].k, token)
    ensures InTime(ss, es, j, token)
  {
    if j > 0 {
      assert NextAt(c, ss, es, j - 1);
      InHandFrom(c, ss[j - 1].k, es[j - 1], ss[j].k, token);
      if StaysInHand(ss[j - 1].k, ss[j].k, token) {
        GrantedBefore(c, ss, es, j - 1, token);
      }
    }
  }

  /** An item is dispatched only after a claim that handed it over before the shutdown
      was signalled. */
  lemma DispatchedWasClaimedInTime(c: Config, ss: seq<State>, es: seq<Event>, j: nat)
    requires IsLoopRun(c, ss, es) && j < |es| && es[j] == SpawnTask
    ensures exists i, token :: 0 <= i < j && Grants(es[i], token) && !ss[i].k.signalled
              && ss[j + 1].k.active == ss[j].k.active + {token}
  {
    assert NextAt(c, ss, es, j);
    GrantedBefore(c, ss, es, j, ss[j].k.pc.token);
  }

  // ------------------------------------------------ a run that does dispatch

  function Item(c: Config): Row {
    NewRow(Envelope(0, "source", "kind", c.target, "actor", None, None, 0, 1, 0))
  }

  function Stored(c: Config): World {
    World(map[0 := Item(c)], {})
  }

  function Taken(c: Config): World {
    World(map[0 := Granted(Item(c), c.owner, 0, c.lease)], {0})
  }

  function In(pc: Pc, w: World, active: set<Token>, recovered: bool): State {
    State(0, w, Control(pc, !recovered, active, {}, false, false, false, false, false, recovered), {})
  }

  lemma Extend(c: Config, ss: seq<State>, es: seq<Event>, e: Event, s': State)
    requires IsLoopRun(c, ss, es) && Next(c, ss[|es|], e, s')
    ensures IsLoopRun(c, ss + [s'], es + [e])
  {
    forall i | 0 <= i < |es| ensures NextAt(c, ss + [s'], es + [e], i) { assert NextAt(c, ss, es, i); }
  }

  lemma ReadyToClaim(c: Config) returns (ss: seq<State>, es: seq<Event>)
    requires 1 <= c.concurrency
    ensures IsLoopRun(c, ss, es) && ss[|es|] == In(Ready, Stored(c), {}, true)
  {
    var s0 := In(Top, Stored(c), {}, false);
    var s1, s2 := In(Recovering(0), Stored(c), {}, false), In(Ready, Stored(c), {}, true);
    assert Recover(Stored(c).table, c.target, 0) == Stored(c).table;
    ss, es := [s0], [];
    Extend(c, ss, es, BeginRecovery(0), s1);
    ss, es := ss + [s1], es + [BeginRecovery(0)];
    Extend(c, ss, es, RecoveryLands(true, false), s2);
    ss, es := ss + [s2], es + [RecoveryLands(true, false)];
  }

  lemma TakesTheItem(c: Config)
    ensures IsClaim(Stored(c).table, c.target, c.owner, 0, c.lease, 0, Taken(c).table, Claimed(0))
    ensures Step(Stored(c), DoClaim(c.target, c.owner, 0, c.lease, 0), Taken(c))
  {
    var t := Stored(c).table;
    assert Recover(t, c.target, 0) == t && IsFirst(t, c.target, 0, 0) && Decodes(t[0]);
    assert IsClaim(t, c.target, c.owner, 0, c.lease, 0, Taken(c).table, Claimed(0));
  }

  lemma ClaimCalled(c: Config) returns (ss: seq<State>, es: seq<Event>)
    requires 1 <= c.concurrency
    ensures IsLoopRun(c, ss, es) && ss[|es|] == In(Claiming(0, true), Stored(c), {}, true)
  {
    ss, es := ReadyToClaim(c);
    var s3, s4 := In(Claiming(0, false), Stored(c), {}, true), In(Claiming(0, true), Stored(c), {}, true);
    Extend(c, ss, es, CallClaim(0), s3);
    ss, es := ss + [s3], es + [CallClaim(0)];
    Extend(c, ss, es, PassGate, s4);
    ss, es := ss + [s4], es + [PassGate];
  }

  lemma ClaimLanded(c: Config)
    ensures Next(c, In(Claiming(0, true), Stored(c), {}, true), ClaimLands(0, Claimed(0), false),
                 In(Deciding(0), Taken(c), {}, true))
  {
    TakesTheItem(c);
    var s4, s5 := In(Claiming(0, true), Stored(c), {}, true), In(Deciding(0), Taken(c), {}, true);
    assert AfterClaim(s4.k, 0, Claimed(0), false) == s5.k;
    assert ClaimMoves(s4.k, ClaimLands(0, Claimed(0), false), s5.k);
  }

  lemma ItemInHand(c: Config) returns (ss: seq<State>, es: seq<Event>)
    requires 1 <= c.concurrency
    ensures IsLoopRun(c, ss, es) && ss[|es|] == In(Deciding(0), Taken(c), {}, true)
  {
    ss, es := ClaimCalled(c);
    ClaimLanded(c);
    Extend(c, ss, es, ClaimLands(0, Claimed(0), false), In(Deciding(0), Taken(c), {}, true));
    ss, es := ss + [In(Deciding(0), Taken(c), {}, true)], es + [ClaimLands(0, Claimed(0), false)];
  }

  /** Whatever the configuration, some run recovers, claims and spawns a task. */
  lemma SomeItemIsDispatched(c: Config)
    requires 1 <= c.concurrency
    ensures exists ss: seq<State>, es: seq<Event> :: IsLoopRun(c, ss, es) && 0 in ss[|es|].k.active
  {
    var ss, es := ItemInHand(c);
    var s6, s7 := In(Spawning(0), Taken(c), {}, true), In(Top, Taken(c), {0}, true);
    Extend(c, ss, es, Decide, s6);
    ss, es := ss + [s6], es + [Decide];
    Extend(c, ss, es, SpawnTask, s7);
    ss, es := ss + [s7], es + [SpawnTask];
  }

  // ------------------------------------------------------------ no lost wakeup

  predicate Fresh(c: Config, r: Row) {
    r.envelope.target == c.target && r.status == Pending && r.attempts == 0
  }

  predicate Announced(s: State, id: WorkId) {
    id in s.unpublished || s.k.permit
  }

  predicate RowWakeOk(c: Config, s: State, id: WorkId)
    requires id in s.w.table
  {
    Fresh(c, s.w.table[id]) ==>
      && s.w.table[id].availableAt <= s.now
      && (s.k.pc.Idle? && !s.k.signalled ==> Announced(s, id))
      && (s.k.pc.Claiming? ==> Announced(s, id) || s.w.table[id].availableAt <= s.k.pc.stamp)
  }

  ghost predicate WakeOk(c: Config, s: State) {
    GoodWorld(s.w) && forall id :: id in s.w.table ==> RowWakeOk(c, s, id)
  }

  /** A row that is fresh after a transaction was the same before it, or is new. */
  lemma FreshStays(c: Config, w: World, op: Op, w': World, id: WorkId)
    requires GoodWorld(w) && Step(w, op, w') && id in w.table && id in w'.table && Fresh(c, w'.table[id])
    ensures w'.table[id] == w.table[id]
  {
    match op
    case DoClaim(target, owner, now, lease, token) =>
      var o :| IsClaim(w.table, target, owner, now, lease, token, w'.table, o);
      assert Recover(w.table, target, now)[id] == RecoverRow(w.table[id], target, now);
    case _ =>
  }

  /** What an event does to the table, if anything. */
  function OpOf(c: Config, s: State, e: Event): Option<Op> {
    match e
    case Persist(env) => Some(DoEnqueue(env))
    case Other(op) => Some(op)
    case RecoveryLands(ok, _) => if ok && s.k.pc.Recovering? then Some(DoRecover(c.target, s.k.pc.stamp)) else None
    case ClaimLands(token, _, _) =>
      if s.k.pc.Claiming? then Some(DoClaim(c.target, c.owner, s.k.pc.stamp, c.lease, token)) else None
    case _ => None
  }

  lemma TableEffect(c: Config, s: State, e: Event, s': State)
    requires Next(c, s, e, s') && GoodWorld(s.w)
    ensures GoodWorld(s'.w)
    ensures forall id :: id in s'.w.table && Fresh(c, s'.w.table[id]) ==>
      (id in s.w.table && s'.w.table[id] == s.w.table[id])
      || (e.Persist? && e.e.id == id && id !in s.w.table && id in s'.unpublished && s'.w.table[id] == NewRow(e.e))
  {
    var op := OpOf(c, s, e);
    if op.Some? {
      GoodStep(s.w, op.value, s'.w);
      forall id | id in s'.w.table && Fresh(c, s'.w.table[id])
        ensures (id in s.w.table && s'.w.table[id] == s.w.table[id])
          || (e.Persist? && e.e.id == id && id !in s.w.table && id in s'.unpublished && s'.w.table[id] == NewRow(e.e))
      {
        if id in s.w.table {
          FreshStays(c, s.w, op.value, s'.w, id);
        } else {
          StepAddsRow(s.w, op.value, s'.w, id);
        }
      }
    }
  }

  /** A claim that found nothing left no fresh row it could have seen. */
  lemma NothingLeftBehind(c: Config, s: State, e: Event, s': State, id: WorkId)
    requires Next(c, s, e, s') && WakeOk(c, s) && e.ClaimLands? && e.outcome.Nothing?
    requires id in s.w.table && id in s'.w.table && Fresh(c, s.w.table[id]) && s'.w.table[id] == s.w.table[id]
    ensures s.w.table[id].availableAt > s.k.pc.stamp
  {
    assert s'.w.table == Recover(s.w.table, c.target, s.k.pc.stamp);
    assert !Candidate(s'.w.table[id], c.target, s.k.pc.stamp);
  }

  /** How the loop comes to be idle, and what the permit does meanwhile. */
  predicate IdleFrom(k: Control, e: Event, k': Control) {
    k'.pc.Idle? && !k'.signalled ==>
      && !k.signalled && (k.permit ==> k'.permit)
      && (k.pc.Idle? || (k.pc.Claiming? && e.ClaimLands? && e.outcome.Nothing?))
  }

  /** The same for being in a claim call. */
  predicate ClaimingFrom(k: Control, e: Event, k': Control) {
    k'.pc.Claiming? ==>
      && (k.permit ==> k'.permit)
      && ((k.pc.Claiming? && k.pc.stamp == k'.pc.stamp) || e == CallClaim(k'.pc.stamp))
  }

  lemma SurroundingsWait(k: Control, e: Event, k': Control)
    requires Surroundings(k, e, k')
    ensures IdleFrom(k, e, k') && ClaimingFrom(k, e, k')
  {}

  lemma RecoveryMovesWait(c: Config, k: Control, e: Event, k': Control)
    requires RecoveryMoves(c, k, e, k')
    ensures !k'.pc.Idle? && !k'.pc.Claiming?
  {}

  lemma CallClaimWait(k: Control, e: Event, k': Control)
    requires e.CallClaim? && ClaimMoves(k, e, k')
    ensures IdleFrom(k, e, k') && ClaimingFrom(k, e, k')
  {}

  lemma PassGateWait(k: Control, e: Event, k': Control)
    requires e.PassGate? && ClaimMoves(k, e, k')
    ensures IdleFrom(k, e, k') && ClaimingFrom(k, e, k')
  {}

  lemma ClaimCancelledWait(k: Control, e: Event, k': Control)
    requires e.ClaimCancelled? && ClaimMoves(k, e, k')
    ensures IdleFrom(k, e, k') && ClaimingFrom(k, e, k')
  {}

  lemma ClaimFailsWait(k: Control, e: Event, k': Control)
    requires e.ClaimFails? && ClaimMoves(k, e, k')
    ensures IdleFrom(k, e, k') && ClaimingFrom(k, e, k')
  {}

  lemma AfterClaimWait(k: Control, token: Token, outcome: ClaimOutcome, stop: bool)
    ensures var k' := AfterClaim(k, token, outcome, stop);
      && k'.permit == k.permit && k'.signalled == k.signalled && !k'.pc.Claiming?
      && (k'.pc.Idle? ==> outcome.Nothing?)
  {
    match outcome
    case Nothing =>
    case Damaged(_) =>
    case Claimed(_) =>
  }

  lemma ClaimLandsWait(k: Control, e: Event, k': Control)
    requires e.ClaimLands? && ClaimMoves(k, e, k')
    ensures IdleFrom(k, e, k') && ClaimingFrom(k, e, k')
  {
    AfterClaimWait(k, e.token, e.outcome, e.stop);
  }

  lemma DecideWait(k: Control, e: Event, k': Control)
    requires e.Decide? && ClaimMoves(k, e, k')
    ensures IdleFrom(k, e, k') && ClaimingFrom(k, e, k')
  {}

  lemma ClaimMovesWait(k: Control, e: Event, k': Control)
    requires ClaimMoves(k, e, k')
    ensures IdleFrom(k, e, k') && ClaimingFrom(k, e, k')
  {
    match e
    case CallClaim(_) => CallClaimWait(k, e, k');
    case PassGate => PassGateWait(k, e, k');
    case ClaimCancelled(_) => ClaimCancelledWait(k, e, k');
    case ClaimFails(_) => ClaimFailsWait(k, e, k');
    case ClaimLands(_, _, _) => ClaimLandsWait(k, e, k');
    case Decide => DecideWait(k, e, k');
  }

  lemma TaskMovesWait(c: Config, k: Control, e: Event, k': Control)
    requires TaskMoves(c, k, e, k')
    ensures !k'.pc.Idle? && !k'.pc.Claiming?
  {}

  lemma WaitMovesWait(c: Config, k: Control, e: Event, k': Control)
    requires WaitMoves(c, k, e, k')
    ensures !k'.pc.Idle? && !k'.pc.Claiming?
  {}

  lemma ControlWait(c: Config, k: Control, e: Event, k': Control)
    requires ControlStep(c, k, e, k')
    ensures IdleFrom(k, e, k') && ClaimingFrom(k, e, k')
  {
    if Surroundings(k, e, k') { SurroundingsWait(k, e, k'); }
    else if RecoveryMoves(c, k, e, k') { RecoveryMovesWait(c, k, e, k'); }
    else if ClaimMoves(k, e, k') { ClaimMovesWait(k, e, k'); }
    else if TaskMoves(c, k, e, k') { TaskMovesWait(c, k, e, k'); }
    else { WaitMovesWait(c, k, e, k'); }
  }

  lemma RowWakeKept(c: Config, s: State, e: Event, s': State, id: WorkId)
    requires Next(c, s, e, s') && WakeOk(c, s) && id in s.w.table && id in s'.w.table
    requires Fresh(c, s'.w.table[id]) && s'.w.table[id] == s.w.table[id]
    ensures RowWakeOk(c, s', id)
  {
    ControlWait(c, s.k, e, s'.k);
    assert RowWakeOk(c, s, id);
    assert e.Publish? ==> s'.k.permit;
    assert s.now <= s'.now;
    assert Announced(s, id) && (s.k.permit ==> s'.k.permit) ==> Announced(s', id);
    if e.ClaimLands? && e.outcome.Nothing? { NothingLeftBehind(c, s, e, s', id); }
  }

  lemma WakeKept(c: Config, s: State, e: Event, s': State)
    requires Next(c, s, e, s') && WakeOk(c, s)
    ensures WakeOk(c, s')
  {
    TableEffect(c, s, e, s');
    forall id | id in s'.w.table ensures RowWakeOk(c, s', id) {
      if Fresh(c, s'.w.table[id]) && id in s.w.table && s'.w.table[id] == s.w.table[id] {
        RowWakeKept(c, s, e, s', id);
      }
    }
  }

  /** Whenever a worker that is not shutting down sits in its idle wait, every
      item that was enqueued, is claimable now and was never claimed either has
      its publish still to come or has left the wake permit set. */
  lemma {:induction false} NoLostWakeup(c: Config, ss: seq<State>, es: seq<Event>, i: nat)
    requires IsLoopRun(c, ss, es) && i < |ss|
    ensures WakeOk(c, ss[i])
    ensures ss[i].k.pc.Idle? && !ss[i].k.signalled ==>
      forall id :: id in ss[i].w.table && ss[i].w.table[id].attempts == 0
                   && Candidate(ss[i].w.table[id], c.target, ss[i].now)
        ==> id in ss[i].unpublished || ss[i].k.permit
  {
    if i > 0 {
      NoLostWakeup(c, ss, es, i - 1);
      assert NextAt(c, ss, es, i - 1);
      WakeKept(c, ss[i - 1], es[i - 1], ss[i]);
    }
    forall id | ss[i].k.pc.Idle? && !ss[i].k.signalled && id in ss[i].w.table && ss[i].w.table[id].attempts == 0
                && Candidate(ss[i].w.table[id], c.target, ss[i].now)
      ensures id in ss[i].unpublished || ss[i].k.permit
    {
      assert RowWakeOk(c, ss[i], id);
    }
  }
}
