/** Handlers, heartbeats and leases against one clock. */
module LeaseTiming {
  // A task is one claimed item being processed; its renewal call reads the clock and
  // lands on the table some time after it was issued, possibly long after the worker
  // gave up on it.

  import opened Wrappers
  import opened WorkTable
  import opened WorkRuns

  /** `startDelay` bounds the time from a claim's clock stamp to the start of its
      handler; the others are the worker's configured durations. */
  datatype Timing = Timing(lease: nat, heartbeat: nat, timeout: nat, startDelay: nat)

  /** What the worker's limits guarantee. */
  predicate Admitted(c: Timing) {
    1 <= c.heartbeat && 2 * c.heartbeat < c.lease && 1 <= c.timeout
  }

  function Min(a: nat, b: nat): nat {
    if a <= b then a else b
  }

  /** How long a handler can run on the lease of its claim. */
  function Unrenewed(c: Timing): nat {
    Min(2 * c.heartbeat, c.timeout)
  }

  predicate PromptStart(c: Timing) {
    c.startDelay + Unrenewed(c) < c.lease
  }

  datatype Phase =
    | Waiting                                        // claimed, handler not started
    | Running(due: nat)                              // handler runs, next heartbeat at `due`
    | Renewing(since: nat, landed: Option<bool>)     // handler runs, renewal issued at `since`
    | Stopped                                        // handler finished, or aborted and awaited

  /** `call` is an outstanding renewal and when it was issued; `started` is when the
      handler started, and means nothing before. */
  datatype Task = Task(id: WorkId, owner: string, stamp: nat, started: nat, phase: Phase, call: Option<nat>)

  datatype Sys = Sys(now: nat, w: World, tasks: map<Token, Task>)

  predicate Alive(k: Task) {
    k.phase.Running? || k.phase.Renewing?
  }

  datatype Event =
    | Advance(d: nat)
    | Store(op: Op)                                  // enqueue, recovery or cancellation
    | ClaimBy(target: string, owner: string, stamp: nat, token: Token, outcome: ClaimOutcome)
    | Start(token: Token)
    | Tick(token: Token)
    | Land(token: Token, stamp: nat)
    | Resume(token: Token)
    | Stop(token: Token)
    | Finish(token: Token, op: Op)

  /** Heartbeats are taken when due, a renewal is abandoned when its budget of one
      heartbeat is spent, the deadline ends either wait, and an abort takes no time. */
  predicate Prompt(c: Timing, k: Task, at: nat) {
    match k.phase
    case Running(due) => at <= due && at <= k.started + c.timeout
    case Renewing(since, _) => at <= since + c.heartbeat && at <= k.started + c.timeout
    case _ => true
  }

  function StampOf(op: Op): int {
    match op
    case DoEnqueue(e) => e.createdAt
    case DoClaim(_, _, now, _, _) => now
    case DoRenew(_, _, _, now, _) => now
    case DoComplete(_, _, _, now) => now
    case DoFail(_, _, _, now, _, _) => now
    case DoRecover(_, now) => now
    case DoCancel(_, _, now) => now
  }

  predicate Anonymous(op: Op) {
    op.DoEnqueue? || op.DoRecover? || op.DoCancel?
  }

  function Moved(s: Sys, token: Token, phase: Phase): Sys
    requires token in s.tasks
  {
    s.(tasks := s.tasks[token := s.tasks[token].(phase := phase)])
  }

  ghost predicate Next(c: Timing, s: Sys, e: Event, s': Sys) {
    match e
    case Advance(d) =>
      && s' == s.(now := s.now + d)
      && forall k :: k in s.tasks ==> Prompt(c, s.tasks[k], s.now + d)
    case Store(op) =>
      && Anonymous(op) && StampOf(op) <= s.now
      && Step(s.w, op, s'.w) && s' == s.(w := s'.w)
    case ClaimBy(target, owner, stamp, token, outcome) =>
      && stamp <= s.now && token !in s.tasks && token !in s.w.issued
      && IsClaim(s.w.table, target, owner, stamp, c.lease, token, s'.w.table, outcome)
      && s'.w.issued == s.w.issued + {token} && s'.now == s.now
      && s'.tasks == if outcome.Claimed?
                     then s.tasks[token := Task(outcome.id, owner, stamp, 0, Waiting, None)] else s.tasks
    case Start(token) =>
      && token in s.tasks && s.tasks[token].phase.Waiting?
      && s.now <= s.tasks[token].stamp + c.startDelay
      && s' == s.(tasks := s.tasks[token := s.tasks[token].(started := s.now, phase := Running(s.now + c.heartbeat))])
    case Tick(token) =>
      && token in s.tasks && s.tasks[token].phase.Running? && s.tasks[token].phase.due <= s.now
      && s' == s.(tasks := s.tasks[token := s.tasks[token].(phase := Renewing(s.now, None), call := Some(s.now))])
    case Land(token, stamp) =>
      && token in s.tasks && s.tasks[token].call.Some? && s.tasks[token].call.value <= stamp <= s.now
      && var k := s.tasks[token];
         var ok := Holds(s.w.table, k.id, k.owner, token, stamp);
         var phase := if k.phase.Renewing? then k.phase.(landed := Some(ok)) else k.phase;
      && Step(s.w, DoRenew(k.id, k.owner, token, stamp, c.lease), s'.w)
      && s' == Sys(s.now, s'.w, s.tasks[token := k.(phase := phase, call := None)])
    case Resume(token) =>
      && token in s.tasks && s.tasks[token].phase.Renewing? && s.tasks[token].phase.landed.Some?
      && var p := s.tasks[token].phase;
      && s' == Moved(s, token, if p.landed.value then Running(p.since + c.heartbeat) else Stopped)
    case Stop(token) =>
      && token in s.tasks && s' == Moved(s, token, Stopped)
    case Finish(token, op) =>
      && token in s.tasks && s.tasks[token].phase.Stopped?
      && (op.DoComplete? || op.DoFail?) && Presents(op, s.tasks[token].id, token) && StampOf(op) <= s.now
      && Step(s.w, op, s'.w) && s' == s.(w := s'.w)
  }

  ghost predicate Initial(s: Sys) {
    GoodWorld(s.w) && s.tasks == map[]
  }

  ghost predicate NextAt(c: Timing, ss: seq<Sys>, es: seq<Event>, i: nat)
    requires i < |es| && |ss| == |es| + 1
  {
    Next(c, ss[i], es[i], ss[i + 1])
  }

  ghost predicate IsTimedRun(c: Timing, ss: seq<Sys>, es: seq<Event>) {
    && |ss| == |es| + 1 && Initial(ss[0])
    && forall i :: 0 <= i < |es| ==> NextAt(c, ss, es, i)
  }

  // ------------------------------------------------------ the three guarantees

  /** At most one handler runs for an item, whatever worker it is on. */
  ghost predicate Exclusive(s: Sys) {
    forall j, k ::
      (j in s.tasks && k in s.tasks && Alive(s.tasks[j]) && Alive(s.tasks[k]) && s.tasks[j].id == s.tasks[k].id)
      ==> j == k
  }

  /** While a handler runs its lease is current and unexpired, unless the item was
      ended under it. */
  ghost predicate Covered(s: Sys) {
    forall k :: k in s.tasks && Alive(s.tasks[k]) ==>
      && s.tasks[k].id in s.w.table
      && (Terminal(s.w.table[s.tasks[k].id]) || Holds(s.w.table, s.tasks[k].id, s.tasks[k].owner, k, s.now))
  }

  /** No handler runs longer than its timeout. */
  ghost predicate Bounded(c: Timing, s: Sys) {
    forall k :: k in s.tasks && Alive(s.tasks[k]) ==> s.tasks[k].started <= s.now <= s.tasks[k].started + c.timeout
  }

  // ------------------------------------------------------------ the invariant

  predicate HeldUntil(t: Table, k: Token, task: Task, e: int) {
    task.id in t && (Terminal(t[task.id]) || Holds(t, task.id, task.owner, k, e))
  }

  predicate InTime(c: Timing, now: nat, task: Task) {
    task.started <= now <= task.started + c.timeout
  }

  predicate TaskOk(c: Timing, now: nat, t: Table, k: Token, task: Task) {
    && task.id in t && task.stamp <= now
    && match task.phase
       case Waiting =>
         task.call.None? && (now < task.stamp + c.lease ==> HeldUntil(t, k, task, task.stamp + c.lease - 1))
       case Running(due) =>
         && task.call.None? && now <= due && InTime(c, now, task)
         && HeldUntil(t, k, task, Min(due + c.heartbeat, task.started + c.timeout))
       case Renewing(since, landed) =>
         && since <= now <= since + c.heartbeat && InTime(c, now, task)
         && (match landed
             case None =>
               task.call == Some(since)
               && HeldUntil(t, k, task, Min(since + c.heartbeat, task.started + c.timeout))
             case Some(ok) =>
               task.call.None?
               && (Terminal(t[task.id]) || (ok && Holds(t, task.id, task.owner, k, since + 2 * c.heartbeat))))
       case Stopped => true
  }

  /** A task that no longer runs and may no longer start. */
  predicate Over(c: Timing, now: nat, task: Task) {
    task.phase.Stopped? || (task.phase.Waiting? && task.stamp + c.lease <= now)
  }

  ghost predicate Inv(c: Timing, s: Sys) {
    && GoodWorld(s.w)
    && (forall k :: k in s.tasks ==> k in s.w.issued && TaskOk(c, s.now, s.w.table, k, s.tasks[k]))
    && (forall j, k :: j in s.tasks && k in s.tasks && s.tasks[j].id == s.tasks[k].id && j != k ==>
          Over(c, s.now, s.tasks[j]) || Over(c, s.now, s.tasks[k]))
  }

  lemma InvGuarantees(c: Timing, s: Sys)
    requires Inv(c, s)
    ensures Exclusive(s) && Covered(s) && Bounded(c, s)
  {}

  // ------------------------------------------------------------- preservation

  lemma HeldStays(t: Table, op: Op, t': Table, k: Token, task: Task, e: int)
    requires Effect(t, op, t') && HeldUntil(t, k, task, e)
    requires (op.DoRecover? || op.DoClaim?) ==> StampOf(op) <= e
    requires !Presents(op, task.id, k)
    ensures HeldUntil(t', k, task, e)
    ensures Terminal(t[task.id]) ==> Terminal(t'[task.id])
  {
    match op
    case DoClaim(target, owner, now, lease, token) =>
      var o :| IsClaim(t, target, owner, now, lease, token, t', o);
      assert Recover(t, target, now)[task.id] == RecoverRow(t[task.id], target, now);
    case _ =>
  }

  lemma TaskKept(c: Timing, now: nat, w: World, op: Op, w': World, k: Token, task: Task)
    requires TaskOk(c, now, w.table, k, task) && Step(w, op, w')
    requires StampOf(op) <= now && !Presents(op, task.id, k)
    ensures TaskOk(c, now, w'.table, k, task)
  {
    StepMovesRow(w, op, w', task.id);
    match task.phase
    case Waiting =>
      if now < task.stamp + c.lease { HeldStays(w.table, op, w'.table, k, task, task.stamp + c.lease - 1); }
    case Running(due) =>
      HeldStays(w.table, op, w'.table, k, task, Min(due + c.heartbeat, task.started + c.timeout));
    case Renewing(since, landed) =>
      HeldStays(w.table, op, w'.table, k, task, Min(since + c.heartbeat, task.started + c.timeout));
      if landed == Some(true) && !Terminal(w.table[task.id]) {
        HeldStays(w.table, op, w'.table, k, task, since + 2 * c.heartbeat);
      }
    case Stopped =>
  }

  lemma StoreKeeps(c: Timing, s: Sys, op: Op, s': Sys)
    requires Inv(c, s) && Step(s.w, op, s'.w) && s' == s.(w := s'.w) && StampOf(op) <= s.now
    requires forall k :: k in s.tasks && Presents(op, s.tasks[k].id, k) ==> s.tasks[k].phase.Stopped?
    ensures Inv(c, s')
  {
    GoodStep(s.w, op, s'.w);
    forall k | k in s.tasks ensures TaskOk(c, s'.now, s'.w.table, k, s.tasks[k]) {
      if Presents(op, s.tasks[k].id, k) {
        StepMovesRow(s.w, op, s'.w, s.tasks[k].id);
      } else {
        TaskKept(c, s.now, s.w, op, s'.w, k, s.tasks[k]);
      }
    }
  }

  /** The row a claim takes has no other task that runs or may start. */
  lemma ClaimedRowIsFree(c: Timing, s: Sys, e: Event, s': Sys, j: Token)
    requires Inv(c, s) && Next(c, s, e, s') && e.ClaimBy? && e.outcome.Claimed?
    requires j in s.tasks && s.tasks[j].id == e.outcome.id
    ensures Over(c, s.now, s.tasks[j])
  {
    var d := Recover(s.w.table, e.target, e.stamp);
    assert d[e.outcome.id] == RecoverRow(s.w.table[e.outcome.id], e.target, e.stamp);
    assert d[e.outcome.id].status == Pending;
  }

  lemma ClaimKeeps(c: Timing, s: Sys, e: Event, s': Sys)
    requires Inv(c, s) && Next(c, s, e, s') && e.ClaimBy?
    ensures Inv(c, s')
  {
    var op := DoClaim(e.target, e.owner, e.stamp, c.lease, e.token);
    assert Step(s.w, op, s'.w);
    GoodStep(s.w, op, s'.w);
    forall k | k in s'.tasks ensures TaskOk(c, s'.now, s'.w.table, k, s'.tasks[k]) {
      if k in s.tasks { TaskKept(c, s.now, s.w, op, s'.w, k, s.tasks[k]); }
    }
    forall j | j in s.tasks && e.outcome.Claimed? && s.tasks[j].id == e.outcome.id
      ensures Over(c, s.now, s.tasks[j])
    {
      ClaimedRowIsFree(c, s, e, s', j);
    }
  }

  lemma LandKeeps(c: Timing, s: Sys, e: Event, s': Sys)
    requires Admitted(c) && Inv(c, s) && Next(c, s, e, s') && e.Land?
    ensures Inv(c, s')
  {
    var own := s.tasks[e.token];
    var op := DoRenew(own.id, own.owner, e.token, e.stamp, c.lease);
    GoodStep(s.w, op, s'.w);
    StepMovesRow(s.w, op, s'.w, own.id);
    forall k | k in s.tasks ensures TaskOk(c, s'.now, s'.w.table, k, s'.tasks[k]) {
      if k != e.token { TaskKept(c, s.now, s.w, op, s'.w, k, s.tasks[k]); }
    }
  }

  /** A step that only moves one task on. */
  lemma TaskMoves(c: Timing, s: Sys, token: Token, task: Task)
    requires Inv(c, s) && token in s.tasks
    requires TaskOk(c, s.now, s.w.table, token, task) && task.id == s.tasks[token].id
    requires Over(c, s.now, s.tasks[token]) ==> Over(c, s.now, task)
    ensures Inv(c, s.(tasks := s.tasks[token := task]))
  {}

  lemma StartKeeps(c: Timing, s: Sys, token: Token, s': Sys)
    requires PromptStart(c)
    requires Inv(c, s) && Next(c, s, Start(token), s')
    ensures Inv(c, s')
  {
    TaskMoves(c, s, token, s.tasks[token].(started := s.now, phase := Running(s.now + c.heartbeat)));
  }

  lemma TickKeeps(c: Timing, s: Sys, token: Token, s': Sys)
    requires Inv(c, s) && Next(c, s, Tick(token), s')
    ensures Inv(c, s')
  {
    TaskMoves(c, s, token, s.tasks[token].(phase := Renewing(s.now, None), call := Some(s.now)));
  }

  lemma ResumeKeeps(c: Timing, s: Sys, token: Token, s': Sys)
    requires Inv(c, s) && Next(c, s, Resume(token), s')
    ensures Inv(c, s')
  {
    TaskMoves(c, s, token, s'.tasks[token]);
  }

  lemma AdvanceKeeps(c: Timing, s: Sys, d: nat, s': Sys)
    requires Inv(c, s) && Next(c, s, Advance(d), s')
    ensures Inv(c, s')
  {
    forall k | k in s.tasks ensures TaskOk(c, s'.now, s'.w.table, k, s.tasks[k]) {
      assert Prompt(c, s.tasks[k], s'.now);
    }
  }

  lemma NextKeeps(c: Timing, s: Sys, e: Event, s': Sys)
    requires Admitted(c) && PromptStart(c)
    requires Inv(c, s) && Next(c, s, e, s')
    ensures Inv(c, s')
  {
    match e
    case Store(op) => StoreKeeps(c, s, op, s');
    case Finish(_, op) => StoreKeeps(c, s, op, s');
    case ClaimBy(_, _, _, _, _) => ClaimKeeps(c, s, e, s');
    case Land(_, _) => LandKeeps(c, s, e, s');
    case Advance(d) => AdvanceKeeps(c, s, d, s');
    case Start(token) => StartKeeps(c, s, token, s');
    case Tick(token) => TickKeeps(c, s, token, s');
    case Resume(token) => ResumeKeeps(c, s, token, s');
    case Stop(token) => TaskMoves(c, s, token, s.tasks[token].(phase := Stopped));
  }

  lemma {:induction false} SafeForever(c: Timing, ss: seq<Sys>, es: seq<Event>, i: nat)
    requires Admitted(c) && PromptStart(c)
    requires IsTimedRun(c, ss, es) && i < |ss|
    ensures Inv(c, ss[i]) && Exclusive(ss[i]) && Covered(ss[i]) && Bounded(c, ss[i])
  {
    if i > 0 {
      SafeForever(c, ss, es, i - 1);
      assert NextAt(c, ss, es, i - 1);
      NextKeeps(c, ss[i - 1], es[i - 1], ss[i]);
    }
    InvGuarantees(c, ss[i]);
  }

  // ---------------------------------------------- the bound cannot be weakened

  const ITEM := Envelope(0, "producer", "kind", "target", "actor", None, None, 0, 2, 0)

  lemma Extend(c: Timing, ss: seq<Sys>, es: seq<Event>, e: Event, s: Sys)
    requires IsTimedRun(c, ss, es) && Next(c, ss[|es|], e, s)
    ensures IsTimedRun(c, ss + [s], es + [e])
  {
    var ss', es' := ss + [s], es + [e];
    forall i | 0 <= i < |es'| ensures NextAt(c, ss', es', i) {
      if i < |es| { assert NextAt(c, ss, es, i); }
    }
  }

  const ROW := NewRow(ITEM)

  function RowA(c: Timing): Row { Granted(ROW, "a", 0, c.lease) }

  function RowB(c: Timing): Row { Granted(RecoverRow(RowA(c), "target", c.lease), "b", 1, c.lease + c.lease) }

  function WorldA(c: Timing): World { World(map[0 := RowA(c)], {0}) }

  function WorldB(c: Timing): World { World(map[0 := RowB(c)], {0, 1}) }

  function LateTask(c: Timing): Task
    requires Admitted(c)
  {
    Task(0, "a", 0, c.lease - Unrenewed(c), Running(c.lease - Unrenewed(c) + c.heartbeat), None)
  }

  /** The first worker claims and starts its handler as late as possible. */
  lemma LateWorker(c: Timing) returns (ss: seq<Sys>, es: seq<Event>)
    requires Admitted(c) && !PromptStart(c)
    ensures IsTimedRun(c, ss, es)
    ensures ss[|es|] == Sys(c.lease - Unrenewed(c), WorldA(c), map[0 := LateTask(c)])
  {
    var begin, waiting := c.lease - Unrenewed(c), Task(0, "a", 0, 0, Waiting, None);
    var s0 := Sys(0, World(map[0 := ROW], {}), map[]);
    var s1 := Sys(0, WorldA(c), map[0 := waiting]);
    var s2 := Sys(begin, WorldA(c), map[0 := waiting]);
    var s3 := Sys(begin, WorldA(c), map[0 := LateTask(c)]);
    var claim := ClaimBy("target", "a", 0, 0, Claimed(0));
    assert Recover(map[0 := ROW], "target", 0) == map[0 := ROW];
    ss, es := [s0], [];
    Extend(c, ss, es, claim, s1);
    ss, es := ss + [s1], es + [claim];
    Extend(c, ss, es, Advance(begin), s2);
    ss, es := ss + [s2], es + [Advance(begin)];
    Extend(c, ss, es, Start(0), s3);
    ss, es := ss + [s3], es + [Start(0)];
  }

  /** When the lease runs out it still runs, within its timeout: in its first
      renewal, unless the timeout comes before that. */
  lemma SlowWorker(c: Timing) returns (ss: seq<Sys>, es: seq<Event>, slow: Task)
    requires Admitted(c) && !PromptStart(c)
    ensures IsTimedRun(c, ss, es)
    ensures slow.id == 0 && slow.owner == "a" && Alive(slow)
    ensures ss[|es|] == Sys(c.lease, WorldA(c), map[0 := slow])
  {
    ss, es := LateWorker(c);
    slow := LateTask(c);
    if c.timeout <= c.heartbeat {
      var s4 := ss[|es|].(now := c.lease);
      Extend(c, ss, es, Advance(c.timeout), s4);
      ss, es := ss + [s4], es + [Advance(c.timeout)];
    } else {
      var beat, rest := slow.started + c.heartbeat, Unrenewed(c) - c.heartbeat;
      var s4 := ss[|es|].(now := beat);
      slow := slow.(phase := Renewing(beat, None), call := Some(beat));
      var s5 := Sys(beat, WorldA(c), map[0 := slow]);
      var s6 := Sys(c.lease, WorldA(c), map[0 := slow]);
      Extend(c, ss, es, Advance(c.heartbeat), s4);
      ss, es := ss + [s4], es + [Advance(c.heartbeat)];
      Extend(c, ss, es, Tick(0), s5);
      ss, es := ss + [s5], es + [Tick(0)];
      Extend(c, ss, es, Advance(rest), s6);
      ss, es := ss + [s6], es + [Advance(rest)];
    }
  }

  /** A second worker then claims and starts the same item at the expiry. */
  lemma LateStartRun(c: Timing)
    requires Admitted(c) && !PromptStart(c)
    ensures exists ss, es :: IsTimedRun(c, ss, es) && !Exclusive(ss[|es|])
  {
    var ss, es, slow := SlowWorker(c);
    var s6, other := ss[|es|], Task(0, "b", c.lease, 0, Waiting, None);
    var s7 := Sys(c.lease, WorldB(c), map[0 := slow, 1 := other]);
    var started := other.(started := c.lease, phase := Running(c.lease + c.heartbeat));
    var s8 := Sys(c.lease, WorldB(c), map[0 := slow, 1 := started]);
    var claim := ClaimBy("target", "b", c.lease, 1, Claimed(0));
    assert Recover(WorldA(c).table, "target", c.lease) == map[0 := RecoverRow(RowA(c), "target", c.lease)];
    assert Next(c, s6, claim, s7);
    Extend(c, ss, es, claim, s7);
    ss, es := ss + [s7], es + [claim];
    Extend(c, ss, es, Start(1), s8);
    ss, es := ss + [s8], es + [Start(1)];
    assert 0 in s8.tasks && 1 in s8.tasks;
  }

  ghost predicate AlwaysExclusive(c: Timing) {
    forall ss, es, i :: IsTimedRun(c, ss, es) && 0 <= i < |ss| ==> Exclusive(ss[i])
  }

  /** Two workers can never run one item at once exactly when every handler starts
      so soon after its claim was stamped that two heartbeats, or its timeout if
      that is shorter, still fit before the lease runs out. */
  lemma ExclusiveExactlyWhenPromptlyStarted(c: Timing)
    requires Admitted(c)
    ensures AlwaysExclusive(c) <==> PromptStart(c)
  {
    if PromptStart(c) {
      forall ss, es, i | IsTimedRun(c, ss, es) && 0 <= i < |ss| ensures Exclusive(ss[i]) {
        SafeForever(c, ss, es, i);
      }
    } else {
      LateStartRun(c);
      var ss, es :| IsTimedRun(c, ss, es) && !Exclusive(ss[|es|]);
    }
  }
}
