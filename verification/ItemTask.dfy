/** A worker's limits, its handler registry, and what it does with one claimed item. */
module ItemTask {
  import opened Wrappers
  import opened Sequences
  import opened WorkTable
  import WorkStore
  import LeaseTiming

  // ------------------------------------------------------------------- limits

  const MILLI := 1_000_000
  const MAX_CONCURRENCY := 32

  datatype ConfigError =
    | InvalidHandlerKey | DuplicateHandler | InvalidConcurrency | InvalidPollInterval
    | InvalidLeaseDuration | InvalidHeartbeatInterval | InvalidHandlerTimeout | InvalidShutdownDrain

  /** Durations are in nanoseconds. */
  datatype Limits = Limits(
    concurrency: nat, poll: nat, lease: nat, heartbeat: nat, handlerTimeout: nat, shutdownDrain: nat)

  function NewLimits(l: Limits): Result<Limits, ConfigError> {
    if !(1 <= l.concurrency <= MAX_CONCURRENCY) then Err(InvalidConcurrency)
    else if !(100 * MILLI <= l.poll <= 60_000 * MILLI) then Err(InvalidPollInterval)
    else if !(1_000 * MILLI <= l.lease <= 300_000 * MILLI) then Err(InvalidLeaseDuration)
    else if l.heartbeat < 100 * MILLI || 2 * l.heartbeat >= l.lease then Err(InvalidHeartbeatInterval)
    else if !(1_000 * MILLI <= l.handlerTimeout <= 3_600_000 * MILLI) then Err(InvalidHandlerTimeout)
    else if !(1_000 * MILLI <= l.shutdownDrain <= 300_000 * MILLI) then Err(InvalidShutdownDrain)
    else Ok(l)
  }

  /** Accepted limits always leave a window in which a claimed item can be started
      and no second handler can ever run beside it; no larger window does. */
  lemma AcceptedLimitsLeaveAStartWindow(l: Limits, delay: nat)
    requires NewLimits(l).Ok?
    ensures var fit := LeaseTiming.Min(2 * l.heartbeat, l.handlerTimeout);
      && l.lease - fit - 1 >= 0
      && (LeaseTiming.AlwaysExclusive(LeaseTiming.Timing(l.lease, l.heartbeat, l.handlerTimeout, delay))
          <==> delay <= l.lease - fit - 1)
  {
    LeaseTiming.ExclusiveExactlyWhenPromptlyStarted(
      LeaseTiming.Timing(l.lease, l.heartbeat, l.handlerTimeout, delay));
  }

  /** The store refuses every claim of a worker whose accepted lease is not a whole
      number of seconds, and only of such a worker. */
  lemma AcceptedLeaseIsClaimableIffWholeSeconds(l: Limits)
    requires NewLimits(l).Ok?
    ensures WorkStore.ValidLeaseDuration(l.lease) <==> l.lease % NANOS_PER_SECOND == 0
    ensures NewLimits(l.(lease := 1_500 * MILLI, heartbeat := 100 * MILLI)).Ok?
    ensures !WorkStore.ValidLeaseDuration(1_500 * MILLI)
  {}

  /** The limits in force, in milliseconds; 1 ms is 1,000,000 ns. */
  lemma LimitsSay(l: Limits)
    ensures NewLimits(l).Ok? <==>
      && 1 <= l.concurrency <= 32
      && 100 * 1_000_000 <= l.poll <= 60_000 * 1_000_000
      && 1_000 * 1_000_000 <= l.lease <= 300_000 * 1_000_000
      && 100 * 1_000_000 <= l.heartbeat && l.heartbeat + l.heartbeat < l.lease
      && 1_000 * 1_000_000 <= l.handlerTimeout <= 3_600_000 * 1_000_000
      && 1_000 * 1_000_000 <= l.shutdownDrain <= 300_000 * 1_000_000
    ensures NewLimits(l).Ok? ==> NewLimits(l).value == l
  {}

  // ----------------------------------------------------------------- registry

  type Key = (string, string)

  /** The Unicode White_Space characters. */
  predicate IsSpace(c: char) {
    var n := c as int;
    || 0x09 <= n <= 0x0D || n == 0x20 || n == 0x85 || n == 0xA0 || n == 0x1680 || 0x2000 <= n <= 0x200A
    || n == 0x2028 || n == 0x2029 || n == 0x202F || n == 0x205F || n == 0x3000
  }

  predicate ValidKey(value: string) {
    && 0 < |value| <= WorkStore.MAX_ROUTING_BYTES
    && forall i :: 0 <= i < |value| ==> !IsSpace(value[i])
  }

  predicate ValidPair(k: Key) {
    ValidKey(k.0) && ValidKey(k.1)
  }

  predicate Registrable(keys: seq<Key>, n: nat)
    requires n <= |keys|
  {
    && (forall i :: 0 <= i < n ==> ValidPair(keys[i]))
    && (forall i, j :: 0 <= i < j < n ==> keys[i] != keys[j])
  }

  predicate RefusedAt(keys: seq<Key>, n: nat, e: ConfigError)
    requires n < |keys|
  {
    if ValidPair(keys[n]) then e == DuplicateHandler && keys[n] in keys[..n] else e == InvalidHandlerKey
  }

  /** The registry exists exactly when every key is valid and none repeats, and
      then resolves each key to the handler that brought it; otherwise the error
      is that of the first handler that cannot be added. */
  method FromHandlers(keys: seq<Key>) returns (r: Result<map<Key, nat>, ConfigError>)
    ensures r.Ok? <==> Registrable(keys, |keys|)
    ensures r.Ok? ==> forall i :: 0 <= i < |keys| ==> keys[i] in r.value && r.value[keys[i]] == i
    ensures r.Ok? ==> forall k :: k in r.value ==> k in keys
    ensures r.Err? ==> exists n :: 0 <= n < |keys| && Registrable(keys, n) && RefusedAt(keys, n, r.error)
  {
    var registry: map<Key, nat> := map[];
    for n := 0 to |keys|
      invariant Registrable(keys, n)
      invariant forall i :: 0 <= i < n ==> keys[i] in registry && registry[keys[i]] == i
      invariant forall k :: k in registry ==> registry[k] < n && keys[registry[k]] == k
    {
      if !ValidKey(keys[n].0) || !ValidKey(keys[n].1) {
        assert RefusedAt(keys, n, InvalidHandlerKey);
        return Err(InvalidHandlerKey);
      }
      if keys[n] in registry {
        assert keys[..n][registry[keys[n]]] == keys[n];
        assert RefusedAt(keys, n, DuplicateHandler);
        return Err(DuplicateHandler);
      }
      registry := registry[keys[n] := n];
    }
    r := Ok(registry);
  }

  /** A key is two texts of 1 to 128 units, free of the 25 white-space characters. */
  lemma KeysSay(k: Key)
    ensures ValidPair(k) <==> forall s :: s in [k.0, k.1] ==> 1 <= |s| <= 128 && forall c :: c in s ==> c !in SPACES
  {
    assert forall s: string, i: nat :: i < |s| ==> s[i] in s;
    assert forall c :: IsSpace(c) <==> c in SPACES;
    assert k.0 in [k.0, k.1] && k.1 in [k.0, k.1];
  }

  const SPACES := "\t\n\U{B}\U{C}\r \U{85}\U{A0}\U{1680}\U{2000}\U{2001}\U{2002}\U{2003}\U{2004}\U{2005}\U{2006}"
    + "\U{2007}\U{2008}\U{2009}\U{200A}\U{2028}\U{2029}\U{202F}\U{205F}\U{3000}"

  /** A list can be registered exactly when its keys are valid and as many as the list is
      long; the error tells which of the two fails first. */
  lemma RegistrySays(keys: seq<Key>, n: nat)
    requires n < |keys| && Registrable(keys, n)
    ensures RefusedAt(keys, n, InvalidHandlerKey) <==> !ValidPair(keys[n])
    ensures RefusedAt(keys, n, DuplicateHandler) <==>
      ValidPair(keys[n]) && exists m :: 0 <= m < n && keys[m] == keys[n]
    ensures Registrable(keys, n + 1) <==> forall f :: !RefusedAt(keys, n, f)
  {
    assert keys[n] in keys[..n] <==> exists m :: 0 <= m < n && keys[m] == keys[n];
  }

  // --------------------------------------------------------------- processing

  datatype Rejection = Unavailable | BadPayload | NotAuthorized | GatePanicked

  function CodeOf(r: Rejection): FailureCode {
    match r
    case Unavailable => HandlerUnavailable
    case BadPayload => InvalidPayload
    case NotAuthorized => HandlerRejected
    case GatePanicked => Internal
  }

  datatype HandlerOutcome = Finished | WantsRetry(code: FailureCode) | GaveUp(code: FailureCode)

  datatype RenewalEnd = Renewed | Refused | HitDeadline | BudgetSpent

  /** What the worker's `select!` may see next. */
  datatype Signal =
    | HandlerDone(outcome: HandlerOutcome)
    | HandlerPanicked
    | DeadlineFired
    | Heartbeat(renewal: RenewalEnd)

  datatype Action =
    | Spawn
    | RenewLease(token: Token)
    | Joined                          // the handler task returned or panicked by itself
    | AbortAndWait
    | WriteComplete(token: Token)
    | WriteFail(token: Token, code: FailureCode, retryable: bool)

  datatype End = StillRunning | Abandoned | Ended(outcome: HandlerOutcome)

  function Write(token: Token, o: HandlerOutcome): Action {
    match o
    case Finished => WriteComplete(token)
    case WantsRetry(code) => WriteFail(token, code, true)
    case GaveUp(code) => WriteFail(token, code, false)
  }

  /** The loop over signals: renew on each heartbeat until something ends it. */
  function Loop(token: Token, signals: seq<Signal>): (seq<Action>, End) {
    if signals == [] then ([], StillRunning) else
    match signals[0]
    case HandlerDone(outcome) => ([Joined], Ended(outcome))
    case HandlerPanicked => ([Joined], Ended(WantsRetry(Internal)))
    case DeadlineFired => ([AbortAndWait], Ended(WantsRetry(Timeout)))
    case Heartbeat(renewal) =>
      if renewal == Renewed then
        var (rest, end) := Loop(token, signals[1..]);
        ([RenewLease(token)] + rest, end)
      else ([RenewLease(token), AbortAndWait], Abandoned)
  }

  /** Everything done for one claimed item. */
  function Process(token: Option<Token>, gate: Option<Rejection>, signals: seq<Signal>): seq<Action> {
    match token
    case None => []
    case Some(t) =>
      if gate.Some? then [WriteFail(t, CodeOf(gate.value), gate.value == GatePanicked)]
      else
        var (actions, end) := Loop(t, signals);
        [Spawn] + actions + if end.Ended? then [Write(t, end.outcome)] else []
  }

  /** The imperative form, with the loop the worker runs. */
  method ProcessItem(token: Option<Token>, gate: Option<Rejection>, signals: seq<Signal>)
    returns (log: seq<Action>)
    ensures log == Process(token, gate, signals)
    ensures token.Some? && gate.None? ==> RecordedRightly(token.value, signals, log)
    ensures token.Some? && gate.Some? ==> RefusedRightly(token.value, gate.value, log)
  {
    if token.Some? && gate.None? { RecordsRightly(token.value, signals); }
    if token.Some? && gate.Some? { RefusesRightly(token.value, gate.value); }
    log := [];
    if token.None? { return; }
    var t := token.value;
    if gate.Some? {
      log := log + [WriteFail(t, CodeOf(gate.value), gate.value == GatePanicked)];
      return;
    }
    log := log + [Spawn];
    var i, end := 0, StillRunning;
    while i < |signals| && end == StillRunning
      invariant i <= |signals|
      invariant end == StillRunning ==>
        [Spawn] + Loop(t, signals).0 == log + Loop(t, signals[i..]).0 && Loop(t, signals).1 == Loop(t, signals[i..]).1
      invariant end != StillRunning ==> [Spawn] + Loop(t, signals).0 == log && Loop(t, signals).1 == end
    {
      match signals[i] {
        case HandlerDone(outcome) =>
          log, end := log + [Joined], Ended(outcome);
        case HandlerPanicked =>
          log, end := log + [Joined], Ended(WantsRetry(Internal));
        case DeadlineFired =>
          log, end := log + [AbortAndWait], Ended(WantsRetry(Timeout));
        case Heartbeat(renewal) =>
          log := log + [RenewLease(t)];
          if renewal != Renewed {
            log, end := log + [AbortAndWait], Abandoned;
          }
      }
      assert signals[i..][1..] == signals[i + 1..];
      i := i + 1;
    }
    match end {
      case Ended(Finished) => log := log + [WriteComplete(t)];
      case Ended(WantsRetry(code)) => log := log + [WriteFail(t, code, true)];
      case Ended(GaveUp(code)) => log := log + [WriteFail(t, code, false)];
      case StillRunning =>
      case Abandoned =>
    }
  }

  // ------------------------------------------------------- which write it makes

  /** The first signal that is not a successful heartbeat. */
  function Decisive(signals: seq<Signal>): Option<Signal> {
    if signals == [] then None
    else if signals[0] == Heartbeat(Renewed) then Decisive(signals[1..])
    else Some(signals[0])
  }

  predicate EndsIn(log: seq<Action>, a: Action) {
    log != [] && log[|log| - 1] == a
  }

  /** The item is recorded completed exactly when its handler finished; failed for good
      exactly when the handler gave up, with its code; and failed for now exactly when
      the handler asks for that, panicked, or was too late, with the code for each. */
  ghost predicate RecordedRightly(t: Token, signals: seq<Signal>, log: seq<Action>) {
    && (EndsIn(log, WriteComplete(t)) <==> Decisive(signals) == Some(HandlerDone(Finished)))
    && (forall code :: EndsIn(log, WriteFail(t, code, false)) <==> Decisive(signals) == Some(HandlerDone(GaveUp(code))))
    && forall code ::
         (EndsIn(log, WriteFail(t, code, true)) <==>
            || Decisive(signals) == Some(HandlerDone(WantsRetry(code)))
            || (code == Internal && Decisive(signals) == Some(HandlerPanicked))
            || (code == Timeout && Decisive(signals) == Some(DeadlineFired)))
  }

  /** An item that the gate refuses is failed at once, for good unless the gate itself
      panicked, and with the code for the reason. */
  predicate RefusedRightly(t: Token, gate: Rejection, log: seq<Action>) {
    log == [
      match gate
      case Unavailable => WriteFail(t, HandlerUnavailable, false)
      case BadPayload => WriteFail(t, InvalidPayload, false)
      case NotAuthorized => WriteFail(t, HandlerRejected, false)
      case GatePanicked => WriteFail(t, Internal, true)]
  }

  lemma RefusesRightly(t: Token, gate: Rejection)
    ensures forall signals :: RefusedRightly(t, gate, Process(Some(t), Some(gate), signals))
  {}

  function Renewals(t: Token, n: nat): (rs: seq<Action>)
    ensures |rs| == n && forall i :: 0 <= i < n ==> rs[i] == RenewLease(t)
  {
    if n == 0 then [] else [RenewLease(t)] + Renewals(t, n - 1)
  }

  /** What the decisive signal calls for; a handler that is still running is aborted
      first, and one that ended is not. */
  function CalledFor(t: Token, decisive: Option<Signal>): seq<Action> {
    match decisive
    case None => []
    case Some(HandlerDone(Finished)) => [Joined, WriteComplete(t)]
    case Some(HandlerDone(WantsRetry(code))) => [Joined, WriteFail(t, code, true)]
    case Some(HandlerDone(GaveUp(code))) => [Joined, WriteFail(t, code, false)]
    case Some(HandlerPanicked) => [Joined, WriteFail(t, Internal, true)]
    case Some(DeadlineFired) => [AbortAndWait, WriteFail(t, Timeout, true)]
    case Some(Heartbeat(_)) => [RenewLease(t), AbortAndWait]
  }

  lemma {:induction false} LoopAfterRenewals(t: Token, signals: seq<Signal>, n: nat)
    requires n <= |signals| && forall i :: 0 <= i < n ==> signals[i] == Heartbeat(Renewed)
    ensures Loop(t, signals).0 == Renewals(t, n) + Loop(t, signals[n..]).0
    ensures Loop(t, signals).1 == Loop(t, signals[n..]).1 && Decisive(signals) == Decisive(signals[n..])
    decreases n
  {
    if n > 0 {
      LoopAfterRenewals(t, signals[1..], n - 1);
      assert signals[1..][n - 1..] == signals[n..];
      Regroup([RenewLease(t)], Renewals(t, n - 1), Loop(t, signals[n..]).0);
    } else {
      assert signals[0..] == signals;
    }
  }

  /** A signal that is not a successful heartbeat, and what follows from it. */
  lemma DecidedBy(t: Token, signals: seq<Signal>)
    requires signals == [] || signals[0] != Heartbeat(Renewed)
    ensures Decisive(signals) == if signals == [] then None else Some(signals[0])
    ensures var (actions, end) := Loop(t, signals);
      CalledFor(t, Decisive(signals)) == actions + if end.Ended? then [Write(t, end.outcome)] else []
  {}

  /** An admitted item: the handler is spawned, its lease renewed at each of the `n`
      heartbeats that succeed, and then done what the next signal calls for. */
  lemma LogIs(t: Token, signals: seq<Signal>, n: nat)
    requires n <= |signals| && forall i :: 0 <= i < n ==> signals[i] == Heartbeat(Renewed)
    requires n < |signals| ==> signals[n] != Heartbeat(Renewed)
    ensures Decisive(signals) == if n < |signals| then Some(signals[n]) else None
    ensures Process(Some(t), None, signals) == [Spawn] + Renewals(t, n) + CalledFor(t, Decisive(signals))
  {
    LoopAfterRenewals(t, signals, n);
    DecidedBy(t, signals[n..]);
    var (actions, end) := Loop(t, signals[n..]);
    var write := if end.Ended? then [Write(t, end.outcome)] else [];
    Regroup([Spawn], Renewals(t, n), actions);
    Regroup([Spawn] + Renewals(t, n), actions, write);
  }

  /** How many heartbeats succeed before anything else is heard. */
  function Leading(signals: seq<Signal>): (n: nat)
    ensures n <= |signals| && (forall i :: 0 <= i < n ==> signals[i] == Heartbeat(Renewed))
    ensures n < |signals| ==> signals[n] != Heartbeat(Renewed)
  {
    if signals == [] || signals[0] != Heartbeat(Renewed) then 0 else 1 + Leading(signals[1..])
  }

  lemma RecordsRightly(t: Token, signals: seq<Signal>)
    ensures RecordedRightly(t, signals, Process(Some(t), None, signals))
  {
    var n, log := Leading(signals), Process(Some(t), None, signals);
    LogIs(t, signals, n);
    var last := CalledFor(t, Decisive(signals));
    if last == [] {
      assert log[|log| - 1] == if n == 0 then Spawn else RenewLease(t);
    } else {
      assert log[|log| - 1] == last[|last| - 1];
    }
  }

  // --------------------------------------------------------------- guarantees

  predicate IsWrite(a: Action) {
    a.WriteComplete? || a.WriteFail?
  }

  predicate IsStop(a: Action) {
    a.Joined? || a.AbortAndWait?
  }

  predicate UsesOnly(a: Action, token: Token) {
    match a
    case RenewLease(t) => t == token
    case WriteComplete(t) => t == token
    case WriteFail(t, _, _) => t == token
    case _ => true
  }

  /** The handler is running after these actions. */
  predicate HandlerRuns(log: seq<Action>) {
    Spawn in log && forall i :: 0 <= i < |log| ==> !IsStop(log[i])
  }

  lemma {:induction false} LoopShape(token: Token, signals: seq<Signal>)
    ensures var (log, end) := Loop(token, signals);
      && (forall i :: 0 <= i < |log| ==> UsesOnly(log[i], token) && !IsWrite(log[i]) && log[i] != Spawn)
      && (forall i :: 0 <= i < |log| && IsStop(log[i]) ==> i == |log| - 1)
      && (end == StillRunning ==> forall i :: 0 <= i < |log| ==> !IsStop(log[i]))
      && (end != StillRunning ==> log != [] && IsStop(log[|log| - 1]))
  {
    if signals != [] && signals[0] == Heartbeat(Renewed) {
      LoopShape(token, signals[1..]);
      var (rest, end) := Loop(token, signals[1..]);
      var log := [RenewLease(token)] + rest;
      assert Loop(token, signals) == (log, end);
      assert forall i :: 0 < i < |log| ==> log[i] == rest[i - 1];
    }
  }

  /** Every store call carries the claim's own token; a terminal write is the last
      thing done and is done once; when it is made no handler is running. */
  lemma AtMostOneWriteAfterTheHandler(token: Option<Token>, gate: Option<Rejection>, signals: seq<Signal>)
    ensures var log := Process(token, gate, signals);
      && (token.None? ==> log == [])
      && (token.Some? ==> forall i :: 0 <= i < |log| ==> UsesOnly(log[i], token.value))
      && (forall i :: 0 <= i < |log| && IsWrite(log[i]) ==> i == |log| - 1 && !HandlerRuns(log[..i]))
  {
    if token.Some? && gate.None? {
      LoopShape(token.value, signals);
      var (actions, end) := Loop(token.value, signals);
      var log := Process(token, gate, signals);
      assert forall i :: 0 < i <= |actions| ==> log[i] == actions[i - 1];
      forall i | 0 <= i < |log| && IsWrite(log[i]) ensures i == |log| - 1 && !HandlerRuns(log[..i]) {
        assert i == |actions| + 1;
        assert log[..i][|actions|] == actions[|actions| - 1];
      }
    }
  }

  predicate HasWrite(log: seq<Action>) {
    exists i :: 0 <= i < |log| && IsWrite(log[i])
  }

  /** An admitted item gets its terminal write exactly when its handler ended or
      met the deadline outside a renewal; a failed, late or deadline-struck
      renewal leaves the item to lease recovery. */
  lemma {:induction false} WriteExactlyWhenNotAbandoned(token: Token, signals: seq<Signal>)
    ensures HasWrite(Process(Some(token), None, signals)) <==>
      (Decisive(signals).Some? && !Decisive(signals).value.Heartbeat?)
  {
    EndIsDecided(token, signals);
    LoopShape(token, signals);
    var (actions, end) := Loop(token, signals);
    var log := Process(Some(token), None, signals);
    assert forall i :: 0 < i <= |actions| ==> log[i] == actions[i - 1];
    if end.Ended? { assert IsWrite(log[|actions| + 1]); }
  }

  lemma {:induction false} EndIsDecided(token: Token, signals: seq<Signal>)
    ensures Loop(token, signals).1.Ended? <==> (Decisive(signals).Some? && !Decisive(signals).value.Heartbeat?)
  {
    if signals != [] && signals[0] == Heartbeat(Renewed) { EndIsDecided(token, signals[1..]); }
  }
}
