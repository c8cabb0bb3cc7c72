/** The durable-work table and the transactions over it. */
module WorkTable {
  // Every transaction is a function from the old table to the new one;
  // `SqliteWorkStore` performs the same transactions in place and is proved against
  // these functions.

  import opened Wrappers

  type WorkId = nat
  type Token = nat

  datatype Status = Pending | Leased | Completed | DeadLetter | Canceled

  datatype FailureCode =
    | HandlerUnavailable | HandlerRejected | Timeout | InvalidPayload
    | AttemptsExhausted | IntegrityViolation | Internal

  /** The columns an enqueue writes and no later transaction touches. */
  datatype Envelope = Envelope(
    id: WorkId, source: string, kind: string, target: string, actor: string,
    correlation: Option<string>, dedupe: Option<string>,
    priority: int, maxAttempts: nat, createdAt: int)

  datatype Lease = Lease(owner: string, token: Token, expiresAt: int)

  /** `intact` says that the stored columns still decode; a transaction of this
      module never clears it, but a damaged file may hold rows without it. */
  datatype Row = Row(
    envelope: Envelope, intact: bool, status: Status, attempts: nat,
    availableAt: int, lease: Option<Lease>, failure: Option<FailureCode>,
    completedAt: Option<int>)

  type Table = map<WorkId, Row>

  predicate Terminal(r: Row) {
    r.status == Completed || r.status == DeadLetter || r.status == Canceled
  }

  predicate Consistent(r: Row) {
    match r.status
    case Pending => r.lease.None? && r.completedAt.None?
    case Leased => r.lease.Some? && r.completedAt.None?
    case Completed => r.lease.None? && r.completedAt.Some?
    case DeadLetter => r.lease.None? && r.completedAt.Some?
    case Canceled => r.lease.None? && r.completedAt.Some?
  }

  predicate Decodes(r: Row) {
    r.intact && r.attempts <= r.envelope.maxAttempts && Consistent(r)
  }

  // ---------------------------------------------------------------- enqueue

  function NewRow(e: Envelope): Row {
    Row(e, true, Pending, 0, e.createdAt, None, None, None)
  }

  predicate SameDedupe(a: Envelope, b: Envelope) {
    a.dedupe.Some? && a.dedupe == b.dedupe && a.source == b.source
  }

  predicate Conflicts(t: Table, e: Envelope) {
    e.id in t || exists k :: k in t && SameDedupe(e, t[k].envelope)
  }

  function Enqueue(t: Table, e: Envelope): Table {
    if Conflicts(t, e) then t else t[e.id := NewRow(e)]
  }

  // --------------------------------------------------------------- recovery

  function Dead(r: Row, code: FailureCode, now: int): Row {
    r.(status := DeadLetter, lease := None, failure := Some(code), completedAt := Some(now))
  }

  function RecoverRow(r: Row, target: string, now: int): Row {
    if r.envelope.target != target || r.status != Leased then r
    else if !Decodes(r) then Dead(r, IntegrityViolation, now)
    else if r.lease.value.expiresAt > now then r
    else if r.attempts >= r.envelope.maxAttempts then Dead(r, AttemptsExhausted, now)
    else r.(status := Pending, lease := None, availableAt := now)
  }

  function Recover(t: Table, target: string, now: int): Table {
    map id | id in t :: RecoverRow(t[id], target, now)
  }

  // ------------------------------------------------------------------ claim

  predicate Candidate(r: Row, target: string, now: int) {
    && r.envelope.target == target
    && r.status == Pending
    && r.availableAt <= now
    && r.attempts < r.envelope.maxAttempts
  }

  /** The claim order: priority falling, then availability, creation and id rising. */
  predicate Before(a: Row, i: WorkId, b: Row, j: WorkId) {
    if a.envelope.priority != b.envelope.priority then a.envelope.priority > b.envelope.priority
    else if a.availableAt != b.availableAt then a.availableAt < b.availableAt
    else if a.envelope.createdAt != b.envelope.createdAt then a.envelope.createdAt < b.envelope.createdAt
    else i <= j
  }

  predicate IsFirst(t: Table, target: string, now: int, id: WorkId) {
    && id in t
    && Candidate(t[id], target, now)
    && forall k :: k in t && Candidate(t[k], target, now) ==> Before(t[id], id, t[k], k)
  }

  function Granted(r: Row, owner: string, token: Token, expiresAt: int): Row {
    r.(status := Leased, attempts := r.attempts + 1, lease := Some(Lease(owner, token, expiresAt)))
  }

  datatype ClaimOutcome = Nothing | Claimed(id: WorkId) | Damaged(id: WorkId)

  /** One row of `d` is picked, if any is claimable, and leased or discarded. */
  ghost predicate IsPick(
    d: Table, target: string, owner: string, now: int, lease: int, token: Token,
    t': Table, outcome: ClaimOutcome)
  {
    match outcome
    case Nothing => t' == d && forall k :: k in d ==> !Candidate(d[k], target, now)
    case Claimed(id) =>
      IsFirst(d, target, now, id) && Decodes(d[id]) && t' == d[id := Granted(d[id], owner, token, now + lease)]
    case Damaged(id) =>
      IsFirst(d, target, now, id) && !Decodes(d[id]) && t' == d[id := Dead(d[id], IntegrityViolation, now)]
  }

  /** A whole claim transaction: recovery, then the pick. */
  ghost predicate IsClaim(
    t: Table, target: string, owner: string, now: int, lease: int, token: Token,
    t': Table, outcome: ClaimOutcome)
  {
    IsPick(Recover(t, target, now), target, owner, now, lease, token, t', outcome)
  }

  // ------------------------------------------------- lease-fenced transitions

  /** The WHERE clause that renew, complete and fail share. */
  predicate Holds(t: Table, id: WorkId, owner: string, token: Token, now: int) {
    && id in t
    && t[id].status == Leased
    && t[id].lease.Some?
    && t[id].lease.value.owner == owner
    && t[id].lease.value.token == token
    && t[id].lease.value.expiresAt > now
  }

  function Renew(t: Table, id: WorkId, owner: string, token: Token, now: int, lease: int): Table {
    if Holds(t, id, owner, token, now)
    then t[id := t[id].(lease := Some(Lease(owner, token, now + lease)))]
    else t
  }

  function Complete(t: Table, id: WorkId, owner: string, token: Token, now: int): Table {
    if Holds(t, id, owner, token, now)
    then t[id := t[id].(status := Completed, lease := None, completedAt := Some(now))]
    else t
  }

  function RetryDelay(attempts: nat): nat {
    var exponent := if attempts == 0 then 0 else attempts - 1;
    if exponent >= 9 then 300 else Pow2(exponent)
  }

  function Pow2(n: nat): nat {
    if n == 0 then 1 else 2 * Pow2(n - 1)
  }

  const NANOS_PER_SECOND := 1_000_000_000

  function Fail(t: Table, id: WorkId, owner: string, token: Token, now: int,
                code: FailureCode, retryable: bool): Table
  {
    if !Holds(t, id, owner, token, now) then t
    else if retryable && t[id].attempts < t[id].envelope.maxAttempts then
      t[id := t[id].(status := Pending, lease := None, failure := Some(code), completedAt := None,
                     availableAt := now + RetryDelay(t[id].attempts) * NANOS_PER_SECOND)]
    else
      t[id := Dead(t[id], code, now).(availableAt := now)]
  }

  // ----------------------------------------------------------------- cancel

  datatype Scope = Scope(source: string, kind: string, actor: string)

  predicate InScope(r: Row, s: Scope, correlation: string) {
    && r.envelope.source == s.source && r.envelope.kind == s.kind
    && r.envelope.actor == s.actor && r.envelope.correlation == Some(correlation)
  }

  /** Exactly one row of the scope matches; two or none leave the table alone. */
  predicate OnlyMatch(t: Table, s: Scope, correlation: string, id: WorkId) {
    id in t && InScope(t[id], s, correlation)
    && forall k :: k in t && InScope(t[k], s, correlation) ==> k == id
  }

  function CancelRow(r: Row, now: int): Row {
    r.(status := Canceled, lease := None, completedAt := Some(now))
  }

  function Cancel(t: Table, s: Scope, correlation: string, now: int): Table {
    map id | id in t ::
      if OnlyMatch(t, s, correlation, id) && Decodes(t[id]) && !Terminal(t[id])
      then CancelRow(t[id], now) else t[id]
  }

  // --------------------------------------------------- existence of the first

  lemma {:induction false} FirstAmong(t: Table, ids: set<WorkId>) returns (id: WorkId)
    requires ids != {} && ids <= t.Keys
    ensures id in ids && forall k :: k in ids ==> Before(t[id], id, t[k], k)
  {
    var x :| x in ids;
    if ids == {x} {
      id := x;
    } else {
      var y := FirstAmong(t, ids - {x});
      id := if Before(t[x], x, t[y], y) then x else y;
      forall k | k in ids ensures Before(t[id], id, t[k], k) {
        if k != x { assert k in ids - {x}; }
      }
    }
  }

  /** Whenever anything is claimable the claim order names exactly one row. */
  lemma FirstExistsAndIsUnique(t: Table, target: string, now: int)
    ensures (exists k :: k in t && Candidate(t[k], target, now)) <==> (exists id :: IsFirst(t, target, now, id))
    ensures forall i, j :: IsFirst(t, target, now, i) && IsFirst(t, target, now, j) ==> i == j
  {
    var c := set k | k in t && Candidate(t[k], target, now);
    assert forall k :: k in t && Candidate(t[k], target, now) <==> k in c;
    if c != {} {
      var id := FirstAmong(t, c);
      assert IsFirst(t, target, now, id);
    }
  }
}
