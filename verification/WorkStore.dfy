/** The store itself: one table, updated in place inside transactions. */
module WorkStore {
  import opened Wrappers
  import opened WorkTable

  const MAX_ROUTING_BYTES := 128
  const MAX_CORRELATION_BYTES := 256
  const MIN_LEASE_SECONDS := 1
  const MAX_LEASE_SECONDS := 300

  datatype WorkError =
    | InvalidTarget | InvalidLeaseOwner | InvalidLeaseDuration | InvalidCorrelation
    | StorageUnavailable | StoredDataInvalid | StaleLease

  /** Where, if anywhere, a claim notices that it was cancelled. */
  datatype CancelPoint = NotCancelled | BeforeStart | InConnection | AtCommit

  predicate ValidRouting(value: string) {
    0 < |value| <= MAX_ROUTING_BYTES
  }

  /** Whole seconds only: a lease with a sub-second part is refused. */
  predicate ValidLeaseDuration(lease: int) {
    && lease % NANOS_PER_SECOND == 0
    && MIN_LEASE_SECONDS <= lease / NANOS_PER_SECOND <= MAX_LEASE_SECONDS
  }

  /** The items of the same source with the same dedupe key: at most one in any run. */
  function Namesakes(t: Table, e: Envelope): set<WorkId> {
    set k | k in t && SameDedupe(e, t[k].envelope)
  }

  /** The leased rows that came to have another status. */
  ghost function Turned(t: Table, t': Table, status: Status): set<WorkId> {
    set id | id in t && id in t' && t[id].status == Leased && t'[id].status == status
  }

  /** The pass is done but for the rows in `pending`. */
  ghost predicate Recovering(before: Table, t: Table, pending: set<WorkId>, target: string, now: int) {
    && t.Keys == before.Keys && pending <= before.Keys
    && (forall id :: id in pending ==> before[id].status == Leased && before[id].envelope.target == target)
    && forall id :: id in before ==> t[id] == if id in pending then before[id] else RecoverRow(before[id], target, now)
  }

  datatype CancelOutcome =
    | NotFound
    | Canceled(id: WorkId)
    | AlreadyCanceled(id: WorkId)
    | NotCancelable(id: WorkId)

  predicate ValidCorrelation(value: string) {
    0 < |value| <= MAX_CORRELATION_BYTES
  }

  /** The answer for the only row in scope. */
  function CancelAnswer(r: Row, id: WorkId): Result<CancelOutcome, WorkError> {
    if !Decodes(r) then Err(StorageUnavailable)
    else if !Terminal(r) then Ok(CancelOutcome.Canceled(id))
    else if r.status.Canceled? then Ok(AlreadyCanceled(id))
    else Ok(NotCancelable(id))
  }

  ghost predicate CancelAnswers(t: Table, s: Scope, correlation: string, r: Result<CancelOutcome, WorkError>) {
    if exists id :: OnlyMatch(t, s, correlation, id)
    then exists id :: OnlyMatch(t, s, correlation, id) && r == CancelAnswer(t[id], id)
    else r == if exists id :: id in t && InScope(t[id], s, correlation) then Err(StorageUnavailable) else Ok(NotFound)
  }

  /** What a claim answers for each outcome of its transaction. */
  ghost predicate Answers(outcome: ClaimOutcome, r: Result<Option<WorkId>, WorkError>) {
    match outcome
    case Nothing => r == Ok(None)
    case Claimed(id) => r == Ok(Some(id))
    case Damaged(_) => r == Err(StoredDataInvalid)
  }

  class SqliteWorkStore {
    var rows: Table

    constructor ()
      ensures rows == map[]
    {
      rows := map[];
    }

    /** `INSERT OR IGNORE`, then read back what the caller gets. */
    method EnqueueWork(e: Envelope, fault: bool) returns (r: Result<(WorkId, bool), WorkError>)
      modifies this
      ensures fault ==> rows == old(rows) && r == Err(StorageUnavailable)
      ensures !fault ==> rows == Enqueue(old(rows), e)
      ensures !fault && !Conflicts(old(rows), e) ==> r == Ok((e.id, true))
      ensures !fault && Conflicts(old(rows), e) ==>
        if Namesakes(rows, e) == {} then r == Err(StorageUnavailable)
        else exists k :: k in Namesakes(rows, e)
               && r == if Decodes(rows[k]) then Ok((k, false)) else Err(StoredDataInvalid)
    {
      if fault { return Err(StorageUnavailable); }
      if !Conflicts(rows, e) {
        rows := rows[e.id := NewRow(e)];
        return Ok((e.id, true));
      }
      var same := Namesakes(rows, e);
      if same == {} { return Err(StorageUnavailable); }
      var k :| k in same;
      r := if Decodes(rows[k]) then Ok((k, false)) else Err(StoredDataInvalid);
    }

    /** One leased row of a recovery pass. */
    method RecoverOne(id: WorkId, target: string, now: int)
      requires id in rows && rows[id].status == Leased && rows[id].envelope.target == target
      modifies this
      ensures rows == old(rows)[id := RecoverRow(old(rows)[id], target, now)]
    {
      var r := rows[id];
      if !Decodes(r) {
        rows := rows[id := Dead(r, IntegrityViolation, now)];
      } else if r.lease.value.expiresAt > now {
      } else if r.attempts >= r.envelope.maxAttempts {
        rows := rows[id := Dead(r, AttemptsExhausted, now)];
      } else {
        rows := rows[id := r.(status := Pending, lease := None, availableAt := now)];
      }
    }

    /** One pass over the leased rows of a target, counting what it requeues and
        what it gives up. */
    method RecoverInPlace(target: string, now: int) returns (requeued: nat, dead: nat)
      modifies this
      ensures rows == Recover(old(rows), target, now)
      ensures requeued == |Turned(old(rows), rows, Pending)| && dead == |Turned(old(rows), rows, DeadLetter)|
    {
      ghost var before := rows;
      requeued, dead := 0, 0;
      var pending := set id | id in rows && rows[id].envelope.target == target && rows[id].status == Leased;
      assert Turned(before, rows, Pending) == {} && Turned(before, rows, DeadLetter) == {};
      while pending != {}
        invariant Recovering(before, rows, pending, target, now)
        invariant requeued == |Turned(before, rows, Pending)| && dead == |Turned(before, rows, DeadLetter)|
        decreases pending
      {
        var id :| id in pending;
        RecoveringStep(before, rows, pending, id, target, now);
        TurnedOneMore(before, rows, id, RecoverRow(rows[id], target, now), Pending);
        TurnedOneMore(before, rows, id, RecoverRow(rows[id], target, now), DeadLetter);
        RecoverOne(id, target, now);
        if rows[id].status == Pending { requeued := requeued + 1; }
        if rows[id].status == DeadLetter { dead := dead + 1; }
        pending := pending - {id};
      }
      assert rows == Recover(before, target, now);
    }

    method RecoverExpired(target: string, now: int, fault: bool) returns (r: Result<(nat, nat), WorkError>)
      modifies this
      ensures !ValidRouting(target) ==> rows == old(rows) && r == Err(InvalidTarget)
      ensures ValidRouting(target) && fault ==> rows == old(rows) && r == Err(StorageUnavailable)
      ensures ValidRouting(target) && !fault ==>
        && rows == Recover(old(rows), target, now)
        && r == Ok((|Turned(old(rows), rows, Pending)|, |Turned(old(rows), rows, DeadLetter)|))
    {
      if !ValidRouting(target) { return Err(InvalidTarget); }
      if fault { return Err(StorageUnavailable); }
      var requeued, dead := RecoverInPlace(target, now);
      r := Ok((requeued, dead));
    }

    /** Recover, pick the first candidate, lease it; all or nothing. */
    method ClaimNextCancellable(
      target: string, owner: string, now: int, lease: int, token: Token, cancel: CancelPoint, fault: bool)
      returns (r: Result<Option<WorkId>, WorkError>)
      modifies this
      ensures cancel == BeforeStart ==> rows == old(rows) && r == Ok(None)
      ensures cancel != BeforeStart && !ValidRouting(target) ==> rows == old(rows) && r == Err(InvalidTarget)
      ensures cancel != BeforeStart && ValidRouting(target) && !ValidRouting(owner) ==>
        rows == old(rows) && r == Err(InvalidLeaseOwner)
      ensures cancel != BeforeStart && ValidRouting(target) && ValidRouting(owner) && !ValidLeaseDuration(lease) ==>
        rows == old(rows) && r == Err(InvalidLeaseDuration)
      ensures cancel != BeforeStart && ValidRouting(target) && ValidRouting(owner) && ValidLeaseDuration(lease) ==>
        if fault then rows == old(rows) && r == Err(StorageUnavailable)
        else if cancel != NotCancelled then rows == old(rows) && r == Ok(None)
        else exists o :: IsClaim(old(rows), target, owner, now, lease, token, rows, o) && Answers(o, r)
      ensures r == Ok(None) && cancel == NotCancelled ==> rows == Recover(old(rows), target, now)
      ensures r.Ok? && r.value.Some? ==>
        && r.value.value in rows && rows[r.value.value].status == Leased
        && rows[r.value.value].lease == Some(Lease(owner, token, now + lease))
    {
      if cancel == BeforeStart { return Ok(None); }
      if !ValidRouting(target) { return Err(InvalidTarget); }
      if !ValidRouting(owner) { return Err(InvalidLeaseOwner); }
      if !ValidLeaseDuration(lease) { return Err(InvalidLeaseDuration); }
      if fault { return Err(StorageUnavailable); }
      if cancel == InConnection { return Ok(None); }
      var snapshot := rows;
      var _, _ := RecoverInPlace(target, now);
      ghost var outcome;
      r, outcome := LeaseFirst(target, owner, now, lease, token);
      assert IsClaim(old(rows), target, owner, now, lease, token, rows, outcome);
      if cancel == AtCommit {
        rows := snapshot;
        r := Ok(None);
      }
    }

    /** The pick of a claim, on a table that was just recovered. */
    method LeaseFirst(target: string, owner: string, now: int, lease: int, token: Token)
      returns (r: Result<Option<WorkId>, WorkError>, ghost outcome: ClaimOutcome)
      modifies this
      ensures IsPick(old(rows), target, owner, now, lease, token, rows, outcome) && Answers(outcome, r)
      ensures r == Ok(None) ==> rows == old(rows)
      ensures r.Ok? && r.value.Some? ==>
        && r.value.value in rows && rows[r.value.value].status == Leased
        && rows[r.value.value].lease == Some(Lease(owner, token, now + lease))
    {
      var candidates := set k | k in rows && Candidate(rows[k], target, now);
      assert forall k :: k in rows && Candidate(rows[k], target, now) <==> k in candidates;
      if candidates == {} { return Ok(None), Nothing; }
      ghost var first := FirstAmong(rows, candidates);
      var id :| id in candidates && forall k :: k in candidates ==> Before(rows[id], id, rows[k], k);
      assert IsFirst(rows, target, now, id);
      if Decodes(rows[id]) {
        rows := rows[id := Granted(rows[id], owner, token, now + lease)];
        return Ok(Some(id)), Claimed(id);
      }
      rows := rows[id := Dead(rows[id], IntegrityViolation, now)];
      return Err(StoredDataInvalid), Damaged(id);
    }

    method RenewLease(id: WorkId, owner: string, token: Token, now: int, lease: int, fault: bool)
      returns (r: Result<int, WorkError>)
      modifies this
      ensures !ValidRouting(owner) ==> rows == old(rows) && r == Err(InvalidLeaseOwner)
      ensures ValidRouting(owner) && !ValidLeaseDuration(lease) ==> rows == old(rows) && r == Err(InvalidLeaseDuration)
      ensures ValidRouting(owner) && ValidLeaseDuration(lease) && fault ==>
        rows == old(rows) && r == Err(StorageUnavailable)
      ensures ValidRouting(owner) && ValidLeaseDuration(lease) && !fault ==>
        && rows == Renew(old(rows), id, owner, token, now, lease)
        && r == (if Holds(old(rows), id, owner, token, now) then Ok(now + lease) else Err(StaleLease))
    {
      if !ValidRouting(owner) { return Err(InvalidLeaseOwner); }
      if !ValidLeaseDuration(lease) { return Err(InvalidLeaseDuration); }
      if fault { return Err(StorageUnavailable); }
      if !Holds(rows, id, owner, token, now) { return Err(StaleLease); }
      rows := rows[id := rows[id].(lease := Some(Lease(owner, token, now + lease)))];
      r := Ok(now + lease);
    }

    method CompleteWork(id: WorkId, owner: string, token: Token, now: int, fault: bool)
      returns (r: Result<(), WorkError>)
      modifies this
      ensures fault ==> rows == old(rows) && r == Err(StorageUnavailable)
      ensures !fault ==> rows == Complete(old(rows), id, owner, token, now)
      ensures !fault ==> r == (if Holds(old(rows), id, owner, token, now) then Ok(()) else Err(StaleLease))
    {
      if fault { return Err(StorageUnavailable); }
      if !Holds(rows, id, owner, token, now) { return Err(StaleLease); }
      rows := rows[id := rows[id].(status := Completed, lease := None, completedAt := Some(now))];
      r := Ok(());
    }

    method FailWork(id: WorkId, owner: string, token: Token, now: int, code: FailureCode, retryable: bool, fault: bool)
      returns (r: Result<Status, WorkError>)
      modifies this
      ensures fault ==> rows == old(rows) && r == Err(StorageUnavailable)
      ensures !fault ==> rows == Fail(old(rows), id, owner, token, now, code, retryable)
      ensures !fault ==> r == (if Holds(old(rows), id, owner, token, now) then Ok(rows[id].status) else Err(StaleLease))
    {
      if fault { return Err(StorageUnavailable); }
      if !Holds(rows, id, owner, token, now) { return Err(StaleLease); }
      var row := rows[id];
      var retry := retryable && row.attempts < row.envelope.maxAttempts;
      var available := if retry then now + RetryDelay(row.attempts) * NANOS_PER_SECOND else now;
      rows := rows[id := row.(
        status := if retry then Pending else DeadLetter,
        availableAt := available, lease := None, failure := Some(code),
        completedAt := if retry then None else Some(now))];
      r := Ok(rows[id].status);
    }

    /** Cancels the only item in scope; two of them, or one that does not decode, are
        an error. */
    method CancelScoped(s: Scope, correlation: string, now: int, fault: bool)
      returns (r: Result<CancelOutcome, WorkError>)
      modifies this
      ensures !ValidCorrelation(correlation) ==> rows == old(rows) && r == Err(InvalidCorrelation)
      ensures ValidCorrelation(correlation) && fault ==> rows == old(rows) && r == Err(StorageUnavailable)
      ensures ValidCorrelation(correlation) && !fault ==>
        && rows == Cancel(old(rows), s, correlation, now)
        && CancelAnswers(old(rows), s, correlation, r)
    {
      if !ValidCorrelation(correlation) { return Err(InvalidCorrelation); }
      if fault { return Err(StorageUnavailable); }
      var matching := set k | k in rows && InScope(rows[k], s, correlation);
      assert forall k :: k in rows && InScope(rows[k], s, correlation) ==> k in matching;
      if matching == {} {
        assert rows == Cancel(rows, s, correlation, now);
        return Ok(NotFound);
      }
      var id :| id in matching;
      if matching != {id} {
        assert exists other :: other in matching && other != id;
        assert rows == Cancel(rows, s, correlation, now);
        return Err(StorageUnavailable);
      }
      assert OnlyMatch(rows, s, correlation, id);
      r := CancelAnswer(rows[id], id);
      if r.Ok? && r.value.Canceled? {
        rows := rows[id := CancelRow(rows[id], now)];
      }
    }
  }

  lemma RecoveringStep(before: Table, t: Table, pending: set<WorkId>, id: WorkId, target: string, now: int)
    requires Recovering(before, t, pending, target, now) && id in pending
    ensures t[id].status == Leased && t[id].envelope.target == target
    ensures Recovering(before, t[id := RecoverRow(t[id], target, now)], pending - {id}, target, now)
  {}

  lemma TurnedOneMore(before: Table, t: Table, id: WorkId, r: Row, status: Status)
    requires id in before && id in t && before[id].status == Leased && t[id] == before[id] && status != Leased
    ensures |Turned(before, t[id := r], status)| == |Turned(before, t, status)| + if r.status == status then 1 else 0
  {
    var after := Turned(before, t[id := r], status);
    if r.status == status {
      assert after == Turned(before, t, status) + {id};
    } else {
      assert after == Turned(before, t, status);
    }
  }
}
