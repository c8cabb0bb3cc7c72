/** What each transaction does to the rows, column by column. */
module WorkRows {
  // Nothing here is stated through the functions the transactions are defined by: the
  // rows before and after are compared as they stand in the table.

  import opened Wrappers
  import opened WorkTable
  import opened WorkRuns
  import opened WorkStore

  const SECOND := 1_000_000_000

  /** An item is stored pending and claimable at once, unless its id is taken or an item
      of its source has its dedupe key; then nothing changes. */
  lemma EnqueueSays(t: Table, e: Envelope, t': Table)
    requires Effect(t, DoEnqueue(e), t')
    ensures var named := exists k :: k in t && t[k].envelope.source == e.source && t[k].envelope.dedupe == e.dedupe;
      var taken := e.id in t || (e.dedupe.Some? && named);
      t' == if taken then t else t[e.id := Row(e, true, Pending, 0, e.createdAt, None, None, None)]
  {
    if e.dedupe.Some? && exists k :: k in t && t[k].envelope.source == e.source && t[k].envelope.dedupe == e.dedupe {
      var k :| k in t && t[k].envelope.source == e.source && t[k].envelope.dedupe == e.dedupe;
      assert SameDedupe(e, t[k].envelope);
    }
  }

  /** The stored columns fit together. */
  predicate Sane(r: Row) {
    && r.intact && r.attempts <= r.envelope.maxAttempts
    && (r.lease.Some? <==> r.status == Leased)
    && (r.completedAt.None? <==> r.status == Pending || r.status == Leased)
  }

  /** Recovery leaves alone what is not leased to the target or whose lease still runs;
      an expired item goes back to the queue at once while it has attempts left, and is
      dead-lettered when it has none; a damaged one is dead-lettered in any case. */
  lemma RecoverySays(t: Table, target: string, now: int, t': Table, id: WorkId)
    requires Effect(t, DoRecover(target, now), t') && id in t
    ensures t'.Keys == t.Keys
    ensures t[id].envelope.target != target || t[id].status != Leased ==> t'[id] == t[id]
    ensures t[id].envelope.target == target && t[id].status == Leased && Sane(t[id]) ==>
      t'[id] ==
        if t[id].lease.value.expiresAt > now then t[id]
        else if t[id].attempts < t[id].envelope.maxAttempts
        then t[id].(status := Pending, lease := None, availableAt := now)
        else t[id].(status := DeadLetter, lease := None, failure := Some(AttemptsExhausted), completedAt := Some(now))
    ensures t[id].envelope.target == target && t[id].status == Leased && !Sane(t[id]) ==>
      t'[id] == t[id].(
        status := DeadLetter, lease := None, failure := Some(IntegrityViolation), completedAt := Some(now))
  {}

  /** Pending, due, and with attempts left. */
  predicate Claimable(r: Row, target: string, now: int) {
    r.envelope.target == target && r.status == Pending && r.availableAt <= now
    && r.attempts < r.envelope.maxAttempts
  }

  /** `d` is the table after the claim's recovery, in which the claim granted `id`: of
      all claimable rows none is more urgent; none as urgent has been available for
      longer; none equal in both is older; none equal in all three has a smaller id. */
  lemma ClaimGrantsTheFirst(t: Table, op: Op, d: Table, t': Table, id: WorkId)
    requires op.DoClaim? && Effect(t, op, t') && Effect(t, DoRecover(op.target, op.now), d)
    requires Carries(t', id, op.token) && !Carries(t, id, op.token)
    ensures id in d && Claimable(d[id], op.target, op.now)
    ensures forall k :: k in d && Claimable(d[k], op.target, op.now) ==>
      d[k].envelope.priority <= d[id].envelope.priority
    ensures forall k :: k in d && Claimable(d[k], op.target, op.now)
                        && d[k].envelope.priority == d[id].envelope.priority ==>
      d[id].availableAt <= d[k].availableAt
    ensures forall k :: k in d && Claimable(d[k], op.target, op.now)
                        && d[k].envelope.priority == d[id].envelope.priority
                        && d[k].availableAt == d[id].availableAt ==>
      d[id].envelope.createdAt <= d[k].envelope.createdAt
    ensures forall k :: k in d && Claimable(d[k], op.target, op.now)
                        && d[k].envelope.priority == d[id].envelope.priority && d[k].availableAt == d[id].availableAt
                        && d[k].envelope.createdAt == d[id].envelope.createdAt ==>
      id <= k
  {
    FirstIsGranted(t, op, d, t', id);
    forall k | k in d && Claimable(d[k], op.target, op.now) ensures Before(d[id], id, d[k], k) {
      assert Candidate(d[k], op.target, op.now);
    }
  }

  lemma FirstIsGranted(t: Table, op: Op, d: Table, t': Table, id: WorkId)
    requires op.DoClaim? && Effect(t, op, t') && Effect(t, DoRecover(op.target, op.now), d)
    requires Carries(t', id, op.token) && !Carries(t, id, op.token)
    ensures IsFirst(d, op.target, op.now, id)
    ensures t' == d[id := Granted(d[id], op.owner, op.token, op.now + op.lease)]
  {
    var o :| IsClaim(t, op.target, op.owner, op.now, op.lease, op.token, t', o);
    GrantedRow(t, op.target, op.owner, op.now, op.lease, op.token, t', o, id);
  }

  /** Beyond the recovery a claim changes the row it grants alone: leased to the caller
      for exactly the lease asked for, with one attempt more. */
  lemma GrantSays(t: Table, op: Op, d: Table, t': Table, id: WorkId)
    requires op.DoClaim? && Effect(t, op, t') && Effect(t, DoRecover(op.target, op.now), d)
    requires Carries(t', id, op.token) && !Carries(t, id, op.token)
    ensures id in d && t' == d[id := d[id].(
        status := Leased, attempts := d[id].attempts + 1,
        lease := Some(Lease(op.owner, op.token, op.now + op.lease)))]
  {
    FirstIsGranted(t, op, d, t', id);
  }

  /** A claim that grants nothing found nothing claimable, or discards the row it would
      have granted, which is damaged. */
  lemma NoGrantSays(t: Table, op: Op, d: Table, t': Table)
    requires op.DoClaim? && Effect(t, op, t') && Effect(t, DoRecover(op.target, op.now), d)
    requires forall id :: !Carries(t', id, op.token)
    ensures (t' == d && forall k :: k in d ==> !Claimable(d[k], op.target, op.now))
            || exists k :: k in d && Claimable(d[k], op.target, op.now) && !Sane(d[k])
                 && t' == d[k := d[k].(status := DeadLetter, lease := None, failure := Some(IntegrityViolation),
                                       completedAt := Some(op.now))]
  {
    var o :| IsClaim(t, op.target, op.owner, op.now, op.lease, op.token, t', o);
    if o.Claimed? { assert Carries(t', o.id, op.token); }
    if o.Damaged? {
      assert o.id in d && Claimable(d[o.id], op.target, op.now) && !Sane(d[o.id]);
    } else {
      forall k | k in d ensures !Claimable(d[k], op.target, op.now) { assert !Candidate(d[k], op.target, op.now); }
    }
  }

  /** The caller holds the item: leased to it under this token, and not yet expired. */
  predicate Held(t: Table, id: WorkId, owner: string, token: Token, now: int) {
    && id in t && t[id].status == Leased && t[id].lease.Some?
    && t[id].lease.value.owner == owner && t[id].lease.value.token == token && now < t[id].lease.value.expiresAt
  }

  /** A renewal by the holder moves the expiry, to exactly the lease asked for from now,
      and nothing else; any other changes nothing. */
  lemma RenewalSays(t: Table, id: WorkId, owner: string, token: Token, now: int, lease: int, t': Table)
    requires Effect(t, DoRenew(id, owner, token, now, lease), t')
    ensures t' == if Held(t, id, owner, token, now)
                  then t[id := t[id].(lease := Some(t[id].lease.value.(expiresAt := now + lease)))] else t
  {}

  lemma CompletionSays(t: Table, id: WorkId, owner: string, token: Token, now: int, t': Table)
    requires Effect(t, DoComplete(id, owner, token, now), t')
    ensures t' == if Held(t, id, owner, token, now)
                  then t[id := t[id].(status := Completed, lease := None, completedAt := Some(now))] else t
  {}

  /** Seconds to wait after the n-th attempt failed: doubling from one, at most 300. */
  const BACKOFF := [1, 1, 2, 4, 8, 16, 32, 64, 128, 256]

  function Wait(attempts: nat): nat {
    if attempts < |BACKOFF| then BACKOFF[attempts] else 300
  }

  /** Of two waits in a row the second is twice the first, or 300 seconds. */
  lemma WaitDoubles(n: nat)
    requires n >= 1
    ensures Wait(n + 1) == Min(2 * Wait(n), 300)
  {}

  function Min(a: nat, b: nat): nat {
    if a <= b then a else b
  }

  lemma RetryDelayIsWait(n: nat)
    ensures RetryDelay(n) == Wait(n)
  {
    assert Pow2(0) == 1 && Pow2(1) == 2 && Pow2(2) == 4 && Pow2(3) == 8 && Pow2(4) == 16;
    assert Pow2(5) == 32 && Pow2(6) == 64 && Pow2(7) == 128 && Pow2(8) == 256;
  }

  /** A failure reported by the holder: a retryable one with attempts left puts the item
      back, claimable exactly after the wait; any other dead-letters it.  Either way the
      code is recorded and the lease is gone. */
  lemma FailureSays(
    t: Table, id: WorkId, owner: string, token: Token, now: int, code: FailureCode, retryable: bool, t': Table)
    requires Effect(t, DoFail(id, owner, token, now, code, retryable), t') && Held(t, id, owner, token, now)
    ensures var again := retryable && t[id].attempts < t[id].envelope.maxAttempts;
      t' == t[id := t[id].(
        status := if again then Pending else DeadLetter, lease := None, failure := Some(code),
        availableAt := if again then now + Wait(t[id].attempts) * SECOND else now,
        completedAt := if again then None else Some(now))]
    ensures forall later ::
      (Claimable(t'[id], t[id].envelope.target, later) <==>
        retryable && t[id].attempts < t[id].envelope.maxAttempts && later >= now + Wait(t[id].attempts) * SECOND)
  {
    RetryDelayIsWait(t[id].attempts);
  }

  lemma FailureByOthersSays(
    t: Table, id: WorkId, owner: string, token: Token, now: int, code: FailureCode, retryable: bool, t': Table)
    requires Effect(t, DoFail(id, owner, token, now, code, retryable), t') && !Held(t, id, owner, token, now)
    ensures t' == t
  {}

  /** Within the caller's source, kind and actor, under this correlation. */
  predicate Meant(r: Row, s: Scope, correlation: string) {
    r.envelope.source == s.source && r.envelope.kind == s.kind && r.envelope.actor == s.actor
    && r.envelope.correlation.Some? && r.envelope.correlation.value == correlation
  }

  /** A cancellation ends the one open item that is meant; with none, several, a closed
      or a damaged one it changes nothing. */
  lemma CancellationSays(t: Table, s: Scope, correlation: string, now: int, t': Table, id: WorkId)
    requires Effect(t, DoCancel(s, correlation, now), t') && id in t
    ensures t'.Keys == t.Keys
    ensures t'[id] ==
      if Meant(t[id], s, correlation) && (forall k :: k in t && k != id ==> !Meant(t[k], s, correlation))
         && Sane(t[id]) && (t[id].status == Pending || t[id].status == Leased)
      then t[id].(status := Status.Canceled, lease := None, completedAt := Some(now)) else t[id]
  {
    assert forall k :: k in t ==> (Meant(t[k], s, correlation) <==> InScope(t[k], s, correlation));
    assert OnlyMatch(t, s, correlation, id)
      <==> Meant(t[id], s, correlation) && forall k :: k in t && k != id ==> !Meant(t[k], s, correlation);
  }

  /** What a cancellation answers: for none, for several, and for the one item meant by
      the state it is in. */
  lemma CancelAnswersSay(t: Table, s: Scope, correlation: string, r: Result<CancelOutcome, WorkError>)
    requires CancelAnswers(t, s, correlation, r)
    ensures (forall k :: k in t ==> !Meant(t[k], s, correlation)) ==> r == Ok(NotFound)
    ensures (exists i, k :: i in t && k in t && i != k
               && Meant(t[i], s, correlation) && Meant(t[k], s, correlation)) ==>
      r == Err(StorageUnavailable)
    ensures forall id :: id in t && Meant(t[id], s, correlation)
                         && (forall k :: k in t && k != id ==> !Meant(t[k], s, correlation)) ==>
      r == if !Sane(t[id]) then Err(StorageUnavailable)
           else match t[id].status
             case Pending => Ok(CancelOutcome.Canceled(id))
             case Leased => Ok(CancelOutcome.Canceled(id))
             case Canceled => Ok(AlreadyCanceled(id))
             case Completed => Ok(NotCancelable(id))
             case DeadLetter => Ok(NotCancelable(id))
  {
    forall id | id in t && Meant(t[id], s, correlation) ensures InScope(t[id], s, correlation) {}
    forall id | id in t && Meant(t[id], s, correlation)
                && (forall k :: k in t && k != id ==> !Meant(t[k], s, correlation))
      ensures OnlyMatch(t, s, correlation, id)
    {
      assert forall k :: k in t && InScope(t[k], s, correlation) ==> Meant(t[k], s, correlation);
    }
  }

  /** The limits the store checks its callers by. */
  lemma StoreLimitsSay(text: string, lease: int)
    ensures ValidRouting(text) <==> 1 <= |text| <= 128
    ensures ValidCorrelation(text) <==> 1 <= |text| <= 256
    ensures ValidLeaseDuration(lease) <==> exists n: int :: 1 <= n <= 300 && lease == n * SECOND
  {
    if ValidLeaseDuration(lease) {
      var n := lease / SECOND;
      assert 1 <= n <= 300 && lease == n * SECOND;
    }
  }

  /** On a dedupe conflict the answer is an item of the same source and key. */
  lemma NamesakesSay(t: Table, e: Envelope, k: WorkId)
    ensures k in Namesakes(t, e)
      <==> k in t && e.dedupe.Some? && t[k].envelope.dedupe == e.dedupe && t[k].envelope.source == e.source
  {}
}
