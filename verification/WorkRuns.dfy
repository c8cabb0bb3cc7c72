/** Every interleaving of the store's transactions, by any number of callers. */
module WorkRuns {
  // A worker that crashed, was cut off, or whose call lands late is simply one whose
  // transactions are absent, delayed, or carry an old clock stamp: no order and no
  // honesty of callers is assumed, only that a claim draws a token never drawn before.

  import opened Wrappers
  import opened WorkTable

  datatype Op =
    | DoEnqueue(e: Envelope)
    | DoClaim(target: string, owner: string, now: int, lease: int, token: Token)
    | DoRenew(id: WorkId, owner: string, token: Token, now: int, lease: int)
    | DoComplete(id: WorkId, owner: string, token: Token, now: int)
    | DoFail(id: WorkId, owner: string, token: Token, now: int, code: FailureCode, retryable: bool)
    | DoRecover(target: string, now: int)
    | DoCancel(scope: Scope, correlation: string, now: int)

  datatype World = World(table: Table, issued: set<Token>)

  ghost predicate Effect(t: Table, op: Op, t': Table) {
    match op
    case DoEnqueue(e) => e.maxAttempts >= 1 && t' == Enqueue(t, e)
    case DoClaim(target, owner, now, lease, token) => exists o :: IsClaim(t, target, owner, now, lease, token, t', o)
    case DoRenew(id, owner, token, now, lease) => t' == Renew(t, id, owner, token, now, lease)
    case DoComplete(id, owner, token, now) => t' == Complete(t, id, owner, token, now)
    case DoFail(id, owner, token, now, code, retryable) => t' == Fail(t, id, owner, token, now, code, retryable)
    case DoRecover(target, now) => t' == Recover(t, target, now)
    case DoCancel(scope, correlation, now) => t' == Cancel(t, scope, correlation, now)
  }

  ghost predicate Step(w: World, op: Op, w': World) {
    && Effect(w.table, op, w'.table)
    && if op.DoClaim? then op.token !in w.issued && w'.issued == w.issued + {op.token} else w'.issued == w.issued
  }

  ghost predicate StepAt(ws: seq<World>, ops: seq<Op>, i: nat)
    requires i < |ops| && |ws| == |ops| + 1
  {
    Step(ws[i], ops[i], ws[i + 1])
  }

  ghost predicate IsRun(ws: seq<World>, ops: seq<Op>) {
    && |ws| == |ops| + 1
    && forall i :: 0 <= i < |ops| ==> StepAt(ws, ops, i)
  }

  // ----------------------------------------------- what one step does to a row

  predicate GoodRow(r: Row, id: WorkId) {
    && r.envelope.id == id && r.intact
    && Consistent(r)
    && r.attempts <= r.envelope.maxAttempts
    && (r.status == Pending ==> r.attempts < r.envelope.maxAttempts)
    && (r.status == Leased ==> 1 <= r.attempts)
  }

  /** Everything the run theorems need to know about one row across one step:
      `drawn` is the token a claim may have drawn. */
  predicate RowMove(r: Row, r': Row, id: WorkId, drawn: Option<Token>) {
    && r'.envelope == r.envelope
    && (Terminal(r) ==> r' == r)
    && (GoodRow(r, id) ==> GoodRow(r', id))
    && (r'.lease.Some? ==>
          || (r.lease.Some? && r.lease.value.token == r'.lease.value.token && r'.attempts == r.attempts)
          || (drawn == Some(r'.lease.value.token) && r'.attempts == r.attempts + 1))
    && (r'.lease.None? ==> r'.attempts == r.attempts)
  }

  lemma RecoverMovesRow(r: Row, id: WorkId, target: string, now: int, drawn: Option<Token>)
    ensures RowMove(r, RecoverRow(r, target, now), id, drawn)
    ensures RecoverRow(r, target, now).attempts == r.attempts
  {}

  lemma ClaimMovesRow(t: Table, target: string, owner: string, now: int, lease: int, token: Token,
                      t': Table, o: ClaimOutcome, id: WorkId)
    requires IsClaim(t, target, owner, now, lease, token, t', o) && id in t
    ensures t'.Keys == t.Keys && RowMove(t[id], t'[id], id, Some(token))
  {
    var d := Recover(t, target, now);
    RecoverMovesRow(t[id], id, target, now, Some(token));
    assert t'.Keys == d.Keys;
    if o.Claimed? && o.id == id {
      assert Candidate(d[id], target, now) && t'[id] == Granted(d[id], owner, token, now + lease);
    } else if o.Damaged? && o.id == id {
      assert t'[id] == Dead(d[id], IntegrityViolation, now);
    } else {
      assert t'[id] == d[id];
    }
  }

  function Drawn(op: Op): Option<Token> {
    if op.DoClaim? then Some(op.token) else None
  }

  lemma StepMovesRow(w: World, op: Op, w': World, id: WorkId)
    requires Step(w, op, w') && id in w.table
    ensures id in w'.table && RowMove(w.table[id], w'.table[id], id, Drawn(op))
  {
    match op
    case DoClaim(target, owner, now, lease, token) =>
      var o :| IsClaim(w.table, target, owner, now, lease, token, w'.table, o);
      ClaimMovesRow(w.table, target, owner, now, lease, token, w'.table, o, id);
    case DoRecover(target, now) => RecoverMovesRow(w.table[id], id, target, now, None);
    case DoEnqueue(e) =>
    case DoRenew(_, _, _, _, _) =>
    case DoComplete(_, _, _, _) =>
    case DoFail(_, _, _, _, _, _) =>
    case DoCancel(_, _, _) =>
  }

  lemma ClaimKeepsKeys(t: Table, target: string, owner: string, now: int, lease: int, token: Token, t': Table)
    requires Effect(t, DoClaim(target, owner, now, lease, token), t')
    ensures t'.Keys == t.Keys
  {
    var o :| IsClaim(t, target, owner, now, lease, token, t', o);
    assert Recover(t, target, now).Keys == t.Keys;
  }

  lemma StepAddsRow(w: World, op: Op, w': World, id: WorkId)
    requires Step(w, op, w') && id !in w.table && id in w'.table
    ensures op.DoEnqueue? && op.e.id == id && w'.table[id] == NewRow(op.e) && op.e.maxAttempts >= 1
  {
    match op
    case DoClaim(target, owner, now, lease, token) =>
      ClaimKeepsKeys(w.table, target, owner, now, lease, token, w'.table);
    case _ =>
  }

  /** The view of step `i` of a run that the theorems below use. */
  ghost predicate MoveAt(ws: seq<World>, ops: seq<Op>, i: nat, id: WorkId)
    requires i < |ops| && |ws| == |ops| + 1
  {
    && ws[i].issued <= ws[i + 1].issued
    && (Drawn(ops[i]).Some? ==> ops[i].token !in ws[i].issued && ops[i].token in ws[i + 1].issued)
    && if id in ws[i].table then
         id in ws[i + 1].table && RowMove(ws[i].table[id], ws[i + 1].table[id], id, Drawn(ops[i]))
       else
         id in ws[i + 1].table ==>
           ops[i].DoEnqueue? && ops[i].e.id == id && ws[i + 1].table[id] == NewRow(ops[i].e)
  }

  lemma RunMoves(ws: seq<World>, ops: seq<Op>, i: nat, id: WorkId)
    requires IsRun(ws, ops) && i < |ops|
    ensures MoveAt(ws, ops, i, id)
  {
    assert StepAt(ws, ops, i);
    if id in ws[i].table {
      StepMovesRow(ws[i], ops[i], ws[i + 1], id);
    } else if id in ws[i + 1].table {
      StepAddsRow(ws[i], ops[i], ws[i + 1], id);
    }
  }

  // ------------------------------------------------------------ terminal rows

  lemma {:induction false} TerminalIsFinal(ws: seq<World>, ops: seq<Op>, i: nat, j: nat, id: WorkId)
    requires IsRun(ws, ops) && i <= j < |ws|
    requires id in ws[i].table && ws[i].table[id].status in {Completed, DeadLetter, Canceled}
    ensures id in ws[j].table && ws[j].table[id] == ws[i].table[id]
    decreases j - i
  {
    if i < j {
      RunMoves(ws, ops, i, id);
      TerminalIsFinal(ws, ops, i + 1, j, id);
    }
  }

  ghost predicate Ends(ws: seq<World>, k: nat, id: WorkId)
    requires k + 1 < |ws|
  {
    && id in ws[k].table && !Terminal(ws[k].table[id])
    && id in ws[k + 1].table && Terminal(ws[k + 1].table[id])
  }

  /** An item is completed, dead-lettered or canceled once, by one transaction. */
  lemma EndsAtMostOnce(ws: seq<World>, ops: seq<Op>, i: nat, j: nat, id: WorkId)
    requires IsRun(ws, ops) && i + 1 < |ws| && j + 1 < |ws|
    requires Ends(ws, i, id) && Ends(ws, j, id)
    ensures i == j
  {
    if i < j { TerminalIsFinal(ws, ops, i + 1, j, id); }
    if j < i { TerminalIsFinal(ws, ops, j + 1, i, id); }
  }

  /** A transaction completes an item exactly when it is a `complete` by the
      holder of an unexpired lease. */
  lemma CompletedExactlyByHolder(w: World, op: Op, w': World, id: WorkId)
    requires Step(w, op, w') && id in w.table && w.table[id].status != Completed
    ensures id in w'.table
    ensures w'.table[id].status == Completed <==>
      op.DoComplete? && op.id == id && Holds(w.table, id, op.owner, op.token, op.now)
  {}

  // ------------------------------------------------------------- conservation

  lemma {:induction false} NothingIsLost(ws: seq<World>, ops: seq<Op>, i: nat, j: nat, id: WorkId)
    requires IsRun(ws, ops) && i <= j < |ws|
    requires id in ws[i].table
    ensures id in ws[j].table && ws[j].table[id].envelope == ws[i].table[id].envelope
    decreases j - i
  {
    if i < j {
      RunMoves(ws, ops, i, id);
      NothingIsLost(ws, ops, i + 1, j, id);
    }
  }

  /** Every item present at the end was there at the start or was put there by
      one enqueue of exactly its envelope. */
  lemma {:induction false} NothingIsInvented(ws: seq<World>, ops: seq<Op>, id: WorkId)
    requires IsRun(ws, ops) && id in ws[|ops|].table
    ensures id in ws[0].table ||
      exists k :: 0 <= k < |ops| && ops[k] == DoEnqueue(ws[|ops|].table[id].envelope) && id !in ws[k].table
    decreases |ops|
  {
    if |ops| > 0 {
      var n := |ops| - 1;
      RunMoves(ws, ops, n, id);
      if id in ws[n].table {
        Prefix(ws, ops, n);
        NothingIsInvented(ws[..|ops|], ops[..n], id);
        if id !in ws[0].table {
          var k :| 0 <= k < n && ops[..n][k] == DoEnqueue(ws[n].table[id].envelope) && id !in ws[..|ops|][k].table;
          assert ops[k] == DoEnqueue(ws[|ops|].table[id].envelope) && id !in ws[k].table;
        }
      }
    }
  }

  lemma Prefix(ws: seq<World>, ops: seq<Op>, n: nat)
    requires IsRun(ws, ops) && n <= |ops|
    ensures IsRun(ws[..n + 1], ops[..n])
  {
    var us, os := ws[..n + 1], ops[..n];
    forall i | 0 <= i < n ensures StepAt(us, os, i) { assert StepAt(ws, ops, i); }
  }

  // ------------------------------------------------------------------ fencing

  predicate Carries(t: Table, id: WorkId, token: Token) {
    id in t && t[id].lease.Some? && t[id].lease.value.token == token
  }

  predicate Presents(op: Op, id: WorkId, token: Token) {
    match op
    case DoRenew(i, _, k, _, _) => i == id && k == token
    case DoComplete(i, _, k, _) => i == id && k == token
    case DoFail(i, _, k, _, _, _) => i == id && k == token
    case _ => false
  }

  /** Once a drawn token is off a row it never returns to it, and no later
      renew, complete or fail that presents it changes anything at all. */
  lemma {:induction false} LostTokenIsDead(ws: seq<World>, ops: seq<Op>, i: nat, j: nat, id: WorkId, token: Token)
    requires IsRun(ws, ops) && i <= j < |ws|
    requires token in ws[i].issued && !Carries(ws[i].table, id, token)
    ensures token in ws[j].issued && !Carries(ws[j].table, id, token)
    ensures j < |ops| && Presents(ops[j], id, token) ==> ws[j + 1].table == ws[j].table
    decreases j - i
  {
    if i < j {
      RunMoves(ws, ops, i, id);
      LostTokenIsDead(ws, ops, i + 1, j, id, token);
    } else if j < |ops| && Presents(ops[j], id, token) {
      assert StepAt(ws, ops, j);
    }
  }

  /** A recovery pass of the target, on its own or at the start of a claim. */
  predicate Recovers(op: Op, target: string, now: int) {
    (op.DoRecover? || op.DoClaim?) && op.target == target && op.now >= now
  }

  /** Either takes an expired lease off its row. */
  lemma RecoveryTakesLease(w: World, op: Op, w': World, id: WorkId)
    requires Step(w, op, w') && id in w.table && w.table[id].status == Leased && w.table[id].lease.Some?
    requires w.table[id].lease.value.token in w.issued
    requires Recovers(op, w.table[id].envelope.target, w.table[id].lease.value.expiresAt)
    ensures !Carries(w'.table, id, w.table[id].lease.value.token)
  {
    assert Recover(w.table, op.target, op.now)[id].lease.None?;
    if op.DoClaim? {
      var o :| IsClaim(w.table, op.target, op.owner, op.now, op.lease, op.token, w'.table, o);
    }
  }

  /** So after a recovery, or a claim by anyone, has found its lease expired, the
      former holder can only ever be answered with a stale lease. */
  lemma RecoveredHolderIsFenced(ws: seq<World>, ops: seq<Op>, i: nat, j: nat, id: WorkId)
    requires IsRun(ws, ops) && i < j < |ops|
    requires id in ws[i].table && ws[i].table[id].status == Leased && ws[i].table[id].lease.Some?
    requires ws[i].table[id].lease.value.token in ws[i].issued
    requires Recovers(ops[i], ws[i].table[id].envelope.target, ws[i].table[id].lease.value.expiresAt)
    ensures Presents(ops[j], id, ws[i].table[id].lease.value.token) ==> ws[j + 1].table == ws[j].table
  {
    assert StepAt(ws, ops, i);
    RecoveryTakesLease(ws[i], ops[i], ws[i + 1], id);
    RunMoves(ws, ops, i, id);
    LostTokenIsDead(ws, ops, i + 1, j, id, ws[i].table[id].lease.value.token);
  }

  // ---------------------------------------------------------- table invariant

  ghost predicate GoodWorld(w: World) {
    && (forall id :: id in w.table ==> GoodRow(w.table[id], id))
    && (forall id, k :: Carries(w.table, id, k) ==> k in w.issued)
    && (forall i, j, k :: Carries(w.table, i, k) && Carries(w.table, j, k) ==> i == j)
  }

  lemma CarriesStep(w: World, op: Op, w': World, id: WorkId, k: Token)
    requires Step(w, op, w') && Carries(w'.table, id, k)
    ensures Carries(w.table, id, k) || Drawn(op) == Some(k)
  {
    if id in w.table { StepMovesRow(w, op, w', id); } else { StepAddsRow(w, op, w', id); }
  }

  lemma GrantedRow(t: Table, target: string, owner: string, now: int, lease: int, token: Token,
                   t': Table, o: ClaimOutcome, id: WorkId)
    requires IsClaim(t, target, owner, now, lease, token, t', o)
    requires !Carries(t, id, token) && Carries(t', id, token)
    ensures o == Claimed(id)
  {
    var d := Recover(t, target, now);
    assert t'.Keys == d.Keys == t.Keys;
    assert d[id] == RecoverRow(t[id], target, now);
  }

  /** A claim puts its token on one row only. */
  lemma GrantsOneRow(w: World, op: Op, w': World, i: WorkId, j: WorkId)
    requires GoodWorld(w) && Step(w, op, w') && op.DoClaim?
    requires Carries(w'.table, i, op.token) && Carries(w'.table, j, op.token)
    ensures i == j
  {
    var o :| IsClaim(w.table, op.target, op.owner, op.now, op.lease, op.token, w'.table, o);
    assert !Carries(w.table, i, op.token) && !Carries(w.table, j, op.token);
    GrantedRow(w.table, op.target, op.owner, op.now, op.lease, op.token, w'.table, o, i);
    GrantedRow(w.table, op.target, op.owner, op.now, op.lease, op.token, w'.table, o, j);
  }

  lemma GoodStep(w: World, op: Op, w': World)
    requires GoodWorld(w) && Step(w, op, w')
    ensures GoodWorld(w')
  {
    forall id | id in w'.table ensures GoodRow(w'.table[id], id) {
      if id in w.table { StepMovesRow(w, op, w', id); } else { StepAddsRow(w, op, w', id); }
    }
    forall id: nat, k: nat | Carries(w'.table, id, k) ensures k in w'.issued {
      CarriesStep(w, op, w', id, k);
    }
    forall i: nat, j: nat, k: nat | Carries(w'.table, i, k) && Carries(w'.table, j, k) ensures i == j {
      CarriesStep(w, op, w', i, k);
      CarriesStep(w, op, w', j, k);
      if Drawn(op) == Some(k) { GrantsOneRow(w, op, w', i, j); }
    }
  }

  /** No run leaves a row that the store's own decoding rejects, a pending row
      that has used up its attempts, or two rows under one token. */
  lemma {:induction false} GoodForever(ws: seq<World>, ops: seq<Op>, j: nat)
    requires IsRun(ws, ops) && j < |ws| && GoodWorld(ws[0])
    ensures GoodWorld(ws[j])
    ensures forall id :: id in ws[j].table ==> Decodes(ws[j].table[id])
  {
    if j > 0 {
      GoodForever(ws, ops, j - 1);
      assert StepAt(ws, ops, j - 1);
      GoodStep(ws[j - 1], ops[j - 1], ws[j]);
    }
  }

  // ----------------------------------------------------------- attempt budget

  ghost predicate Grants(ws: seq<World>, ops: seq<Op>, k: nat, id: WorkId)
    requires k < |ops| && |ws| == |ops| + 1
  {
    ops[k].DoClaim? && Carries(ws[k + 1].table, id, ops[k].token)
  }

  ghost function GrantCount(ws: seq<World>, ops: seq<Op>, n: nat, id: WorkId): nat
    requires n <= |ops| && |ws| == |ops| + 1
  {
    if n == 0 then 0 else GrantCount(ws, ops, n - 1, id) + if Grants(ws, ops, n - 1, id) then 1 else 0
  }

  function AttemptsOf(t: Table, id: WorkId): nat {
    if id in t then t[id].attempts else 0
  }

  lemma {:induction false} AttemptsCountGrants(ws: seq<World>, ops: seq<Op>, n: nat, id: WorkId)
    requires IsRun(ws, ops) && n <= |ops| && GoodWorld(ws[0])
    ensures AttemptsOf(ws[n].table, id) == AttemptsOf(ws[0].table, id) + GrantCount(ws, ops, n, id)
  {
    if n > 0 {
      AttemptsCountGrants(ws, ops, n - 1, id);
      GoodForever(ws, ops, n - 1);
      RunMoves(ws, ops, n - 1, id);
      if ops[n - 1].DoClaim? { assert !Carries(ws[n - 1].table, id, ops[n - 1].token); }
    }
  }

  /** However workers crash and leases expire, an item is handed out at most
      `maxAttempts` times in all. */
  lemma HandedOutWithinBudget(ws: seq<World>, ops: seq<Op>, id: WorkId)
    requires IsRun(ws, ops) && GoodWorld(ws[0])
    requires id in ws[|ops|].table && id !in ws[0].table
    ensures GrantCount(ws, ops, |ops|, id) == ws[|ops|].table[id].attempts
    ensures GrantCount(ws, ops, |ops|, id) <= ws[|ops|].table[id].envelope.maxAttempts
  {
    AttemptsCountGrants(ws, ops, |ops|, id);
    GoodForever(ws, ops, |ops|);
  }

  /** A claim that finds nothing leaves no claimable row and no expired lease. */
  lemma EmptyClaimMeansDrained(t: Table, target: string, owner: string, now: int, lease: int, token: Token, t': Table)
    requires forall id :: id in t ==> GoodRow(t[id], id)
    requires IsClaim(t, target, owner, now, lease, token, t', Nothing)
    ensures forall id :: id in t' && t'[id].envelope.target == target ==>
      && (t'[id].status == Pending ==> t'[id].availableAt > now)
      && (t'[id].status == Leased ==> t'[id].lease.value.expiresAt > now)
  {
    forall id | id in t' && t'[id].envelope.target == target
      ensures t'[id].status == Pending ==> t'[id].availableAt > now
      ensures t'[id].status == Leased ==> t'[id].lease.value.expiresAt > now
    {
      assert t'[id] == RecoverRow(t[id], target, now);
    }
  }

  // ------------------------------------------------------------ deduplication

  ghost predicate UniqueKeys(t: Table) {
    forall i, j :: i in t && j in t && SameDedupe(t[i].envelope, t[j].envelope) ==> i == j
  }

  /** No run stores two items of one source under one dedupe key. */
  lemma {:induction false} DedupeForever(ws: seq<World>, ops: seq<Op>, j: nat)
    requires IsRun(ws, ops) && j < |ws| && UniqueKeys(ws[0].table)
    ensures UniqueKeys(ws[j].table)
  {
    if j > 0 {
      DedupeForever(ws, ops, j - 1);
      DedupeAt(ws, ops, j - 1);
    }
  }

  lemma EnvelopeStep(w: World, op: Op, w': World, id: WorkId)
    requires Step(w, op, w') && id in w'.table
    ensures id in w.table ==> w'.table[id].envelope == w.table[id].envelope
    ensures id !in w.table ==>
      op.DoEnqueue? && op.e.id == id && w'.table[id].envelope == op.e && !Conflicts(w.table, op.e)
  {
    if id in w.table { StepMovesRow(w, op, w', id); } else { StepAddsRow(w, op, w', id); }
  }

  lemma DedupeAt(ws: seq<World>, ops: seq<Op>, i: nat)
    requires IsRun(ws, ops) && i < |ops| && UniqueKeys(ws[i].table)
    ensures UniqueKeys(ws[i + 1].table)
  {
    assert StepAt(ws, ops, i);
    var w, w' := ws[i], ws[i + 1];
    forall a, b | a in w'.table && b in w'.table && SameDedupe(w'.table[a].envelope, w'.table[b].envelope)
      ensures a == b
    {
      EnvelopeStep(w, ops[i], w', a);
      EnvelopeStep(w, ops[i], w', b);
    }
  }
}
