/** Correlation of requests with replies: a map from request id to the one
    receiver that waits for it. */
module PendingRequests {

  type RequestId = nat
  type Receiver = nat

  /** `Dropped` is what a receiver sees when its sender goes away unused. */
  datatype Outcome = Answer(data: string) | Refusal(reason: string) | Cancelled | Dropped

  /** `issued` receivers exist, numbered from 0. */
  datatype State = State(pending: map<RequestId, Receiver>, outcome: map<Receiver, Outcome>, issued: nat)

  datatype Op =
    | Register(id: RequestId)
    | Resolve(id: RequestId, data: string)
    | Reject(id: RequestId, reason: string)
    | CancelAll

  function CancelledFor(receivers: set<Receiver>): map<Receiver, Outcome> {
    map r | r in receivers :: Cancelled
  }

  function Apply(s: State, op: Op): State {
    match op
    case Register(id) =>
      State(s.pending[id := s.issued],
            if id in s.pending then s.outcome[s.pending[id] := Dropped] else s.outcome,
            s.issued + 1)
    case Resolve(id, data) =>
      if id in s.pending
      then s.(pending := s.pending - {id}, outcome := s.outcome[s.pending[id] := Answer(data)]) else s
    case Reject(id, reason) =>
      if id in s.pending
      then s.(pending := s.pending - {id}, outcome := s.outcome[s.pending[id] := Refusal(reason)]) else s
    case CancelAll => s.(pending := map[], outcome := s.outcome + CancelledFor(s.pending.Values))
  }

  class PendingMap {
    var pending: map<RequestId, Receiver>
    var outcome: map<Receiver, Outcome>
    var issued: nat

    function Value(): State
      reads this
    {
      State(pending, outcome, issued)
    }

    constructor ()
      ensures Value() == State(map[], map[], 0)
    {
      pending, outcome, issued := map[], map[], 0;
    }

    method RegisterRequest(id: RequestId) returns (rx: Receiver)
      modifies this
      ensures Value() == Apply(old(Value()), Register(id)) && rx == old(issued)
    {
      rx := issued;
      issued := issued + 1;
      if id in pending { outcome := outcome[pending[id] := Dropped]; }
      pending := pending[id := rx];
    }

    method ResolveRequest(id: RequestId, data: string) returns (found: bool)
      modifies this
      ensures Value() == Apply(old(Value()), Resolve(id, data))
      ensures found <==> id in old(pending)
    {
      found := id in pending;
      if found {
        outcome := outcome[pending[id] := Answer(data)];
        pending := pending - {id};
      }
    }

    method RejectRequest(id: RequestId, reason: string) returns (found: bool)
      modifies this
      ensures Value() == Apply(old(Value()), Reject(id, reason))
      ensures found <==> id in old(pending)
    {
      found := id in pending;
      if found {
        outcome := outcome[pending[id] := Refusal(reason)];
        pending := pending - {id};
      }
    }

    /** Drains the map one entry at a time. */
    method CancelEverything()
      modifies this
      ensures Value() == Apply(old(Value()), CancelAll)
    {
      ghost var waiting, answered, done := pending, outcome, {};
      while pending != map[]
        invariant issued == old(issued)
        invariant waiting.Values == done + pending.Values
        invariant outcome == answered + CancelledFor(done)
        decreases pending.Keys
      {
        var id :| id in pending;
        ghost var rest := pending;
        ValuesSplit(pending, id);
        CancelledOneMore(answered, done, pending[id]);
        done := done + {pending[id]};
        outcome, pending := outcome[pending[id] := Cancelled], pending - {id};
        assert id in rest.Keys && pending.Keys == rest.Keys - {id};
      }
      assert waiting.Values == done;
    }
  }

  lemma CancelledOneMore(answered: map<Receiver, Outcome>, done: set<Receiver>, r: Receiver)
    ensures (answered + CancelledFor(done))[r := Cancelled] == answered + CancelledFor(done + {r})
  {}

  lemma ValuesSplit(m: map<RequestId, Receiver>, id: RequestId)
    requires id in m
    ensures m.Values == {m[id]} + (m - {id}).Values
  {
    forall r | r in m.Values ensures r in {m[id]} + (m - {id}).Values {
      var k :| k in m && m[k] == r;
      assert k != id ==> k in m - {id} && (m - {id})[k] == r;
    }
  }

  // ---------------------------------------------------------------- guarantees

  ghost predicate Waits(s: State, r: Receiver) {
    exists id :: id in s.pending && s.pending[id] == r
  }

  /** Every receiver ever issued either waits under one id or has its outcome. */
  ghost predicate Inv(s: State) {
    && (forall i, j :: i in s.pending && j in s.pending && s.pending[i] == s.pending[j] ==> i == j)
    && (forall id :: id in s.pending ==> s.pending[id] < s.issued && s.pending[id] !in s.outcome)
    && (forall r :: r in s.outcome ==> r < s.issued)
    && (forall r: Receiver :: r < s.issued && r !in s.outcome ==> Waits(s, r))
  }

  lemma WaiterKept(s: State, op: Op, id: RequestId)
    requires Inv(s) && id in s.pending
    ensures s.pending[id] in Apply(s, op).outcome || Waits(Apply(s, op), s.pending[id])
  {
    var s' := Apply(s, op);
    if op.CancelAll? {
      assert s.pending[id] in s.pending.Values;
    } else if id in s'.pending {
      assert s'.pending[id] == s.pending[id] || s.pending[id] in s'.outcome;
    }
  }

  lemma OutcomesKept(s: State, op: Op, r: Receiver)
    requires Inv(s) && r in s.outcome
    ensures r in Apply(s, op).outcome && Apply(s, op).outcome[r] == s.outcome[r]
  {}

  lemma EntriesKept(s: State, op: Op)
    requires Inv(s)
    ensures var s' := Apply(s, op);
      && (forall i, j :: i in s'.pending && j in s'.pending && s'.pending[i] == s'.pending[j] ==> i == j)
      && (forall id :: id in s'.pending ==> s'.pending[id] < s'.issued && s'.pending[id] !in s'.outcome)
      && (forall r :: r in s'.outcome ==> r < s'.issued)
  {}

  lemma InvKept(s: State, op: Op)
    requires Inv(s)
    ensures Inv(Apply(s, op))
  {
    EntriesKept(s, op);
    var s' := Apply(s, op);
    forall r: Receiver | r < s'.issued && r !in s'.outcome ensures Waits(s', r) {
      if r == s.issued {
        assert s'.pending[op.id] == r;
      } else if r in s.outcome {
        OutcomesKept(s, op, r);
      } else {
        var id :| id in s.pending && s.pending[id] == r;
        WaiterKept(s, op, id);
      }
    }
  }

  ghost predicate IsRun(ss: seq<State>, ops: seq<Op>) {
    && |ss| == |ops| + 1 && ss[0] == State(map[], map[], 0)
    && forall i :: 0 <= i < |ops| ==> ss[i + 1] == Apply(ss[i], ops[i])
  }

  /** In any order of registrations, replies, rejections, timeouts and
      disconnects, a receiver is unanswered exactly while it waits in the map, and
      an outcome once delivered is never replaced. */
  lemma {:induction false} ExactlyOnce(ss: seq<State>, ops: seq<Op>, i: nat, j: nat, r: Receiver)
    requires IsRun(ss, ops) && i <= j < |ss| && r < ss[i].issued
    ensures Inv(ss[j]) && r < ss[j].issued
    ensures r in ss[j].outcome <==> !Waits(ss[j], r)
    ensures r in ss[i].outcome ==> r in ss[j].outcome && ss[j].outcome[r] == ss[i].outcome[r]
    decreases j
  {
    RunInv(ss, ops, j);
    if i < j {
      ExactlyOnce(ss, ops, i, j - 1, r);
      assert ss[j] == Apply(ss[j - 1], ops[j - 1]);
      if r in ss[j - 1].outcome { OutcomesKept(ss[j - 1], ops[j - 1], r); }
    }
  }

  lemma {:induction false} RunInv(ss: seq<State>, ops: seq<Op>, j: nat)
    requires IsRun(ss, ops) && j < |ss|
    ensures Inv(ss[j])
  {
    if j > 0 {
      RunInv(ss, ops, j - 1);
      assert ss[j] == Apply(ss[j - 1], ops[j - 1]);
      InvKept(ss[j - 1], ops[j - 1]);
    }
  }

  /** The operation means this outcome for this id: a reply brings its data, a rejection
      its reason, a disconnect a cancellation, and the reuse of the id nothing at all. */
  predicate Means(op: Op, id: RequestId, o: Outcome) {
    match o
    case Answer(data) => op == Resolve(id, data)
    case Refusal(reason) => op == Reject(id, reason)
    case Cancelled => op == CancelAll
    case Dropped => op == Register(id)
  }

  /** This operation, in this state, gives the waiting receiver this outcome. */
  ghost predicate Delivers(s: State, op: Op, r: Receiver, o: Outcome) {
    exists id :: id in s.pending && s.pending[id] == r && Means(op, id, o)
  }

  lemma WaiterGets(s: State, op: Op, id: RequestId, o: Outcome)
    requires Inv(s) && id in s.pending
    ensures var r, s' := s.pending[id], Apply(s, op);
      r in s'.outcome && s'.outcome[r] == o <==> Means(op, id, o)
  {
    assert s.pending[id] in s.pending.Values;
  }

  lemma NobodyGets(s: State, op: Op, r: Receiver)
    requires Inv(s) && r !in s.outcome && !Waits(s, r)
    ensures r !in Apply(s, op).outcome
  {}

  lemma StepDelivers(s: State, op: Op, r: Receiver, o: Outcome)
    requires Inv(s)
    ensures var s' := Apply(s, op);
      r in s'.outcome && s'.outcome[r] == o <==> (r in s.outcome && s.outcome[r] == o) || Delivers(s, op, r, o)
  {
    if r in s.outcome {
      OutcomesKept(s, op, r);
    } else if Waits(s, r) {
      var id :| id in s.pending && s.pending[id] == r;
      WaiterGets(s, op, id, o);
    } else {
      NobodyGets(s, op, r);
    }
  }

  /** A receiver has an outcome exactly when some operation gave it that one while it
      was waiting. */
  lemma {:induction false} DeliveredExactly(ss: seq<State>, ops: seq<Op>, j: nat, r: Receiver, o: Outcome)
    requires IsRun(ss, ops) && j < |ss|
    ensures r in ss[j].outcome && ss[j].outcome[r] == o <==> exists k: nat :: k < j && Delivers(ss[k], ops[k], r, o)
  {
    if j > 0 {
      DeliveredExactly(ss, ops, j - 1, r, o);
      RunInv(ss, ops, j - 1);
      assert ss[j] == Apply(ss[j - 1], ops[j - 1]);
      StepDelivers(ss[j - 1], ops[j - 1], r, o);
    }
  }

  predicate Answers(op: Op, id: RequestId) {
    op.CancelAll? || (op.Resolve? && op.id == id) || (op.Reject? && op.id == id)
  }

  /** An entry leaves the map exactly by a reply, a rejection or a disconnect: a
      caller whose send failed returns without any of them, so its entry stays. */
  lemma EntryLeavesExactlyBy(s: State, op: Op, id: RequestId)
    requires id in s.pending
    ensures id !in Apply(s, op).pending <==> Answers(op, id)
  {}

  /** Over a run, with an id that is registered once, the entry is in the map
      exactly until something answers it.  A caller that gets its outcome or times
      out leaves none behind; one whose send failed leaves its entry until the
      worker disconnects. */
  lemma {:induction false} EntryStaysExactlyUntilAnswered(ss: seq<State>, ops: seq<Op>, i: nat, j: nat, id: RequestId)
    requires IsRun(ss, ops) && i < j < |ss| && ops[i] == Register(id)
    requires forall k :: i < k < j ==> ops[k] != Register(id)
    ensures id in ss[j].pending <==> forall k :: i < k < j ==> !Answers(ops[k], id)
    ensures id in ss[j].pending ==> ss[j].pending[id] == ss[i].issued
    decreases j
  {
    assert ss[j] == Apply(ss[j - 1], ops[j - 1]);
    if i + 1 < j { EntryStaysExactlyUntilAnswered(ss, ops, i, j - 1, id); }
  }

  /** A receiver is dropped without a word exactly when its id is registered again
      while it waits: with fresh ids it never is. */
  lemma DroppedExactlyByReuse(s: State, op: Op, id: RequestId)
    requires Inv(s) && id in s.pending
    ensures (s.pending[id] in Apply(s, op).outcome && Apply(s, op).outcome[s.pending[id]] == Dropped)
            <==> op == Register(id)
  {
    if op.CancelAll? { assert s.pending[id] in s.pending.Values; }
  }
}
