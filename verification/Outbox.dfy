/** The outbox table, its statements, and the loops that push its rows. */
module Outbox {
  import opened Wrappers

  datatype Adapter = Adapter(id: string)
  datatype Status = Pending | Inflight | Sent | Failed

  /** `parses` stands for the stored payload being JSON text. */
  datatype Row = Row(
    id: nat, adapter: Adapter, capability: string, payload: string, session: Option<string>, parses: bool,
    createdAt: int, status: Status, sentAt: Option<int>, error: Option<string>, retryCount: nat,
    retryAfter: Option<int>)

  /** Rows in creation order. */
  type Table = seq<Row>

  // ------------------------------------------------------------ the statements

  datatype Statement =
    | SetInflight(id: nat, now: int)
    | SetSent(id: nat, now: int)
    | SetFailed(id: nat, reason: string, retryAfter: Option<int>)
    | ResetInflight(adapter: Adapter)
    | ResetAllInflight

  function Apply(r: Row, s: Statement): Row {
    match s
    case SetInflight(id, now) => if r.id == id then r.(status := Inflight, sentAt := Some(now)) else r
    case SetSent(id, now) => if r.id == id then r.(status := Sent, sentAt := Some(now)) else r
    case SetFailed(id, reason, retryAfter) =>
      if r.id == id
      then r.(status := Failed, error := Some(reason), retryCount := r.retryCount + 1, retryAfter := retryAfter) else r
    case ResetInflight(adapter) => if r.adapter == adapter then ResetRow(r) else r
    case ResetAllInflight => ResetRow(r)
  }

  function NewRow(
    id: nat, adapter: Adapter, capability: string, payload: string, session: Option<string>, parses: bool,
    now: int): Row
  {
    Row(id, adapter, capability, payload, session, parses, now, Pending, None, None, 0, None)
  }

  function ResetRow(r: Row): Row {
    if r.status == Inflight then r.(status := Pending, sentAt := None) else r
  }

  /** An UPDATE: every row is rewritten on its own. */
  function Update(t: Table, s: Statement): (t': Table)
    ensures |t'| == |t| && forall i :: 0 <= i < |t| ==> t'[i] == Apply(t[i], s)
  {
    if t == [] then [] else [Apply(t[0], s)] + Update(t[1..], s)
  }

  const MAX_RETRIES := 5

  /** `due` is the comparison of a row's retry time with the database clock. */
  datatype Query = Unacked(adapter: Adapter) | Retryable(adapter: Adapter, due: Row -> bool)

  predicate Matches(r: Row, q: Query) {
    match q
    case Unacked(adapter) => r.adapter == adapter && (r.status == Pending || r.status == Inflight)
    case Retryable(adapter, due) => r.adapter == adapter && r.status == Failed && due(r) && r.retryCount < MAX_RETRIES
  }

  function Where(t: Table, q: Query): Table {
    if t == [] then [] else (if Matches(t[0], q) then [t[0]] else []) + Where(t[1..], q)
  }

  predicate DistinctIds(t: Table) {
    forall i, j :: 0 <= i < j < |t| ==> t[i].id != t[j].id
  }

  lemma {:induction false} WhereKeepsExactly(t: Table, q: Query)
    requires DistinctIds(t)
    ensures DistinctIds(Where(t, q))
    ensures forall r :: r in Where(t, q) <==> r in t && Matches(r, q)
  {
    if t != [] {
      WhereKeepsExactly(t[1..], q);
      var rest := Where(t[1..], q);
      forall r ensures r in Where(t, q) <==> r in t && Matches(r, q) {
        assert r in t <==> r == t[0] || r in t[1..];
      }
      if Matches(t[0], q) {
        forall j | 0 <= j < |rest| ensures rest[j].id != t[0].id {
          assert rest[j] in rest;
          var k :| 0 <= k < |t[1..]| && t[1..][k] == rest[j];
          assert t[k + 1] == rest[j];
        }
      }
    }
  }

  /** A query keeps the creation order. */
  lemma {:induction false} WhereKeepsOrder(t: Table, q: Query, a: nat, b: nat) returns (i: nat, j: nat)
    requires a < b < |Where(t, q)|
    ensures i < j < |t| && t[i] == Where(t, q)[a] && t[j] == Where(t, q)[b]
  {
    var shift := if Matches(t[0], q) then 1 else 0;
    if a >= shift {
      i, j := WhereKeepsOrder(t[1..], q, a - shift, b - shift);
      i, j := i + 1, j + 1;
    } else {
      i := 0;
      var m := WhereFinds(t[1..], q, b - 1);
      j := m + 1;
    }
  }

  lemma {:induction false} WhereFinds(t: Table, q: Query, b: nat) returns (j: nat)
    requires b < |Where(t, q)|
    ensures j < |t| && t[j] == Where(t, q)[b]
  {
    var shift := if Matches(t[0], q) then 1 else 0;
    if b < shift {
      j := 0;
    } else {
      j := WhereFinds(t[1..], q, b - shift);
      j := j + 1;
    }
  }

  // ------------------------------------------------------------------ pushing

  /** What pushing `item` does to one row, given whether the send got through. */
  function PushRow(r: Row, item: Row, now: int, ok: bool): Row {
    if !item.parses then r
    else if ok then Apply(r, SetInflight(item.id, now))
    else Apply(Apply(r, SetInflight(item.id, now)), ResetInflight(item.adapter))
  }

  /** The table after one push. */
  function PushOne(t: Table, item: Row, now: int, ok: bool): (t': Table)
    ensures |t'| == |t|
  {
    if t == [] then [] else [PushRow(t[0], item, now, ok)] + PushOne(t[1..], item, now, ok)
  }

  lemma {:induction false} PushOneAt(t: Table, item: Row, now: int, ok: bool)
    ensures forall i :: 0 <= i < |t| ==> PushOne(t, item, now, ok)[i] == PushRow(t[i], item, now, ok)
  {
    if t != [] { PushOneAt(t[1..], item, now, ok); }
  }

  function PushAllRow(r: Row, items: Table, now: int, oks: seq<bool>): Row
    requires |oks| == |items|
    decreases |items|
  {
    if items == [] then r
    else PushAllRow(PushRow(r, items[0], now, oks[0]), items[1..], now, oks[1..])
  }

  /** The table after the pushes: every row on its own. */
  function PushAll(t: Table, items: Table, now: int, oks: seq<bool>): (t': Table)
    requires |oks| == |items|
    ensures |t'| == |t|
  {
    if t == [] then [] else [PushAllRow(t[0], items, now, oks)] + PushAll(t[1..], items, now, oks)
  }

  lemma {:induction false} PushAllAt(t: Table, items: Table, now: int, oks: seq<bool>)
    requires |oks| == |items|
    ensures forall i :: 0 <= i < |t| ==> PushAll(t, items, now, oks)[i] == PushAllRow(t[i], items, now, oks)
  {
    if t != [] { PushAllAt(t[1..], items, now, oks); }
  }

  function SentIds(items: Table): seq<nat> {
    if items == [] then [] else (if items[0].parses then [items[0].id] else []) + SentIds(items[1..])
  }

  /** Which pushes did not fail, when send number `s` gets through exactly if `up(s)`
      and the first send is number `n`; a row that does not parse is skipped. */
  function Results(items: Table, up: nat -> bool, n: nat): (oks: seq<bool>)
    ensures |oks| == |items|
  {
    seq(|items|, k requires 0 <= k < |items| => items[k].parses ==> up(n + |SentIds(items[..k])|))
  }

  class OutboxRepository {
    var rows: Table

    constructor (t: Table)
      ensures rows == t
    {
      rows := t;
    }

    method Execute(s: Statement)
      modifies this
      ensures rows == Update(old(rows), s)
    {
      rows := Update(rows, s);
    }

    method Select(q: Query) returns (t: Table)
      ensures t == Where(rows, q)
    {
      t := Where(rows, q);
    }
  }

  /** The channel of one connected worker: `up` says which send attempts succeed. */
  class Link {
    const up: nat -> bool
    var sent: seq<nat>

    constructor (up: nat -> bool)
      ensures this.up == up && sent == []
    {
      this.up := up;
      sent := [];
    }

    method Send(id: nat) returns (ok: bool)
      modifies this
      ensures sent == old(sent) + [id] && ok == up(|old(sent)|)
    {
      ok := up(|sent|);
      sent := sent + [id];
    }
  }

  method PushSingleItem(repo: OutboxRepository, link: Link, item: Row, now: int) returns (ok: bool)
    modifies repo, link
    ensures repo.rows == PushOne(old(repo.rows), item, now, ok)
    ensures link.sent == old(link.sent) + (if item.parses then [item.id] else [])
    ensures ok == (item.parses ==> link.up(|old(link.sent)|))
  {
    PushOneAt(repo.rows, item, now, true);
    PushOneAt(repo.rows, item, now, false);
    if !item.parses {
      assert PushOne(repo.rows, item, now, true) == repo.rows;
      return true;
    }
    repo.Execute(SetInflight(item.id, now));
    ok := link.Send(item.id);
    if !ok { repo.Execute(ResetInflight(item.adapter)); }
  }

  method PushItems(repo: OutboxRepository, link: Link, items: Table, now: int)
    modifies repo, link
    ensures repo.rows == PushAll(old(repo.rows), items, now, Results(items, link.up, |old(link.sent)|))
    ensures link.sent == old(link.sent) + SentIds(items)
  {
    ghost var t, n := repo.rows, |link.sent|;
    PushAllAt(t, [], now, []);
    assert PushAll(t, [], now, []) == t;
    for i := 0 to |items|
      invariant repo.rows == PushedTo(t, items, i, now, link.up, n)
      invariant link.sent == old(link.sent) + SentIds(items[..i])
    {
      PushNext(t, items, i, now, link.up, n);
      var ok := PushSingleItem(repo, link, items[i], now);
    }
    assert items[..|items|] == items;
  }

  /** The table after the first `i` items of a pass. */
  function PushedTo(t: Table, items: Table, i: nat, now: int, up: nat -> bool, n: nat): Table
    requires i <= |items|
  {
    PushAll(t, items[..i], now, Results(items[..i], up, n))
  }

  /** One more item pushed after the others. */
  lemma PushNext(t: Table, items: Table, i: nat, now: int, up: nat -> bool, n: nat)
    requires i < |items|
    ensures var ok := items[i].parses ==> up(n + |SentIds(items[..i])|);
      PushedTo(t, items, i + 1, now, up, n) == PushOne(PushedTo(t, items, i, now, up, n), items[i], now, ok)
    ensures SentIds(items[..i + 1]) == SentIds(items[..i]) + if items[i].parses then [items[i].id] else []
  {
    assert items[..i + 1] == items[..i] + [items[i]];
    SentOneMore(items[..i], items[i]);
    PushAfter(t, items[..i], now, up, n, items[i]);
  }

  lemma PushAfter(t: Table, items: Table, now: int, up: nat -> bool, n: nat, item: Row)
    ensures var ok := item.parses ==> up(n + |SentIds(items)|);
      PushAll(t, items + [item], now, Results(items + [item], up, n))
        == PushOne(PushAll(t, items, now, Results(items, up, n)), item, now, ok)
  {
    var oks, ok := Results(items, up, n), item.parses ==> up(n + |SentIds(items)|);
    ResultsOneMore(items, up, n, item);
    PushAllAt(t, items, now, oks);
    PushAllAt(t, items + [item], now, oks + [ok]);
    PushOneAt(PushAll(t, items, now, oks), item, now, ok);
    forall i | 0 <= i < |t|
      ensures PushAllRow(t[i], items + [item], now, oks + [ok])
           == PushRow(PushAllRow(t[i], items, now, oks), item, now, ok)
    {
      PushOneMore(t[i], items, now, oks, item, ok);
    }
  }

  lemma ResultsOneMore(items: Table, up: nat -> bool, n: nat, item: Row)
    ensures Results(items + [item], up, n)
         == Results(items, up, n) + [item.parses ==> up(n + |SentIds(items)|)]
  {
    var more := items + [item];
    forall k | 0 <= k <= |items| ensures more[..k] == items[..k] {}
    assert items[..|items|] == items;
  }

  lemma {:induction false} SentOneMore(items: Table, item: Row)
    ensures SentIds(items + [item]) == SentIds(items) + (if item.parses then [item.id] else [])
  {
    if items != [] {
      assert (items + [item])[1..] == items[1..] + [item];
      SentOneMore(items[1..], item);
    }
  }

  lemma {:induction false} PushOneMore(r: Row, items: Table, now: int, oks: seq<bool>, item: Row, ok: bool)
    requires |oks| == |items|
    ensures PushAllRow(r, items + [item], now, oks + [ok]) == PushRow(PushAllRow(r, items, now, oks), item, now, ok)
    decreases |items|
  {
    if items == [] {
      assert (items + [item])[1..] == [] && (oks + [ok])[1..] == [];
    } else {
      assert (items + [item])[1..] == items[1..] + [item];
      assert (oks + [ok])[1..] == oks[1..] + [ok];
      PushOneMore(PushRow(r, items[0], now, oks[0]), items[1..], now, oks[1..], item, ok);
    }
  }

  // ------------------------------------------------ what a row ends up as

  predicate AllOkFrom(oks: seq<bool>, k: nat) {
    forall j :: k <= j < |oks| ==> oks[j]
  }

  ghost predicate OfAdapter(items: Table, adapter: Adapter) {
    forall k :: 0 <= k < |items| ==> items[k].adapter == adapter
  }

  /** A row no push names is reset by the first failed send and otherwise kept. */
  lemma {:induction false} BystanderRow(r: Row, items: Table, now: int, oks: seq<bool>)
    requires |oks| == |items| && OfAdapter(items, r.adapter)
    requires forall k :: 0 <= k < |items| ==>
      (items[k].id == r.id ==> !items[k].parses) && (!items[k].parses ==> oks[k])
    ensures PushAllRow(r, items, now, oks) == if AllOkFrom(oks, 0) then r else ResetRow(r)
    decreases |items|
  {
    if items != [] {
      var next := PushRow(r, items[0], now, oks[0]);
      assert next == if oks[0] then r else ResetRow(r);
      BystanderRow(next, items[1..], now, oks[1..]);
      assert AllOkFrom(oks, 0) <==> oks[0] && AllOkFrom(oks[1..], 0) by {
        assert forall j :: 0 < j < |oks| ==> oks[j] == oks[1..][j - 1];
      }
    }
  }

  /** A pushed row ends inflight exactly when its own send and every later one of
      the pass got through; otherwise it ends pending. */
  lemma {:induction false} PushedRow(r: Row, items: Table, now: int, oks: seq<bool>, k: nat)
    requires |oks| == |items| && k < |items| && OfAdapter(items, r.adapter) && DistinctIds(items)
    requires items[k].id == r.id && items[k].parses
    requires forall j :: 0 <= j < |items| && !items[j].parses ==> oks[j]
    ensures PushAllRow(r, items, now, oks) ==
      if AllOkFrom(oks, k) then r.(status := Inflight, sentAt := Some(now)) else r.(status := Pending, sentAt := None)
    decreases |items|
  {
    var next := PushRow(r, items[0], now, oks[0]);
    assert forall j :: 0 < j < |oks| ==> oks[j] == oks[1..][j - 1];
    if k == 0 {
      BystanderRow(next, items[1..], now, oks[1..]);
      assert AllOkFrom(oks, 0) <==> oks[0] && AllOkFrom(oks[1..], 0);
    } else {
      assert items[0].id != r.id;
      PushedRow(next, items[1..], now, oks[1..], k - 1);
      assert AllOkFrom(oks, k) <==> AllOkFrom(oks[1..], k - 1);
    }
  }

  /** A row of another adapter is never touched. */
  lemma {:induction false} ForeignRow(r: Row, items: Table, now: int, oks: seq<bool>)
    requires |oks| == |items|
    requires forall k :: 0 <= k < |items| ==> items[k].adapter != r.adapter && items[k].id != r.id
    ensures PushAllRow(r, items, now, oks) == r
    decreases |items|
  {
    if items != [] { ForeignRow(r, items[1..], now, oks[1..]); }
  }

  lemma {:induction false} SentNamesEveryParsing(items: Table, k: nat)
    requires k < |items| && items[k].parses
    ensures items[k].id in SentIds(items)
  {
    if k > 0 { SentNamesEveryParsing(items[1..], k - 1); }
  }

  // ------------------------------------------------- sends, by their number

  /** The sends of a pass from item `k` on all got through. */
  predicate ThroughFrom(items: Table, up: nat -> bool, n: nat, k: nat)
    requires k <= |items|
  {
    forall s :: n + |SentIds(items[..k])| <= s < n + |SentIds(items)| ==> up(s)
  }

  /** Sends are numbered in the order of the items. */
  lemma {:induction false} SendsInOrder(items: Table, a: nat, b: nat)
    requires a <= b <= |items|
    ensures |SentIds(items[..a])| <= |SentIds(items[..b])|
    ensures a < b && items[a].parses ==> |SentIds(items[..a])| < |SentIds(items[..b])|
  {
    if a > 0 {
      SendsInOrder(items[1..], a - 1, b - 1);
      assert items[..a][1..] == items[1..][..a - 1] && items[..b][1..] == items[1..][..b - 1];
    }
  }

  lemma OkFromIsThrough(items: Table, up: nat -> bool, n: nat, k: nat)
    requires k <= |items|
    ensures AllOkFrom(Results(items, up, n), k) <==> ThroughFrom(items, up, n, k)
  {
    var oks := Results(items, up, n);
    assert items[..|items|] == items;
    if ThroughFrom(items, up, n, k) {
      forall i | k <= i < |items| ensures oks[i] {
        SendsInOrder(items, k, i);
        SendsInOrder(items, i, |items|);
      }
    } else {
      var s :| n + |SentIds(items[..k])| <= s < n + |SentIds(items)| && !up(s);
      var i := FailedItem(items, up, n, s);
      if i < k { SendsInOrder(items, i, k); }
      assert !oks[i];
    }
  }

  lemma SkippedIsOk(items: Table, up: nat -> bool, n: nat)
    ensures forall k :: 0 <= k < |items| && !items[k].parses ==> Results(items, up, n)[k]
  {}

  /** Some item of the pass is the one sent last. */
  lemma {:induction false} LastSent(items: Table) returns (k: nat)
    requires SentIds(items) != []
    ensures k < |items| && items[k].parses && |SentIds(items[..k])| == |SentIds(items)| - 1
  {
    if SentIds(items[1..]) != [] {
      k := LastSent(items[1..]);
      k := k + 1;
      assert items[..k][1..] == items[1..][..k - 1];
    } else {
      k := 0;
    }
  }

  // ------------------------------------------------------------- the retry tick

  predicate Eligible(r: Row, adapter: Adapter, due: Row -> bool) {
    Matches(r, Unacked(adapter)) || Matches(r, Retryable(adapter, due))
  }

  /** One adapter's share of a tick; its first send is number `n` on the link. */
  datatype Job = Job(adapter: Adapter, due: Row -> bool, up: nat -> bool, n: nat, now: int)

  function FirstPass(t: Table, j: Job): Table {
    Where(t, Retryable(j.adapter, j.due))
  }

  /** The rows after a pass over a query's rows. */
  function Passed(t: Table, q: Query, up: nat -> bool, n: nat, now: int): (t': Table)
    ensures |t'| == |t|
  {
    PushAll(t, Where(t, q), now, Results(Where(t, q), up, n))
  }

  function AfterFirst(t: Table, j: Job): Table {
    Passed(t, Retryable(j.adapter, j.due), j.up, j.n, j.now)
  }

  function LastPass(t: Table, j: Job): Table {
    Where(AfterFirst(t, j), Unacked(j.adapter))
  }

  /** Number of the first send of the last pass. */
  function LastStart(t: Table, j: Job): nat {
    j.n + |SentIds(FirstPass(t, j))|
  }

  /** Number of the first send after the tick. */
  function LastEnd(t: Table, j: Job): nat {
    LastStart(t, j) + |SentIds(LastPass(t, j))|
  }

  function AfterTick(t: Table, j: Job): Table {
    Passed(AfterFirst(t, j), Unacked(j.adapter), j.up, LastStart(t, j), j.now)
  }

  /** Fetches the rows of a query and pushes them one by one. */
  method PushQuery(repo: OutboxRepository, link: Link, q: Query, now: int)
    modifies repo, link
    ensures repo.rows == Passed(old(repo.rows), q, link.up, |old(link.sent)|, now)
    ensures link.sent == old(link.sent) + SentIds(Where(old(repo.rows), q))
  {
    var items := repo.Select(q);
    PushItems(repo, link, items, now);
  }

  /** The first half of a tick. */
  method PushRetryable(repo: OutboxRepository, link: Link, adapter: Adapter, due: Row -> bool, now: int)
    modifies repo, link
    ensures var j := Job(adapter, due, link.up, |old(link.sent)|, now);
      && repo.rows == AfterFirst(old(repo.rows), j)
      && link.sent == old(link.sent) + SentIds(FirstPass(old(repo.rows), j))
      && |link.sent| == LastStart(old(repo.rows), j)
  {
    PushQuery(repo, link, Retryable(adapter, due), now);
  }

  lemma SentSince(before: seq<nat>, sent: seq<nat>, t: Table, j: Job)
    requires sent == before + SentIds(FirstPass(t, j)) + SentIds(LastPass(t, j))
    ensures sent[|before|..] == SentInTick(t, j)
  {}

  /** The due failures first, then everything unacknowledged. */
  method RetryTick(repo: OutboxRepository, link: Link, adapter: Adapter, due: Row -> bool, now: int)
    modifies repo, link
    ensures var j := Job(adapter, due, link.up, |old(link.sent)|, now);
      && repo.rows == AfterTick(old(repo.rows), j)
      && link.sent == old(link.sent) + SentIds(FirstPass(old(repo.rows), j)) + SentIds(LastPass(old(repo.rows), j))
    ensures DistinctIds(old(repo.rows)) ==>
      SendsExactly(old(repo.rows), adapter, due, link.sent[|old(link.sent)|..])
  {
    ghost var t, sent, j := repo.rows, link.sent, Job(adapter, due, link.up, |link.sent|, now);
    PushRetryable(repo, link, adapter, due, now);
    PushQuery(repo, link, Unacked(adapter), now);
    SentSince(sent, link.sent, t, j);
    if DistinctIds(t) { TickSendsExactly(t, j); }
  }

  /** What a tick is to send: the adapter's rows with a readable payload that are
      unacknowledged, or failed less than five times and are due again. */
  predicate ToSend(r: Row, adapter: Adapter, due: Row -> bool) {
    && r.adapter == adapter && r.parses
    && (r.status == Pending || r.status == Inflight || (r.status == Failed && due(r) && r.retryCount < 5))
  }

  function SentInTick(t: Table, j: Job): seq<nat> {
    SentIds(FirstPass(t, j)) + SentIds(LastPass(t, j))
  }

  lemma {:induction false} SentWasItem(items: Table, id: nat)
    requires id in SentIds(items)
    ensures exists k :: 0 <= k < |items| && items[k].id == id && items[k].parses
  {
    if items[0].parses && items[0].id == id {
    } else {
      SentWasItem(items[1..], id);
      var k :| 0 <= k < |items[1..]| && items[1..][k].id == id && items[1..][k].parses;
      assert items[k + 1] == items[1..][k];
    }
  }

  lemma SameIdSameRow(t: Table, a: Row, b: Row)
    requires DistinctIds(t) && a in t && b in t && a.id == b.id
    ensures a == b
  {}

  /** A row that is sent in the first pass is a failed one that is due. */
  lemma SentFirstExactly(t: Table, j: Job, r: Row)
    requires DistinctIds(t) && r in t
    ensures r.id in SentIds(FirstPass(t, j))
      <==> ToSend(r, j.adapter, j.due) && r.status == Failed
  {
    var items := FirstPass(t, j);
    WhereKeepsExactly(t, Retryable(j.adapter, j.due));
    if r.id in SentIds(items) {
      SentWasItem(items, r.id);
      var k :| 0 <= k < |items| && items[k].id == r.id && items[k].parses;
      assert items[k] in items;
      SameIdSameRow(t, items[k], r);
    }
    if ToSend(r, j.adapter, j.due) && r.status == Failed {
      assert r in items;
      var k :| 0 <= k < |items| && items[k] == r;
      SentNamesEveryParsing(items, k);
    }
  }

  /** The last pass sends every row that is to be sent, and no other. */
  lemma SentLastExactly(t: Table, j: Job, r: Row)
    requires DistinctIds(t) && r in t
    ensures r.id in SentIds(LastPass(t, j)) <==> ToSend(r, j.adapter, j.due)
  {
    var items := LastPass(t, j);
    if ToSend(r, j.adapter, j.due) { EveryEligibleIsSent(t, j, r); }
    if r.id in SentIds(items) {
      SentWasItem(items, r.id);
      var k: nat :| k < |items| && items[k].id == r.id && items[k].parses;
      var i := PassItemRow(t, j, k);
      RowBetweenPasses(t, j, i);
      SameIdSameRow(t, t[i], r);
    }
  }

  /** These are the ids of the rows that are to be sent, among those of the table. */
  ghost predicate SendsExactly(t: Table, adapter: Adapter, due: Row -> bool, ids: seq<nat>) {
    forall r :: r in t ==> (r.id in ids <==> ToSend(r, adapter, due))
  }

  lemma TickSendsExactly(t: Table, j: Job)
    requires DistinctIds(t)
    ensures SendsExactly(t, j.adapter, j.due, SentInTick(t, j))
  {
    forall r | r in t ensures r.id in SentInTick(t, j) <==> ToSend(r, j.adapter, j.due) {
      SentFirstExactly(t, j, r);
      SentLastExactly(t, j, r);
    }
  }

  /** A row that is not sent is not marked either: it is inflight or failed after the
      tick only if it was so before, and an acknowledged one stays acknowledged. */
  lemma UnsentIsUnmarked(t: Table, j: Job, i: nat)
    requires DistinctIds(t) && i < |t| && !ToSend(t[i], j.adapter, j.due)
    ensures var r := AfterTick(t, j)[i];
      && (t[i].status != Inflight ==> r == t[i])
      && (t[i].status == Inflight ==> r == t[i] || r == t[i].(status := Pending, sentAt := None))
  {
    RowAfterTick(t, j, i);
  }

  /** A row that is sent ends inflight, stamped with the time, or pending without. */
  lemma SentIsMarked(t: Table, j: Job, i: nat)
    requires DistinctIds(t) && i < |t| && ToSend(t[i], j.adapter, j.due)
    ensures var r := AfterTick(t, j)[i];
      || r == t[i].(status := Inflight, sentAt := Some(j.now))
      || r == t[i].(status := Pending, sentAt := None)
  {
    FirstPassKeepsIds(t, j);
    RowBetweenPasses(t, j, i);
    var k := SentByQuery(AfterFirst(t, j), Unacked(j.adapter), j.up, LastStart(t, j), j.now, i);
    var was := AfterFirst(t, j)[i];
    assert was == t[i].(status := was.status, sentAt := was.sentAt);
  }

  // ------------------------------------------------- what each statement says

  /** What a reply, a mark or a reset does to one row. */
  lemma StatementsSay(r: Row, s: Statement)
    ensures Apply(r, s) ==
      match s
      case SetInflight(id, now) =>
        if r.id != id then r
        else Row(r.id, r.adapter, r.capability, r.payload, r.session, r.parses, r.createdAt,
                 Inflight, Some(now), r.error, r.retryCount, r.retryAfter)
      case SetSent(id, now) =>
        if r.id != id then r
        else Row(r.id, r.adapter, r.capability, r.payload, r.session, r.parses, r.createdAt,
                 Sent, Some(now), r.error, r.retryCount, r.retryAfter)
      case SetFailed(id, reason, retryAfter) =>
        if r.id != id then r
        else Row(r.id, r.adapter, r.capability, r.payload, r.session, r.parses, r.createdAt,
                 Failed, r.sentAt, Some(reason), 1 + r.retryCount, retryAfter)
      case ResetInflight(adapter) =>
        if r.adapter != adapter || r.status != Inflight then r
        else Row(r.id, r.adapter, r.capability, r.payload, r.session, r.parses, r.createdAt,
                 Pending, None, r.error, r.retryCount, r.retryAfter)
      case ResetAllInflight =>
        if r.status != Inflight then r
        else Row(r.id, r.adapter, r.capability, r.payload, r.session, r.parses, r.createdAt,
                 Pending, None, r.error, r.retryCount, r.retryAfter)
  {}

  // ----------------------------------------------------------- how a tick ends

  /** A query's rows are its adapter's, and the table's. */
  lemma QueryRows(t: Table, q: Query)
    requires DistinctIds(t)
    ensures DistinctIds(Where(t, q)) && OfAdapter(Where(t, q), q.adapter)
    ensures forall i, k :: 0 <= i < |t| && 0 <= k < |Where(t, q)| && Where(t, q)[k].id == t[i].id ==>
      Where(t, q)[k] == t[i]
  {
    WhereKeepsExactly(t, q);
    var items := Where(t, q);
    forall k | 0 <= k < |items| ensures items[k].adapter == q.adapter { assert items[k] in items; }
    forall i, k | 0 <= i < |t| && 0 <= k < |items| && items[k].id == t[i].id ensures items[k] == t[i] {
      assert items[k] in items;
      var j :| 0 <= j < |t| && t[j] == items[k];
    }
  }

  lemma ForeignAfterQuery(t: Table, q: Query, up: nat -> bool, n: nat, now: int, i: nat)
    requires DistinctIds(t) && i < |t| && t[i].adapter != q.adapter
    ensures Passed(t, q, up, n, now)[i] == t[i]
  {
    QueryRows(t, q);
    PushAllAt(t, Where(t, q), now, Results(Where(t, q), up, n));
    ForeignRow(t[i], Where(t, q), now, Results(Where(t, q), up, n));
  }

  /** A row the pass sends, which is item `k` of it. */
  lemma SentByQuery(t: Table, q: Query, up: nat -> bool, n: nat, now: int, i: nat) returns (k: nat)
    requires DistinctIds(t) && i < |t| && Matches(t[i], q) && t[i].parses
    ensures k < |Where(t, q)| && Where(t, q)[k] == t[i]
    ensures Passed(t, q, up, n, now)[i]
         == if ThroughFrom(Where(t, q), up, n, k) then t[i].(status := Inflight, sentAt := Some(now))
            else t[i].(status := Pending, sentAt := None)
  {
    QueryRows(t, q);
    WhereKeepsExactly(t, q);
    SkippedIsOk(Where(t, q), up, n);
    assert t[i] in Where(t, q);
    k :| k < |Where(t, q)| && Where(t, q)[k] == t[i];
    PushAllAt(t, Where(t, q), now, Results(Where(t, q), up, n));
    PushedRow(t[i], Where(t, q), now, Results(Where(t, q), up, n), k);
    OkFromIsThrough(Where(t, q), up, n, k);
  }

  lemma KeptByQuery(t: Table, q: Query, up: nat -> bool, n: nat, now: int, i: nat)
    requires DistinctIds(t) && i < |t| && t[i].adapter == q.adapter && !(Matches(t[i], q) && t[i].parses)
    ensures Passed(t, q, up, n, now)[i] == if ThroughFrom(Where(t, q), up, n, 0) then t[i] else ResetRow(t[i])
  {
    var items := Where(t, q);
    QueryRows(t, q);
    WhereKeepsExactly(t, q);
    SkippedIsOk(items, up, n);
    forall k | 0 <= k < |items| && items[k].id == t[i].id ensures !items[k].parses { assert items[k] in items; }
    PushAllAt(t, items, now, Results(items, up, n));
    BystanderRow(t[i], items, now, Results(items, up, n));
    OkFromIsThrough(items, up, n, 0);
  }

  /** One row across the pass over a query's rows. */
  lemma RowAfterQuery(t: Table, q: Query, up: nat -> bool, n: nat, now: int, i: nat)
    requires DistinctIds(t) && i < |t|
    ensures var items, r := Where(t, q), Passed(t, q, up, n, now)[i];
      && r.(status := t[i].status, sentAt := t[i].sentAt) == t[i]
      && (t[i].adapter != q.adapter ==> r == t[i])
      && (Matches(t[i], q) && t[i].parses ==>
            exists k :: 0 <= k < |items| && items[k] == t[i]
                        && r.status == (if ThroughFrom(items, up, n, k) then Inflight else Pending))
      && (t[i].adapter == q.adapter && !(Matches(t[i], q) && t[i].parses) ==>
            r == if ThroughFrom(items, up, n, 0) then t[i] else ResetRow(t[i]))
  {
    if t[i].adapter != q.adapter {
      ForeignAfterQuery(t, q, up, n, now, i);
    } else if Matches(t[i], q) && t[i].parses {
      var k := SentByQuery(t, q, up, n, now, i);
    } else {
      KeptByQuery(t, q, up, n, now, i);
    }
  }

  lemma FirstPassKeepsIds(t: Table, j: Job)
    requires DistinctIds(t)
    ensures DistinctIds(AfterFirst(t, j))
  {
    forall i | 0 <= i < |t| ensures AfterFirst(t, j)[i].id == t[i].id {
      RowAfterQuery(t, Retryable(j.adapter, j.due), j.up, j.n, j.now, i);
    }
  }

  /** Everything sent got through, in the first pass and in the last. */
  predicate Untroubled(t: Table, j: Job) {
    ThroughFrom(FirstPass(t, j), j.up, j.n, 0) && ThroughFrom(LastPass(t, j), j.up, LastStart(t, j), 0)
  }

  /** After the first pass an eligible row that parses is unacknowledged, and no
      other row that parses is. */
  lemma RowBetweenPasses(t: Table, j: Job, i: nat)
    requires DistinctIds(t) && i < |t|
    ensures var r := AfterFirst(t, j)[i];
      && r.id == t[i].id && r.adapter == t[i].adapter && r.parses == t[i].parses
      && (t[i].parses ==> (Matches(r, Unacked(j.adapter)) <==> Eligible(t[i], j.adapter, j.due)))
      && (t[i].adapter != j.adapter ==> r == t[i])
      && r.(status := t[i].status, sentAt := t[i].sentAt) == t[i]
      && (t[i].adapter == j.adapter && !(t[i].parses && Eligible(t[i], j.adapter, j.due)) ==>
            r == if ThroughFrom(FirstPass(t, j), j.up, j.n, 0) then t[i] else ResetRow(t[i]))
  {
    RowAfterQuery(t, Retryable(j.adapter, j.due), j.up, j.n, j.now, i);
  }

  /** An eligible row that parses is item `k` of the last pass. */
  lemma EligibleAfterTick(t: Table, j: Job, i: nat) returns (k: nat)
    requires DistinctIds(t) && i < |t| && Eligible(t[i], j.adapter, j.due) && t[i].parses
    ensures k < |LastPass(t, j)| && LastPass(t, j)[k] == AfterFirst(t, j)[i]
    ensures var r := AfterTick(t, j)[i];
      && r.status == (if ThroughFrom(LastPass(t, j), j.up, LastStart(t, j), k) then Inflight else Pending)
      && r.(status := t[i].status, sentAt := t[i].sentAt) == t[i]
  {
    FirstPassKeepsIds(t, j);
    RowBetweenPasses(t, j, i);
    k := SentByQuery(AfterFirst(t, j), Unacked(j.adapter), j.up, LastStart(t, j), j.now, i);
  }

  lemma OtherAfterTick(t: Table, j: Job, i: nat)
    requires DistinctIds(t) && i < |t| && t[i].adapter == j.adapter
    requires !(Eligible(t[i], j.adapter, j.due) && t[i].parses)
    ensures AfterTick(t, j)[i] == if Untroubled(t, j) then t[i] else ResetRow(t[i])
  {
    FirstPassKeepsIds(t, j);
    RowBetweenPasses(t, j, i);
    KeptByQuery(AfterFirst(t, j), Unacked(j.adapter), j.up, LastStart(t, j), j.now, i);
  }

  lemma ForeignAfterTick(t: Table, j: Job, i: nat)
    requires DistinctIds(t) && i < |t| && t[i].adapter != j.adapter
    ensures AfterTick(t, j)[i] == t[i]
  {
    FirstPassKeepsIds(t, j);
    ForeignAfterQuery(t, Retryable(j.adapter, j.due), j.up, j.n, j.now, i);
    ForeignAfterQuery(AfterFirst(t, j), Unacked(j.adapter), j.up, LastStart(t, j), j.now, i);
  }

  /** How each row ends.  An eligible row that parses ends inflight exactly when its
      own send in the last pass and every later one got through, else pending.  Any
      other row of the adapter is kept when every send of the tick got through, else
      reset.  Rows of other adapters are kept. */
  lemma RowAfterTick(t: Table, j: Job, i: nat)
    requires DistinctIds(t) && i < |t|
    ensures var r, pass := AfterTick(t, j)[i], LastPass(t, j);
      && (t[i].adapter != j.adapter ==> r == t[i])
      && (Eligible(t[i], j.adapter, j.due) && t[i].parses ==>
            exists k :: 0 <= k < |pass| && pass[k] == AfterFirst(t, j)[i]
              && r.status == (if ThroughFrom(pass, j.up, LastStart(t, j), k) then Inflight else Pending)
              && r.(status := t[i].status, sentAt := t[i].sentAt) == t[i])
      && (t[i].adapter == j.adapter && !(Eligible(t[i], j.adapter, j.due) && t[i].parses) ==>
            r == if Untroubled(t, j) then t[i] else ResetRow(t[i]))
  {
    if t[i].adapter != j.adapter {
      ForeignAfterTick(t, j, i);
    } else if Eligible(t[i], j.adapter, j.due) && t[i].parses {
      var k := EligibleAfterTick(t, j, i);
    } else {
      OtherAfterTick(t, j, i);
    }
  }

  /** Every pending, inflight or due failed row that parses and has failed fewer
      than five times is sent at least once. */
  lemma EveryEligibleIsSent(t: Table, j: Job, r: Row)
    requires DistinctIds(t) && r in t && Eligible(r, j.adapter, j.due) && r.parses
    ensures r.id in SentIds(LastPass(t, j))
  {
    var i :| 0 <= i < |t| && t[i] == r;
    RowAfterTick(t, j, i);
    RowBetweenPasses(t, j, i);
    var k :| 0 <= k < |LastPass(t, j)| && LastPass(t, j)[k] == AfterFirst(t, j)[i];
    SentNamesEveryParsing(LastPass(t, j), k);
  }

  ghost predicate AllInflight(t: Table, j: Job) {
    forall i :: 0 <= i < |t| && Eligible(t[i], j.adapter, j.due) && t[i].parses ==>
      AfterTick(t, j)[i].status == Inflight
  }

  predicate NoneInflight(t: Table, adapter: Adapter) {
    forall i :: 0 <= i < |t| && t[i].adapter == adapter ==> t[i].status != Inflight
  }

  /** Every send of the last pass got through. */
  predicate LastPassThrough(t: Table, j: Job) {
    forall s :: LastStart(t, j) <= s < LastEnd(t, j) ==> j.up(s)
  }

  predicate SentNothing(t: Table, j: Job) {
    LastEnd(t, j) == LastStart(t, j)
  }

  /** The row an item of the last pass is. */
  lemma PassItemRow(t: Table, j: Job, k: nat) returns (i: nat)
    requires DistinctIds(t) && k < |LastPass(t, j)| && LastPass(t, j)[k].parses
    ensures i < |t| && AfterFirst(t, j)[i] == LastPass(t, j)[k]
    ensures Eligible(t[i], j.adapter, j.due) && t[i].parses
    ensures AfterTick(t, j)[i].adapter == j.adapter
    ensures AfterTick(t, j)[i].status
         == if ThroughFrom(LastPass(t, j), j.up, LastStart(t, j), k) then Inflight else Pending
  {
    var pass := LastPass(t, j);
    FirstPassKeepsIds(t, j);
    WhereKeepsExactly(AfterFirst(t, j), Unacked(j.adapter));
    assert pass[k] in pass;
    i :| 0 <= i < |t| && AfterFirst(t, j)[i] == pass[k];
    RowBetweenPasses(t, j, i);
    var m := EligibleAfterTick(t, j, i);
    assert pass[m] == pass[k];
  }

  /** An item whose send failed, when some send of the last pass did. */
  lemma {:induction false} FailedItem(items: Table, up: nat -> bool, n: nat, s: nat) returns (k: nat)
    requires n <= s < n + |SentIds(items)| && !up(s)
    ensures k < |items| && items[k].parses && n + |SentIds(items[..k])| == s
  {
    if items[0].parses && s == n {
      k := 0;
    } else {
      k := FailedItem(items[1..], up, if items[0].parses then n + 1 else n, s);
      k := k + 1;
      assert items[..k][1..] == items[1..][..k - 1];
    }
  }

  /** All of them end inflight exactly when every send of the last pass got through. */
  lemma AllInflightExactly(t: Table, j: Job)
    requires DistinctIds(t)
    ensures AllInflight(t, j) <==> LastPassThrough(t, j)
  {
    var pass, m := LastPass(t, j), LastStart(t, j);
    if LastPassThrough(t, j) {
      forall i | 0 <= i < |t| && Eligible(t[i], j.adapter, j.due) && t[i].parses
        ensures AfterTick(t, j)[i].status == Inflight
      {
        RowAfterTick(t, j, i);
      }
    } else {
      var s :| m <= s < LastEnd(t, j) && !j.up(s);
      var k := FailedItem(pass, j.up, m, s);
      var i := PassItemRow(t, j, k);
    }
  }

  /** None of the adapter's rows ends inflight, parsing or not, exactly when the last
      send of the tick failed; or, with nothing to send, when none was before. */
  lemma NoneInflightExactly(t: Table, j: Job)
    requires DistinctIds(t)
    ensures NoneInflight(AfterTick(t, j), j.adapter)
            <==> if SentNothing(t, j) then NoneInflight(t, j.adapter) else !j.up(LastEnd(t, j) - 1)
  {
    if SentNothing(t, j) {
      NothingSentNothingChanges(t, j);
    } else if j.up(LastEnd(t, j) - 1) {
      var i := LastSuccessStays(t, j);
    } else {
      forall i | 0 <= i < |t| && AfterTick(t, j)[i].adapter == j.adapter
        ensures AfterTick(t, j)[i].status != Inflight
      {
        LastFailureResets(t, j, i);
      }
    }
  }

  lemma LastSuccessStays(t: Table, j: Job) returns (i: nat)
    requires DistinctIds(t) && !SentNothing(t, j) && j.up(LastEnd(t, j) - 1)
    ensures i < |t| && AfterTick(t, j)[i].adapter == j.adapter && AfterTick(t, j)[i].status == Inflight
  {
    var pass := LastPass(t, j);
    var k := LastSent(pass);
    i := PassItemRow(t, j, k);
  }

  lemma LastFailureResets(t: Table, j: Job, i: nat)
    requires DistinctIds(t) && i < |t| && !SentNothing(t, j) && !j.up(LastEnd(t, j) - 1)
    requires AfterTick(t, j)[i].adapter == j.adapter
    ensures AfterTick(t, j)[i].status != Inflight
  {
    var pass, m := LastPass(t, j), LastStart(t, j);
    RowAfterTick(t, j, i);
    if Eligible(t[i], j.adapter, j.due) && t[i].parses {
      var k :| 0 <= k < |pass| && pass[k] == AfterFirst(t, j)[i]
        && AfterTick(t, j)[i].status == if ThroughFrom(pass, j.up, m, k) then Inflight else Pending;
      RowBetweenPasses(t, j, i);
      SendsInOrder(pass, k, |pass|);
      assert pass[..|pass|] == pass;
    } else {
      OkFromIsThrough(pass, j.up, m, 0);
      assert pass[..0] == [];
      assert !ThroughFrom(pass, j.up, m, 0);
    }
  }

  lemma NothingSentNothingChanges(t: Table, j: Job)
    requires DistinctIds(t) && SentNothing(t, j)
    ensures AfterTick(t, j) == t
  {
    forall i | 0 <= i < |t| ensures !(Eligible(t[i], j.adapter, j.due) && t[i].parses) {
      if Eligible(t[i], j.adapter, j.due) && t[i].parses { EveryEligibleIsSent(t, j, t[i]); }
    }
    WhereKeepsExactly(t, Retryable(j.adapter, j.due));
    var first := FirstPass(t, j);
    forall k | 0 <= k < |first| ensures !first[k].parses { assert first[k] in first; }
    NoneParsesNoneSent(first);
    forall i | 0 <= i < |t| ensures AfterTick(t, j)[i] == t[i] { RowAfterTick(t, j, i); }
  }

  lemma {:induction false} NoneParsesNoneSent(items: Table)
    requires forall k :: 0 <= k < |items| ==> !items[k].parses
    ensures SentIds(items) == []
  {
    if items != [] { NoneParsesNoneSent(items[1..]); }
  }

  /** So a tick ends with all of its rows inflight or none of the adapter's exactly
      when every send of its last pass got through or the last one failed. */
  lemma AllOrNoneExactly(t: Table, j: Job)
    requires DistinctIds(t)
    ensures AllInflight(t, j) || NoneInflight(AfterTick(t, j), j.adapter)
            <==> LastPassThrough(t, j) || !j.up(LastEnd(t, j) - 1)
  {
    AllInflightExactly(t, j);
    NoneInflightExactly(t, j);
  }

  /** A tick over two pending rows has nothing to retry and sends them in order. */
  lemma TwoPendingRows(t: Table, j: Job)
    requires t == [NewRow(0, j.adapter, "send", "{}", None, true, 0), NewRow(1, j.adapter, "send", "{}", None, true, 1)]
    ensures FirstPass(t, j) == [] && LastPass(t, j) == t && AfterFirst(t, j) == t
    ensures SentIds(t) == [0, 1] && SentIds(t[..0]) == [] && SentIds(t[..1]) == [0]
  {
    var r0, r1 := t[0], t[1];
    assert t[1..] == [r1] && [r1][1..] == [];
    assert Where([r1], Retryable(j.adapter, j.due)) == [] && FirstPass(t, j) == [];
    PushAllAt(t, [], j.now, []);
    assert PushAll(t, [], j.now, []) == t;
    assert Where([r1], Unacked(j.adapter)) == [r1];
    assert Where(t, Unacked(j.adapter)) == [r0] + [r1];
    assert SentIds([r1]) == [1] && SentIds(t) == [0] + [1];
    assert t[..0] == [] && t[..1] == [r0] && [r0][1..] == [];
  }

  /** Each of the two ends as its own send and the later ones of the pass decide. */
  lemma TwoPendingEnd(t: Table, j: Job, k: nat)
    requires t == [NewRow(0, j.adapter, "send", "{}", None, true, 0), NewRow(1, j.adapter, "send", "{}", None, true, 1)]
    requires k < 2 && j.n == 0
    ensures AfterTick(t, j)[k].status == if ThroughFrom(t, j.up, 0, k) then Inflight else Pending
  {
    TwoPendingRows(t, j);
    assert t[0].id == 0 && t[1].id == 1;
    assert DistinctIds(t) && LastStart(t, j) == 0;
    var pass := LastPass(t, j);
    assert k < |pass| && pass[k] == t[k];
    var i := PassItemRow(t, j, k);
    assert t[i] == t[k];
    assert i == k;
  }

  /** Two pending rows, of which the first send fails and the second gets through:
      the first row ends pending and the second inflight. */
  lemma TickEndsMixed(a: Adapter) returns (t: Table, j: Job)
    ensures t == [NewRow(0, a, "send", "{}", None, true, 0), NewRow(1, a, "send", "{}", None, true, 1)]
    ensures !j.up(0) && j.up(1) && j.adapter == a && LastStart(t, j) == 0 && LastEnd(t, j) == 2
    ensures AfterTick(t, j)[0].status == Pending && AfterTick(t, j)[1].status == Inflight
    ensures !AllInflight(t, j) && !NoneInflight(AfterTick(t, j), a)
  {
    t := [NewRow(0, a, "send", "{}", None, true, 0), NewRow(1, a, "send", "{}", None, true, 1)];
    j := Job(a, r => true, s => s > 0, 0, 2);
    TwoPendingRows(t, j);
    TwoPendingEnd(t, j, 0);
    TwoPendingEnd(t, j, 1);
    AllOrNoneExactly(t, j);
    assert ThroughFrom(t, j.up, 0, 1) && !ThroughFrom(t, j.up, 0, 0);
  }
}
